/** Properties of whole runs: deletion, lost edits, the record of extensions, quiescence. */
module ReconcilingRuns {
  import opened Collections
  import opened Reconciling
  import opened ReconcilingSafety

  /** The move is a call that returned without an error. */
  predicate Success(w: World, m: Move) {
    m.Call? && !m.reply.Crash? && Passes(w, m.reply)
  }

  /** Steps `j` and `i` belong to one pass. */
  predicate SamePass(ws: seq<World>, j: nat, i: nat) {
    j <= i < |ws| && forall l :: j < l <= i ==> !ws[l].pc.Idle?
  }

  // ---------------------------------------------------------------- deletion

  /** In every run, and at every point of a pass, the workload exists only under the finalizer. */
  lemma {:induction false} WorkloadNeedsFinalizer(ws: seq<World>, ms: seq<Move>)
    requires IsRun(ws, ms)
    ensures forall i :: 0 <= i < |ws| ==>
      (ws[i].cluster.deployment.Some? || ws[i].cluster.service.Some? ==>
        ws[i].cluster.app.Some? && ws[i].cluster.app.value.finalizer)
  {
    InvInEveryRun(ws, ms);
    forall i | 0 <= i < |ws| ensures Safe(ws[i].cluster) {
      assert Inv(ws[i]);
    }
  }

  function DeletionStage(pc: Pc): nat {
    match pc
    case DelDeployment(_) => 1
    case DelService(_) => 2
    case DelExtensions(_) => 3
    case DropFinalizer(_) => 4
    case _ => 0
  }

  /** Every stage of a deletion was entered by a success of the stage before, in the same pass. */
  lemma {:induction false} StageBefore(ws: seq<World>, ms: seq<Move>, i: nat) returns (j: nat)
    requires IsRun(ws, ms) && i < |ws| && DeletionStage(ws[i].pc) > 1
    ensures j < i && SamePass(ws, j, i) && Success(ws[j], ms[j])
    ensures DeletionStage(ws[j].pc) == DeletionStage(ws[i].pc) - 1 && ws[j].pc.v == ws[i].pc.v
  {
    assert i > 0 && ws[i] == Next(ws[i - 1], ms[i - 1]);
    if ws[i - 1].pc == ws[i].pc {
      j := StageBefore(ws, ms, i - 1);
    } else {
      j := i - 1;
    }
  }

  /**
   * The finalizer goes only in a pass in which deleting the Deployment and the Service came back
   * without an error and then the Delete of every registered extension that applies to the object
   * was called and returned none; and when it goes the workload is gone.
   */
  lemma {:induction false} FinalizerGoesLast(ws: seq<World>, ms: seq<Move>, i: nat) returns (d: nat, s: nat, x: nat)
    requires IsRun(ws, ms) && i < |ms|
    requires Held(ws[i].cluster) && !Held(ws[i + 1].cluster)
    ensures d < s < x < i && SamePass(ws, d, i) && ms[i].Call?
    ensures ws[d].pc.DelDeployment? && ws[s].pc.DelService? && ws[x].pc.DelExtensions? && ws[i].pc.DropFinalizer?
    ensures Success(ws[d], ms[d]) && Success(ws[s], ms[s]) && ms[x].Call?
    ensures forall n :: n in Applicable(ws[x].cluster.registry, ws[i].pc.v.spec) ==> DeleteReturned(ms[x].reply, n)
    ensures ws[i + 1].cluster.deployment.None? && ws[i + 1].cluster.service.None?
  {
    InvInEveryRun(ws, ms);
    assert Inv(ws[i]) && ws[i + 1] == Next(ws[i], ms[i]);
    DropIsDrop(ws[i], ms[i]);
    x := StageBefore(ws, ms, i);
    s := StageBefore(ws, ms, x);
    d := StageBefore(ws, ms, s);
    var registry := ws[x].cluster.registry;
    var applicable := Applicable(registry, ws[i].pc.v.spec);
    forall n | n in applicable ensures DeleteReturned(ms[x].reply, n) {
      DeleteReachesSelected(registry, applicable, ms[x].reply, n);
    }
  }

  lemma DropIsDrop(w: World, m: Move)
    requires Inv(w) && Held(w.cluster) && !Held(Next(w, m).cluster)
    ensures m.Call? && w.pc.DropFinalizer?
    ensures Next(w, m).cluster.deployment.None? && Next(w, m).cluster.service.None?
  {
  }

  // ---------------------------------------------------------------- completed passes

  /** Step `j` is the call with which a pass got through CreateOrUpdate. */
  predicate Completes(ws: seq<World>, ms: seq<Move>, j: nat)
    requires |ws| == |ms| + 1 && j < |ms|
  {
    ws[j].pc.PutDeployment? && Success(ws[j], ms[j])
  }

  predicate CompletedAt(ws: seq<World>, ms: seq<Move>, j: nat, h: Fingerprint)
    requires |ws| == |ms| + 1 && j < |ms|
  {
    Completes(ws, ms, j) && Hash(ws[j].pc.v) == h
  }

  predicate Creates(w: World, m: Move) {
    m.Env? && m.edit.Create? && w.cluster.app.None?
  }

  lemma {:induction false} SyncedWasCompleted(ws: seq<World>, ms: seq<Move>, i: nat, h: Fingerprint) returns (j: nat)
    requires IsRun(ws, ms) && i < |ws| && h in ws[i].synced
    ensures j < i && CompletedAt(ws, ms, j, h)
    ensures forall l :: j <= l < i ==> !Creates(ws[l], ms[l])
  {
    assert i > 0 && ws[i] == Next(ws[i - 1], ms[i - 1]);
    if h in ws[i - 1].synced {
      j := SyncedWasCompleted(ws, ms, i - 1, h);
    } else {
      j := i - 1;
    }
  }

  function OutcomeOf(pc: Pc): Option<Outcome> {
    match pc
    case Cleaning(_, _, o) => Some(o)
    case GetService(_, o) => Some(o)
    case PutService(_, o, _) => Some(o)
    case GetDeployment(_, o) => Some(o)
    case PutDeployment(_, o, _) => Some(o)
    case Report(_, o) => Some(o)
    case WriteStatus(_, _, o) => o
    case _ => None
  }

  /** In step `k` the extension sync for object `v` succeeded, having started the listed extensions. */
  predicate SyncedAt(ws: seq<World>, ms: seq<Move>, k: nat, v: App, ran: seq<string>)
    requires |ws| == |ms| + 1 && k < |ms|
  {
    && ws[k].pc == Syncing(v) && ms[k].Call? && SyncSucceeds(ws[k].cluster.registry, v.spec, ms[k].reply)
    && ran == RanNames(ws[k].cluster.registry, v.spec, ms[k].reply)
  }

  /** Where a pass has an outcome, its extension sync succeeded before. */
  lemma {:induction false} OutcomeWasSynced(ws: seq<World>, ms: seq<Move>, i: nat) returns (k: nat)
    requires IsRun(ws, ms) && i < |ws| && OutcomeOf(ws[i].pc).Some?
    ensures k < i && SamePass(ws, k, i) && SyncedAt(ws, ms, k, ws[i].pc.v, OutcomeOf(ws[i].pc).value.ran)
  {
    assert i > 0 && ws[i] == Next(ws[i - 1], ms[i - 1]);
    OutcomeStep(ws[i - 1], ms[i - 1]);
    if OutcomeOf(ws[i - 1].pc).Some? {
      k := OutcomeWasSynced(ws, ms, i - 1);
    } else {
      k := i - 1;
    }
  }

  lemma OutcomeStep(w: World, m: Move)
    requires OutcomeOf(Next(w, m).pc).Some?
    ensures !w.pc.Idle? && w.pc.v == Next(w, m).pc.v
    ensures OutcomeOf(w.pc).Some? ==> OutcomeOf(w.pc).value.ran == OutcomeOf(Next(w, m).pc).value.ran
    ensures OutcomeOf(w.pc).None? ==>
      && w.pc.Syncing? && m.Call? && SyncSucceeds(w.cluster.registry, w.pc.v.spec, m.reply)
      && OutcomeOf(Next(w, m).pc).value == Outcome(RanNames(w.cluster.registry, w.pc.v.spec, m.reply), [], {}, {})
  {
  }

  /**
   * If the object's recorded hash is that of its current spec and labels, then since it was created
   * some pass that saw this spec and these labels got through extension sync and CreateOrUpdate.
   */
  lemma {:induction false} MatchingHashWasCompleted(ws: seq<World>, ms: seq<Move>, i: nat)
      returns (k: nat, j: nat, ran: seq<string>)
    requires IsRun(ws, ms) && i < |ws| && ws[i].cluster.app.Some?
    requires ws[i].cluster.app.value.status.hash == Some(Hash(ws[i].cluster.app.value))
    ensures k < j < i && SamePass(ws, k, j)
    ensures CompletedAt(ws, ms, j, Hash(ws[i].cluster.app.value))
    ensures SyncedAt(ws, ms, k, ws[j].pc.v, ran) && Enumerates(ran, Applicable(ws[k].cluster.registry, ws[j].pc.v.spec))
    ensures forall l :: j <= l < i ==> !Creates(ws[l], ms[l])
  {
    InvInEveryRun(ws, ms);
    assert Inv(ws[i]);
    j := SyncedWasCompleted(ws, ms, i, Hash(ws[i].cluster.app.value));
    k := OutcomeWasSynced(ws, ms, j);
    ran := OutcomeOf(ws[j].pc).value.ran;
    SyncRunsApplicable(ws[k].cluster.registry, ws[j].pc.v.spec, ms[k].reply);
  }

  /** So as long as no such pass has been completed, the next pass goes into extension sync. */
  lemma {:induction false} NeverCompletedForcesSync(ws: seq<World>, ms: seq<Move>, i: nat)
    requires IsRun(ws, ms) && i < |ws| && ws[i].pc.Idle? && Held(ws[i].cluster) && !ws[i].cluster.app.value.deleting
    requires forall j :: 0 <= j < i && CompletedAt(ws, ms, j, Hash(ws[i].cluster.app.value)) ==>
      exists l :: j <= l < i && Creates(ws[l], ms[l])
    ensures Called(ws[i], Ok).pc == Syncing(ws[i].cluster.app.value)
  {
    if ws[i].cluster.app.value.status.hash == Some(Hash(ws[i].cluster.app.value)) {
      var _, j, _ := MatchingHashWasCompleted(ws, ms, i);
    }
  }

  // ---------------------------------------------------------------- the record of extensions

  /** Step `j` took recorded extension `n` through the cleanup loop. */
  predicate CleanedAt(ws: seq<World>, ms: seq<Move>, j: nat, n: string)
    requires |ws| == |ms| + 1 && j < |ms|
  {
    ws[j].pc.Cleaning? && ws[j].pc.todo != [] && ws[j].pc.todo[0] == n && ms[j].Call? && !ms[j].reply.Crash?
  }

  /** The three ways out of the cleanup loop. */
  datatype Fate = WasDeleted | Unregistered | DeleteFailed

  predicate HadFate(ws: seq<World>, ms: seq<Move>, j: nat, n: string, f: Fate)
    requires |ws| == |ms| + 1 && j < |ms|
  {
    CleanedAt(ws, ms, j, n) &&
    match f
    case WasDeleted => DeleteReturned(ms[j].reply, n) && n in ws[j].cluster.registry
    case Unregistered => n !in ws[j].cluster.registry
    case DeleteFailed => !Passes(ws[j], ms[j].reply)
  }

  predicate HasFate(o: Outcome, n: string, f: Fate) {
    match f
    case WasDeleted => n in o.cleared
    case Unregistered => n in o.orphaned
    case DeleteFailed => n in o.kept
  }

  lemma {:induction false} FateHappened(ws: seq<World>, ms: seq<Move>, i: nat, n: string, f: Fate) returns (j: nat)
    requires IsRun(ws, ms) && i < |ws| && OutcomeOf(ws[i].pc).Some? && HasFate(OutcomeOf(ws[i].pc).value, n, f)
    ensures j < i && SamePass(ws, j, i) && HadFate(ws, ms, j, n, f)
  {
    assert i > 0 && ws[i] == Next(ws[i - 1], ms[i - 1]);
    OutcomeStep(ws[i - 1], ms[i - 1]);
    if OutcomeOf(ws[i - 1].pc).Some? && HasFate(OutcomeOf(ws[i - 1].pc).value, n, f) {
      j := FateHappened(ws, ms, i - 1, n, f);
    } else {
      j := i - 1;
      FateStep(ws[j], ms[j], n, f);
      if f.WasDeleted? {
        DeleteReachesSelected(ws[j].cluster.registry, {n}, ms[j].reply, n);
      }
    }
  }

  /** A fate is met in the call that takes the name through the cleanup loop. */
  lemma FateStep(w: World, m: Move, n: string, f: Fate)
    requires OutcomeOf(Next(w, m).pc).Some? && HasFate(OutcomeOf(Next(w, m).pc).value, n, f)
    requires OutcomeOf(w.pc).Some? ==> !HasFate(OutcomeOf(w.pc).value, n, f)
    ensures w.pc.Cleaning? && w.pc.todo != [] && w.pc.todo[0] == n && m.Call? && !m.reply.Crash?
    ensures !NothingToClean(w.pc)
    ensures f == DeleteFailed <==> !Passes(w, m.reply)
    ensures f != DeleteFailed ==> (f == WasDeleted <==> n in w.cluster.registry)
  {
  }

  /** The object is there before and after, and its record of extensions changed. */
  predicate RecordChanged(w: World, m: Move) {
    && w.cluster.app.Some? && Next(w, m).cluster.app.Some?
    && w.cluster.app.value.status.extensions != Next(w, m).cluster.app.value.status.extensions
  }

  lemma RecordChangeIsStatusWrite(w: World, m: Move)
    requires Inv(w) && RecordChanged(w, m)
    ensures m.Call? && w.pc.WriteStatus? && w.pc.outcome.Some?
    ensures w.cluster.app.value == w.pc.v
    ensures Next(w, m).cluster.app.value.status.extensions == Listed(w.pc.outcome.value)
    ensures Accounted(w.pc.v, [], w.pc.outcome.value)
  {
  }

  lemma {:induction false} FailureIsKept(ws: seq<World>, ms: seq<Move>, j: nat, i: nat, n: string)
    requires IsRun(ws, ms) && j < i < |ws| && SamePass(ws, j, i) && HadFate(ws, ms, j, n, DeleteFailed)
    ensures OutcomeOf(ws[i].pc).Some? && n in OutcomeOf(ws[i].pc).value.kept
    decreases i
  {
    assert ws[i] == Next(ws[i - 1], ms[i - 1]);
    if i == j + 1 {
      assert ws[i].pc.o.kept[|ws[j].pc.o.kept|] == n;
    } else {
      FailureIsKept(ws, ms, j, i - 1, n);
      KeptStays(ws[i - 1], ms[i - 1], n);
    }
  }

  lemma KeptStays(w: World, m: Move, n: string)
    requires OutcomeOf(w.pc).Some? && n in OutcomeOf(w.pc).value.kept && !Next(w, m).pc.Idle?
    ensures OutcomeOf(Next(w, m).pc).Some? && n in OutcomeOf(Next(w, m).pc).value.kept
  {
  }

  /**
   * Whenever the record changes, the new one holds no duplicates and is exactly the extensions the
   * pass ran, each applicable one once, followed by the recorded ones whose deletion failed in it.
   */
  lemma {:induction false} RecordIsRanPlusFailed(ws: seq<World>, ms: seq<Move>, i: nat)
      returns (k: nat, ran: seq<string>, kept: seq<string>)
    requires IsRun(ws, ms) && i < |ms| && RecordChanged(ws[i], ms[i])
    ensures k < i && SamePass(ws, k, i) && SyncedAt(ws, ms, k, ws[i].pc.v, ran)
    ensures Enumerates(ran, Applicable(ws[k].cluster.registry, ws[i].pc.v.spec))
    ensures ws[i + 1].cluster.app.value.status.extensions == ran + kept
    ensures NoDuplicates(ws[i + 1].cluster.app.value.status.extensions)
    ensures Range(kept) <= Range(ws[i].cluster.app.value.status.extensions)
    ensures forall n :: n in kept <==>
      exists j :: 0 <= j < i && SamePass(ws, j, i) && HadFate(ws, ms, j, n, DeleteFailed)
  {
    InvInEveryRun(ws, ms);
    assert Inv(ws[i]) && ws[i + 1] == Next(ws[i], ms[i]);
    RecordChangeIsStatusWrite(ws[i], ms[i]);
    k := OutcomeWasSynced(ws, ms, i);
    SyncRunsApplicable(ws[k].cluster.registry, ws[i].pc.v.spec, ms[k].reply);
    ran, kept := ws[i].pc.outcome.value.ran, ws[i].pc.outcome.value.kept;
    forall n
      ensures n in kept <==> exists j :: 0 <= j < i && SamePass(ws, j, i) && HadFate(ws, ms, j, n, DeleteFailed)
    {
      if n in kept {
        var j := FateHappened(ws, ms, i, n, DeleteFailed);
      }
      if j :| 0 <= j < i && SamePass(ws, j, i) && HadFate(ws, ms, j, n, DeleteFailed) {
        FailureIsKept(ws, ms, j, i, n);
      }
    }
  }

  /**
   * A recorded extension leaves the record of an object that stays only in a pass in which its Delete
   * returned no error or it was found to be no longer registered for the kind.
   */
  lemma {:induction false} NothingForgottenSilently(ws: seq<World>, ms: seq<Move>, i: nat, n: string) returns (j: nat)
    requires IsRun(ws, ms) && i < |ms| && RecordChanged(ws[i], ms[i])
    requires n in ws[i].cluster.app.value.status.extensions
    requires n !in ws[i + 1].cluster.app.value.status.extensions
    ensures j < i && SamePass(ws, j, i)
    ensures HadFate(ws, ms, j, n, WasDeleted) || HadFate(ws, ms, j, n, Unregistered)
  {
    InvInEveryRun(ws, ms);
    assert Inv(ws[i]) && ws[i + 1] == Next(ws[i], ms[i]);
    RecordChangeIsStatusWrite(ws[i], ms[i]);
    var o := ws[i].pc.outcome.value;
    assert n in Range(ws[i].pc.v.status.extensions);
    j := FateHappened(ws, ms, i, n, if n in o.cleared then WasDeleted else Unregistered);
  }

  // ---------------------------------------------------------------- quiescence

  /** A step of the controller alone that would write to the cluster or call extensions. */
  predicate Acts(pc: Pc) {
    match pc
    case Idle => false
    case LookDeployment(_) => false
    case LookService(_) => false
    case Refresh(_) => false
    case GetService(_, _) => false
    case GetDeployment(_, _) => false
    case Report(_, _) => false
    case _ => true
  }

  /** Nothing is left to do: record and workload agree with the object. */
  predicate Settled(c: Cluster) {
    && c.app.Some? && c.app.value.finalizer && !c.app.value.deleting
    && c.app.value.status.hash == Some(Hash(c.app.value))
    && c.deployment.Some?
    && c.app.value.status.replicas == c.deployment.value.available == c.app.value.status.available
    && (c.app.value.spec.port > 0 ==> c.service.Some?)
  }

  predicate Watching(w: World) {
    && Settled(w.cluster)
    && (w.pc.Idle? || ((w.pc.LookDeployment? || w.pc.LookService? || w.pc.Refresh?) && w.cluster.app.value == w.pc.v))
    && (w.pc.LookService? ==> w.pc.v.spec.port > 0)
  }

  lemma WatchingStep(w: World, r: Reply)
    requires Watching(w)
    ensures Watching(Called(w, r)) && Called(w, r).cluster == w.cluster
  {
  }

  /** A stretch of a run in which only the controller moves. */
  ghost predicate Undisturbed(ws: seq<World>, rs: seq<Reply>) {
    |ws| == |rs| + 1 && forall i :: 0 <= i < |rs| ==> ws[i + 1] == Called(ws[i], rs[i])
  }

  /** Once settled and left alone, the controller only looks, whatever its calls return. */
  lemma {:induction false} SettledStaysQuiet(ws: seq<World>, rs: seq<Reply>)
    requires Undisturbed(ws, rs) && Settled(ws[0].cluster) && ws[0].pc.Idle?
    ensures forall i :: 0 <= i < |ws| ==> ws[i].cluster == ws[0].cluster && !Acts(ws[i].pc)
  {
    var n := 0;
    while n < |rs|
      invariant 0 <= n <= |rs|
      invariant forall i :: 0 <= i <= n ==> Watching(ws[i]) && ws[i].cluster == ws[0].cluster
    {
      WatchingStep(ws[n], rs[n]);
      n := n + 1;
    }
  }

  /** The call succeeds, or is the deletion of a single extension. */
  predicate Successful(w: World, r: Reply) {
    !r.Crash? && (Passes(w, r) || (w.pc.Cleaning? && w.pc.todo != []))
  }

  /** How far an undisturbed pass that took the sync branch has come. */
  predicate OnTrack(w: World) {
    var c, pc := w.cluster, w.pc;
    && c.app.Some? && c.app.value.finalizer && !c.app.value.deleting
    && match pc
       case Syncing(v) => c.app.value == v
       case Cleaning(v, _, _) => c.app.value == v
       case GetService(v, _) => c.app.value == v
       case PutService(v, _, found) => c.app.value == v && found == c.service.Some?
       case GetDeployment(v, _) => c.app.value == v && (v.spec.port > 0 ==> c.service.Some?)
       case PutDeployment(v, _, update) =>
         c.app.value == v && (v.spec.port > 0 ==> c.service.Some?) && update == c.deployment.Some?
       case Report(v, _) => c.app.value == v && (v.spec.port > 0 ==> c.service.Some?) && c.deployment.Some?
       case WriteStatus(v, s, _) =>
         c.app.value == v && Settled(c.(app := Some(v.(status := s))))
       case Idle => Settled(c)
       case _ => false
  }

  lemma OnTrackStep(w: World, r: Reply)
    requires OnTrack(w) && !w.pc.Idle? && Successful(w, r)
    ensures OnTrack(Called(w, r))
  {
  }

  /** The pass from its extension sync to its end: undisturbed, and no call fails but single deletions. */
  ghost predicate SuccessfulSyncPass(ws: seq<World>, rs: seq<Reply>) {
    && Undisturbed(ws, rs)
    && ws[0].pc.Syncing? && ws[0].cluster.app == Some(ws[0].pc.v)
    && ws[0].pc.v.finalizer && !ws[0].pc.v.deleting
    && ws[|rs|].pc.Idle? && (forall i :: 0 <= i < |rs| ==> !ws[i].pc.Idle?)
    && forall i :: 0 <= i < |rs| ==> Successful(ws[i], rs[i])
  }

  lemma {:induction false} SyncPassStaysOnTrack(ws: seq<World>, rs: seq<Reply>)
    requires SuccessfulSyncPass(ws, rs)
    ensures forall i :: 0 <= i < |ws| ==> OnTrack(ws[i])
  {
    var n := 0;
    while n < |rs|
      invariant 0 <= n <= |rs|
      invariant forall i :: 0 <= i <= n ==> OnTrack(ws[i])
    {
      OnTrackStep(ws[n], rs[n]);
      n := n + 1;
    }
  }

  lemma SyncPassSettles(ws: seq<World>, rs: seq<Reply>)
    requires SuccessfulSyncPass(ws, rs)
    ensures Settled(ws[|rs|].cluster)
  {
    SyncPassStaysOnTrack(ws, rs);
    assert OnTrack(ws[|rs|]);
  }

  /**
   * Quiescence: after such a pass, and as long as nobody else changes anything, no later pass writes
   * to the object, its status, the Deployment or the Service, or calls an extension.
   */
  lemma {:induction false} QuietAfterSync(pass: seq<World>, rs: seq<Reply>, ws: seq<World>, qs: seq<Reply>)
    requires SuccessfulSyncPass(pass, rs) && Undisturbed(ws, qs) && ws[0] == pass[|rs|]
    ensures forall i :: 0 <= i < |ws| ==> ws[i].cluster == ws[0].cluster && !Acts(ws[i].pc)
  {
    SyncPassSettles(pass, rs);
    SettledStaysQuiet(ws, qs);
  }

  /**
   * When deleting a single extension fails, the log says that it will be tried again later, but left
   * alone the controller does not: the extension stays recorded, the hash is written all the same, and
   * no later pass calls it until something else changes.
   */
  lemma {:induction false} FailedDeletionIsNotRetried(
      pass: seq<World>, rs: seq<Reply>, i: nat, ws: seq<World>, qs: seq<Reply>)
    requires SuccessfulSyncPass(pass, rs) && Undisturbed(ws, qs) && ws[0] == pass[|rs|]
    requires i < |rs| && pass[i].pc.Cleaning? && pass[i].pc.todo != [] && !Passes(pass[i], rs[i])
    ensures forall l :: 0 <= l < |ws| ==>
      && !ws[l].pc.Cleaning? && !ws[l].pc.DelExtensions?
      && ws[l].cluster.app.Some? && pass[i].pc.todo[0] in ws[l].cluster.app.value.status.extensions
  {
    QuietAfterSync(pass, rs, ws, qs);
    SyncPassStaysOnTrack(pass, rs);
    var name := pass[i].pc.todo[0];
    assert OnTrack(pass[i]) && pass[i + 1] == Called(pass[i], rs[i]);
    assert pass[i + 1].pc.o.kept[|pass[i].pc.o.kept|] == name;
    var n := i + 1;
    while n < |rs|
      invariant i < n <= |rs|
      invariant KeepsListed(pass[n], name)
    {
      assert OnTrack(pass[n]);
      KeepsListedStep(pass[n], rs[n], name);
      n := n + 1;
    }
  }

  predicate KeepsListed(w: World, name: string) {
    && w.cluster.app.Some?
    && (w.pc.Idle? ==> name in w.cluster.app.value.status.extensions)
    && (!w.pc.Idle? ==> OutcomeOf(w.pc).Some? && name in Listed(OutcomeOf(w.pc).value) && w.cluster.app.value == w.pc.v)
    && (w.pc.WriteStatus? ==> w.pc.status.extensions == Listed(w.pc.outcome.value))
  }

  lemma KeepsListedStep(w: World, r: Reply, name: string)
    requires KeepsListed(w, name) && !w.pc.Idle? && Successful(w, r) && OnTrack(w)
    ensures KeepsListed(Called(w, r), name)
  {
  }
}
