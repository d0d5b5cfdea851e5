/**
 * When an edit is lost: how the recorded hash, the Deployment and the Service of an object follow its
 * passes, and a run in which they part.
 */
module LostEdits {
  import opened Collections
  import opened Reconciling
  import opened ReconcilingSafety
  import opened ReconcilingRuns
  import opened Scripts

  // ---------------------------------------------------------------- lost edits

  /** Step `j` is the last before `i` in which a pass got through CreateOrUpdate. */
  predicate LastCompleted(ws: seq<World>, ms: seq<Move>, j: nat, i: nat)
    requires |ws| == |ms| + 1 && i < |ws|
  {
    j < i && Completes(ws, ms, j) && forall l :: j < l < i ==> !Completes(ws, ms, l)
  }

  /** A Deployment was made by the last completed pass, which saw the present object's life. */
  lemma {:induction false} DeploymentIsLastCompleted(ws: seq<World>, ms: seq<Move>, i: nat) returns (j: nat)
    requires IsRun(ws, ms) && i < |ws| && ws[i].cluster.deployment.Some?
    ensures LastCompleted(ws, ms, j, i) && ws[i].cluster.deployment.value.made == Hash(ws[j].pc.v)
    ensures forall l :: j <= l < i ==> !Creates(ws[l], ms[l])
  {
    assert i > 0 && ws[i] == Next(ws[i - 1], ms[i - 1]);
    InvInEveryRun(ws, ms);
    assert Inv(ws[i - 1]) && Inv(ws[i]);
    DeploymentStep(ws[i - 1], ms[i - 1]);
    if Completes(ws, ms, i - 1) {
      j := i - 1;
    } else {
      j := DeploymentIsLastCompleted(ws, ms, i - 1);
    }
  }

  lemma DeploymentStep(w: World, m: Move)
    requires Inv(w) && Next(w, m).cluster.deployment.Some?
    ensures !Creates(w, m)
    ensures
      if w.pc.PutDeployment? && Success(w, m) then Next(w, m).cluster.deployment.value.made == Hash(w.pc.v)
      else
        && w.cluster.deployment.Some?
        && w.cluster.deployment.value.made == Next(w, m).cluster.deployment.value.made
  {
  }

  /**
   * Step `e` ends its pass with the object's status as the pass wants it: the status write goes
   * through, or there was nothing to write.
   */
  predicate Records(ws: seq<World>, ms: seq<Move>, e: nat)
    requires |ws| == |ms| + 1 && e < |ms|
  {
    (ws[e].pc.Report? || ws[e].pc.WriteStatus?) && EndsWell(ws[e], ms[e])
  }

  /** The move ends the pass without an error. */
  predicate EndsWell(w: World, m: Move) {
    m.Call? && !m.reply.Crash? && Next(w, m).pc.Idle? && !Errs(w, m.reply)
  }

  /** The pass that completed in step `j` recorded that before step `i`. */
  predicate RecordedBy(ws: seq<World>, ms: seq<Move>, j: nat, i: nat)
    requires |ws| == |ms| + 1 && i < |ws|
  {
    exists e :: j < e < i && SamePass(ws, j, e) && Records(ws, ms, e)
  }

  function RecordedHash(w: World): Option<Fingerprint> {
    if w.cluster.app.Some? then w.cluster.app.value.status.hash else None
  }

  /** The steps of a pass after it completed CreateOrUpdate. */
  predicate InSyncTail(pc: Pc) {
    pc.Report? || (pc.WriteStatus? && pc.outcome.Some?)
  }

  lemma {:induction false} TailWasCompleted(ws: seq<World>, ms: seq<Move>, i: nat) returns (k: nat)
    requires IsRun(ws, ms) && i < |ws| && InSyncTail(ws[i].pc)
    ensures k < i && Completes(ws, ms, k) && SamePass(ws, k, i) && ws[k].pc.v == ws[i].pc.v
    ensures forall l :: k < l < i ==> !Completes(ws, ms, l)
  {
    assert i > 0 && ws[i] == Next(ws[i - 1], ms[i - 1]);
    TailStep(ws[i - 1], ms[i - 1]);
    if InSyncTail(ws[i - 1].pc) {
      k := TailWasCompleted(ws, ms, i - 1);
    } else {
      k := i - 1;
    }
  }

  lemma TailStep(w: World, m: Move)
    requires InSyncTail(Next(w, m).pc)
    ensures InSyncTail(w.pc) || (w.pc.PutDeployment? && Success(w, m))
    ensures !w.pc.Idle? && w.pc.v == Next(w, m).pc.v
  {
  }

  lemma {:induction false} StaysInTail(ws: seq<World>, ms: seq<Move>, j: nat, e: nat)
    requires IsRun(ws, ms) && j < e < |ws| && Completes(ws, ms, j) && SamePass(ws, j, e)
    ensures InSyncTail(ws[e].pc) && ws[e].pc.v == ws[j].pc.v
    decreases e
  {
    assert ws[e] == Next(ws[e - 1], ms[e - 1]);
    if e > j + 1 {
      StaysInTail(ws, ms, j, e - 1);
    }
  }

  /** How the recorded hash moves: only at the end of a pass that completed CreateOrUpdate. */
  lemma HashStep(w: World, m: Move)
    requires Inv(w) && w.cluster.app.Some? && Next(w, m).cluster.app.Some?
    ensures
      if InSyncTail(w.pc) && EndsWell(w, m) then RecordedHash(Next(w, m)) == Some(Hash(w.pc.v))
      else RecordedHash(Next(w, m)) == RecordedHash(w)
  {
    if m.Call? {
      HashChangesByStatusWrite(w, m.reply);
      if InSyncTail(w.pc) && EndsWell(w, m) {
        TailEnd(w, m.reply);
      }
    }
  }

  lemma TailEnd(w: World, r: Reply)
    requires Inv(w) && InSyncTail(w.pc) && EndsWell(w, Call(r))
    ensures RecordedHash(Called(w, r)) == Some(Hash(w.pc.v))
  {
  }

  lemma {:induction false} HashStepInRun(ws: seq<World>, ms: seq<Move>, i: nat)
    requires IsRun(ws, ms) && i < |ms| && ws[i].cluster.app.Some? && ws[i + 1].cluster.app.Some?
    ensures RecordedHash(ws[i + 1]) ==
      if InSyncTail(ws[i].pc) && EndsWell(ws[i], ms[i]) then Some(Hash(ws[i].pc.v)) else RecordedHash(ws[i])
  {
    InvInEveryRun(ws, ms);
    assert Inv(ws[i]) && ws[i + 1] == Next(ws[i], ms[i]);
    HashStep(ws[i], ms[i]);
  }

  /** At the completion the recorded hash is the one the pass fetched. */
  lemma {:induction false} HashAtCompletion(ws: seq<World>, ms: seq<Move>, j: nat)
    requires IsRun(ws, ms) && j < |ms| && Completes(ws, ms, j)
    ensures ws[j + 1].cluster.app.Some? && RecordedHash(ws[j + 1]) == ws[j].pc.v.status.hash
  {
    InvInEveryRun(ws, ms);
    assert Inv(ws[j]) && ws[j + 1] == Next(ws[j], ms[j]);
  }

  /** Step `i` ends the pass that completed in step `j`, and records it. */
  predicate RecordsFor(ws: seq<World>, ms: seq<Move>, j: nat, i: nat)
    requires |ws| == |ms| + 1 && i < |ms|
  {
    SamePass(ws, j, i) && Records(ws, ms, i)
  }

  /** After the last completion, a pass ends well in its tail exactly if it is the completed one. */
  lemma {:induction false} TailOfLast(ws: seq<World>, ms: seq<Move>, j: nat, i: nat)
    requires IsRun(ws, ms) && i < |ms| && LastCompleted(ws, ms, j, i)
    ensures InSyncTail(ws[i].pc) && EndsWell(ws[i], ms[i]) <==> RecordsFor(ws, ms, j, i)
    ensures InSyncTail(ws[i].pc) ==> ws[i].pc.v == ws[j].pc.v
  {
    if InSyncTail(ws[i].pc) {
      var k := TailWasCompleted(ws, ms, i);
      assert k == j;
    }
    if SamePass(ws, j, i) {
      StaysInTail(ws, ms, j, i);
    }
  }

  lemma {:induction false} RecordedByStep(ws: seq<World>, ms: seq<Move>, j: nat, i: nat)
    requires IsRun(ws, ms) && j < i < |ms|
    ensures RecordedBy(ws, ms, j, i + 1) <==> RecordedBy(ws, ms, j, i) || RecordsFor(ws, ms, j, i)
  {
  }

  lemma {:induction false} RecordedHashStep(ws: seq<World>, ms: seq<Move>, j: nat, i: nat)
    requires IsRun(ws, ms) && i < |ms| && LastCompleted(ws, ms, j, i)
    requires ws[i].cluster.app.Some? && ws[i + 1].cluster.app.Some?
    ensures RecordedBy(ws, ms, j, i + 1) <==> RecordedBy(ws, ms, j, i) || RecordsFor(ws, ms, j, i)
    ensures RecordedHash(ws[i + 1]) == if RecordsFor(ws, ms, j, i) then Some(Hash(ws[j].pc.v)) else RecordedHash(ws[i])
  {
    RecordedByStep(ws, ms, j, i);
    HashStepInRun(ws, ms, i);
    TailOfLast(ws, ms, j, i);
  }

  /** What the recorded hash is between the completion of a pass and the next completion. */
  lemma {:induction false} RecordedHashSince(ws: seq<World>, ms: seq<Move>, j: nat, i: nat)
    requires IsRun(ws, ms) && i < |ws| && LastCompleted(ws, ms, j, i)
    requires forall l :: j <= l <= i ==> ws[l].cluster.app.Some?
    ensures RecordedHash(ws[i]) == if RecordedBy(ws, ms, j, i) then Some(Hash(ws[j].pc.v)) else ws[j].pc.v.status.hash
    decreases i
  {
    if i == j + 1 {
      HashAtCompletion(ws, ms, j);
    } else {
      assert LastCompleted(ws, ms, j, i - 1);
      RecordedHashSince(ws, ms, j, i - 1);
      RecordedHashStep(ws, ms, j, i - 1);
    }
  }

  /**
   * With a Deployment in place, the recorded hash is that of what it was made from exactly when the
   * last completed CreateOrUpdate was followed by its status write, or found its hash recorded.
   */
  lemma {:induction false} RecordedHashIsMadeIff(ws: seq<World>, ms: seq<Move>, i: nat) returns (j: nat)
    requires IsRun(ws, ms) && i < |ws| && ws[i].cluster.deployment.Some?
    ensures LastCompleted(ws, ms, j, i)
    ensures RecordedHash(ws[i]) == Some(ws[i].cluster.deployment.value.made) <==>
      RecordedBy(ws, ms, j, i) || ws[j].pc.v.status.hash == Some(Hash(ws[j].pc.v))
  {
    j := DeploymentIsLastCompleted(ws, ms, i);
    WorkloadNeedsFinalizer(ws, ms);
    AppSince(ws, ms, j, i);
    RecordedHashSince(ws, ms, j, i);
  }

  /**
   * An edit counts as synced though the workload was made from another one, or not: with a matching
   * recorded hash the Deployment is made from the present spec and labels exactly when the last
   * completed CreateOrUpdate was followed by its status write, or found its hash recorded.
   */
  lemma {:induction false} MatchingHashIsMadeIff(ws: seq<World>, ms: seq<Move>, i: nat) returns (j: nat)
    requires IsRun(ws, ms) && i < |ws| && ws[i].cluster.app.Some? && ws[i].cluster.deployment.Some?
    requires ws[i].cluster.app.value.status.hash == Some(Hash(ws[i].cluster.app.value))
    ensures LastCompleted(ws, ms, j, i)
    ensures ws[i].cluster.deployment.value.made == Hash(ws[i].cluster.app.value) <==>
      RecordedBy(ws, ms, j, i) || ws[j].pc.v.status.hash == Some(Hash(ws[j].pc.v))
  {
    j := RecordedHashIsMadeIff(ws, ms, i);
  }

  /** The object is there as long as its Deployment is. */
  lemma {:induction false} AppSince(ws: seq<World>, ms: seq<Move>, j: nat, i: nat)
    requires IsRun(ws, ms) && j < i < |ws| && Completes(ws, ms, j) && ws[i].cluster.app.Some?
    requires forall l :: j <= l < i ==> !Creates(ws[l], ms[l])
    ensures forall l :: j <= l <= i ==> ws[l].cluster.app.Some?
  {
    var n: int := i;
    while n > j
      invariant j <= n <= i
      invariant forall l :: n <= l <= i ==> ws[l].cluster.app.Some?
    {
      n := n - 1;
      assert ws[n + 1] == Next(ws[n], ms[n]);
      AppStep(ws[n], ms[n]);
    }
  }

  lemma AppStep(w: World, m: Move)
    requires Next(w, m).cluster.app.Some? && !Creates(w, m)
    ensures w.cluster.app.Some?
  {
  }

  /** A sufficient condition to check: every completed CreateOrUpdate was followed by its status write. */
  lemma {:induction false} RecordedPassesLoseNoEdit(ws: seq<World>, ms: seq<Move>, i: nat)
    requires IsRun(ws, ms) && i < |ws| && ws[i].cluster.app.Some? && ws[i].cluster.deployment.Some?
    requires forall j :: 0 <= j < i && Completes(ws, ms, j) ==> RecordedBy(ws, ms, j, i)
    ensures ws[i].cluster.app.value.status.hash == Some(ws[i].cluster.deployment.value.made)
    ensures ws[i].cluster.app.value.status.hash == Some(Hash(ws[i].cluster.app.value)) <==>
      ws[i].cluster.deployment.value.made == Hash(ws[i].cluster.app.value)
  {
    var j := RecordedHashIsMadeIff(ws, ms, i);
  }

  // ---------------------------------------------------------------- a run that loses an edit

  lemma BareSync(spec: AppSpec)
    ensures SyncSucceeds(map[], spec, Synced([], [], [])) && RanNames(map[], spec, Synced([], [], [])) == []
  {
  }

  /** An object the controller is to sync, with no extension registered or recorded. */
  predicate DueBare(w: World) {
    Due(w) && w.cluster.app.value.status.extensions == [] && w.cluster.registry == map[]
  }

  /** From the fetch through extension sync and cleanup. */
  lemma BareStart(w: World) returns (ms: seq<Move>)
    requires DueBare(w)
    ensures After(w, ms) == w.(pc := Cleaning(w.cluster.app.value, [], Outcome([], [], {}, {})))
  {
    var app := w.cluster.app.value;
    Fetching(w);
    BareSync(app.spec);
    SyncPart(After(w, [Call(Ok)]), Synced([], [], []));
    AfterBoth(w, [Call(Ok)], [Call(Synced([], [], []))]);
    ms := [Call(Ok)] + [Call(Synced([], [], []))];
  }

  /** A pass up to where it looks at the status. */
  lemma {:induction false} BarePass(w: World) returns (ms: seq<Move>)
    requires DueBare(w)
    ensures
      var c, v := w.cluster, w.cluster.app.value;
      After(w, ms) == World(
        c.(service := if v.spec.port > 0 then Some(Hash(v)) else c.service,
           deployment := Some(Deployment(Available(c), Hash(v)))),
        Report(v, Outcome([], [], {}, {})), w.synced + {Hash(v)})
  {
    var start := BareStart(w);
    var service := ServicePart(After(w, start));
    AfterBoth(w, start, service);
    var deployment := DeploymentPart(After(w, start + service));
    AfterBoth(w, start + service, deployment);
    ms := start + service + deployment;
  }

  /** A whole pass. */
  lemma {:induction false} BareWholePass(w: World) returns (ms: seq<Move>)
    requires DueBare(w)
    ensures After(w, ms) == Finished(w.(pc := Cleaning(w.cluster.app.value, [], Outcome([], [], {}, {}))))
  {
    var start := BareStart(w);
    var rest := FinishPart(After(w, start));
    AfterBoth(w, start, rest);
    ms := start + rest;
  }

  /** Synced and recorded, then edited: what the second pass is to sync. */
  lemma {:induction false} FirstEdit(w: World, first: AppSpec, second: AppSpec, labels: map<string, string>)
      returns (ms: seq<Move>)
    requires Initial(w) && w.cluster == Cluster(None, None, None, map[], 0) && first != second
    ensures
      var e := After(w, ms);
      && DueBare(e) && Clocked(e.cluster) && e.cluster.deployment == Some(Deployment(0, Fingerprint(first, labels)))
      && e.cluster.app.value.spec == second && e.cluster.app.value.labels == labels
      && e.cluster.app.value.status == Status(Some(Fingerprint(first, labels)), [], 0, 0)
      && e.cluster.service == if first.port > 0 then Some(Fingerprint(first, labels)) else None
  {
    var create := [Env(Create(first, labels, true, false))];
    AfterMore(w, [], create[0]);
    assert [] + create == create;
    var pass := BareWholePass(After(w, create));
    AfterBoth(w, create, pass);
    AfterMore(w, create + pass, Env(Change(second, labels)));
    ms := create + pass + [Env(Change(second, labels))];
  }

  /** Going back while the second pass is about to look at the status. */
  lemma {:induction false} GoingBack(w: World, first: AppSpec, labels: map<string, string>) returns (ms: seq<Move>)
    requires w.pc.Report? && w.cluster.app == Some(w.pc.v) && w.pc.v.version <= w.cluster.clock
    requires w.cluster.deployment == Some(Deployment(0, Hash(w.pc.v)))
    requires w.pc.v.finalizer && !w.pc.v.deleting && Listed(w.pc.o) == []
    requires w.pc.v.status == Status(Some(Fingerprint(first, labels)), [], 0, 0)
    requires w.pc.v.spec != first && w.pc.v.labels == labels && (first.port > 0 ==> w.cluster.service.Some?)
    ensures
      var e := After(w, ms);
      && e.pc.Idle? && Settled(e.cluster) && e.cluster.deployment == w.cluster.deployment
      && e.cluster.app.value.spec == first && e.cluster.app.value.labels == labels
  {
    var back := Env(Change(first, labels));
    var edited := Next(w, back);
    AfterMore(w, [], back);
    assert [] + [back] == [back];
    AfterMore(w, [back], Call(Ok));
    AfterMore(w, [back] + [Call(Ok)], Call(Ok));
    RefusedStatus(edited);
    ms := [back] + [Call(Ok)] + [Call(Ok)];
  }

  /** A status that differs is written, and refused for an object that has changed. */
  lemma RefusedStatus(w: World)
    requires w.pc.Report? && !Current(w.cluster, w.pc.v) && w.pc.v.status.hash != Some(Hash(w.pc.v))
    ensures Called(Called(w, Ok), Ok) == w.(pc := Idle)
  {
    assert Called(w, Ok).pc.WriteStatus?;
  }

  /**
   * For any two specs there is a run in which going back to the first is lost: it is synced and
   * recorded; the second is synced, and the user goes back before its status is written, which is
   * then refused. The recorded hash matches, nothing is left to do, and the Deployment is the
   * second one's.
   */
  lemma {:induction false} EditCanBeLost(first: AppSpec, second: AppSpec, labels: map<string, string>)
      returns (ws: seq<World>, ms: seq<Move>)
    requires first != second
    ensures IsRun(ws, ms) && ws[|ms|].pc.Idle? && Settled(ws[|ms|].cluster)
    ensures ws[|ms|].cluster.app.value.spec == first && ws[|ms|].cluster.app.value.labels == labels
    ensures ws[|ms|].cluster.deployment == Some(Deployment(0, Fingerprint(second, labels)))
  {
    var w := World(Cluster(None, None, None, map[], 0), Idle, {});
    var edit := FirstEdit(w, first, second, labels);
    var pass := BarePass(After(w, edit));
    AfterBoth(w, edit, pass);
    var back := GoingBack(After(w, edit + pass), first, labels);
    AfterBoth(w, edit + pass, back);
    ms := edit + pass + back;
    ws := AfterIsRun(w, ms);
  }

  /** And once lost, nothing brings it back as long as nobody else changes anything. */
  lemma {:induction false} LostEditStaysLost(
      first: AppSpec, second: AppSpec, labels: map<string, string>, rs: seq<Reply>)
      returns (ws: seq<World>, ms: seq<Move>, after: seq<World>)
    requires first != second
    ensures IsRun(ws, ms) && Undisturbed(after, rs) && after[0] == ws[|ms|]
    ensures forall i :: 0 <= i < |after| ==>
      && after[i].cluster.app.Some? && after[i].cluster.app.value.spec == first
      && after[i].cluster.deployment == Some(Deployment(0, Fingerprint(second, labels))) && !Acts(after[i].pc)
  {
    ws, ms := EditCanBeLost(first, second, labels);
    after := Continue(ws[|ms|], rs);
    SettledStaysQuiet(after, rs);
  }

  // ---------------------------------------------------------------- the Service

  /** A Service is what the last successful write of it made, which need not have been of the present spec. */
  lemma {:induction false} ServiceIsLastWritten(ws: seq<World>, ms: seq<Move>, i: nat) returns (j: nat)
    requires IsRun(ws, ms) && i < |ws| && ws[i].cluster.service.Some?
    ensures j < i && ws[j].pc.PutService? && Success(ws[j], ms[j])
    ensures ws[i].cluster.service == Some(Hash(ws[j].pc.v))
    ensures forall l :: j < l < i ==> !(ws[l].pc.PutService? && Success(ws[l], ms[l]))
  {
    assert i > 0 && ws[i] == Next(ws[i - 1], ms[i - 1]);
    if ws[i - 1].pc.PutService? && Success(ws[i - 1], ms[i - 1]) {
      j := i - 1;
    } else {
      j := ServiceIsLastWritten(ws, ms, i - 1);
    }
  }

  /** An object without a port, not being deleted, at rest or in a pass that knows this. */
  predicate Portless(w: World) {
    && w.cluster.app.Some? && !w.cluster.app.value.deleting && w.cluster.app.value.spec.port <= 0
    && (w.pc.Idle? || (w.pc.v.spec.port <= 0 && !w.pc.v.deleting && LeavesService(w.pc)))
  }

  predicate LeavesService(pc: Pc) {
    DeletionStage(pc) == 0 && !pc.GetService? && !pc.PutService?
  }

  lemma PortlessStep(w: World, r: Reply)
    requires Portless(w)
    ensures Portless(Called(w, r)) && Called(w, r).cluster.service == w.cluster.service
  {
    PortlessRefusal(w.cluster, w.pc);
    if Passes(w, r) {
      PortlessAdvance(w, r);
    }
  }

  lemma PortlessRefusal(c: Cluster, pc: Pc)
    ensures Refused(c, pc).Idle? || (!pc.Idle? && Refused(c, pc).v == pc.v && LeavesService(Refused(c, pc)))
  {
  }

  lemma PortlessAdvance(w: World, r: Reply)
    requires Portless(w) && Passes(w, r)
    ensures Portless(Advanced(w, r)) && Advanced(w, r).cluster.service == w.cluster.service
  {
  }

  /** A Service made before the port went away stays: no pass on an object without a port removes it. */
  lemma {:induction false} ServiceOutlivesPort(ws: seq<World>, rs: seq<Reply>)
    requires Undisturbed(ws, rs) && Portless(ws[0])
    ensures forall i :: 0 <= i < |ws| ==> ws[i].cluster.service == ws[0].cluster.service
  {
    var n := 0;
    while n < |rs|
      invariant 0 <= n <= |rs|
      invariant Portless(ws[n])
      invariant forall i :: 0 <= i <= n ==> ws[i].cluster.service == ws[0].cluster.service
    {
      PortlessStep(ws[n], rs[n]);
      n := n + 1;
    }
  }

  /** A Service made for a port that went away, on an object that is settled without one. */
  lemma {:induction false} StaleServiceStays(first: AppSpec, second: AppSpec, labels: map<string, string>)
      returns (ws: seq<World>, ms: seq<Move>)
    requires first.port > 0 && second.port <= 0
    ensures IsRun(ws, ms) && ws[|ms|].pc.Idle? && Settled(ws[|ms|].cluster)
    ensures ws[|ms|].cluster.app.value.spec == second && ws[|ms|].cluster.service == Some(Fingerprint(first, labels))
  {
    var w := World(Cluster(None, None, None, map[], 0), Idle, {});
    var edit := FirstEdit(w, first, second, labels);
    var pass := BareWholePass(After(w, edit));
    AfterBoth(w, edit, pass);
    ms := edit + pass;
    ws := AfterIsRun(w, ms);
  }

  /** A pass on an object without a port ends with a Service exactly if it began with one, the same. */
  lemma {:induction false} PortlessPassKeepsService(pass: seq<World>, rs: seq<Reply>)
    requires SuccessfulSyncPass(pass, rs) && pass[0].pc.v.spec.port <= 0
    ensures pass[|rs|].cluster.service.Some? <==> pass[0].cluster.service.Some?
    ensures pass[|rs|].cluster.service == pass[0].cluster.service
  {
    ServiceOutlivesPort(pass, rs);
  }

  /** Only the deletion of its object, or somebody else, takes a Service away. */
  lemma {:induction false} ServiceGoesWithObject(ws: seq<World>, ms: seq<Move>, i: nat)
    requires IsRun(ws, ms) && i < |ms| && ws[i].cluster.service.Some? && ws[i + 1].cluster.service.None?
    ensures ms[i] == Env(LoseService) || (ws[i].pc.DelService? && ws[i].pc.v.deleting && Success(ws[i], ms[i]))
  {
    assert ws[i + 1] == Next(ws[i], ms[i]);
    DeletersAreDeleting(ws, ms, i);
  }

  /** A pass deletes only what it fetched as being deleted. */
  lemma {:induction false} DeletersAreDeleting(ws: seq<World>, ms: seq<Move>, i: nat)
    requires IsRun(ws, ms) && i < |ws|
    ensures DeletionStage(ws[i].pc) > 0 ==> ws[i].pc.v.deleting
  {
    if i > 0 {
      DeletersAreDeleting(ws, ms, i - 1);
      assert ws[i] == Next(ws[i - 1], ms[i - 1]);
    }
  }
}
