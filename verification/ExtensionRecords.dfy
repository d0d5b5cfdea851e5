/**
 * What becomes of recorded extensions when their object is deleted, and when deleting a single one of
 * them has failed.
 */
module ExtensionRecords {
  import opened Collections
  import opened FanOut
  import opened Reconciling
  import opened ReconcilingSafety
  import opened ReconcilingRuns
  import opened Scripts

  // ---------------------------------------------------------------- deletion of the object

  /** A deletion without error called the Delete of the selected extensions and of no others. */
  lemma {:induction false} DeleteReturnedIff(
      registry: map<string, Registered>, selected: set<string>, r: Reply, n: string)
    requires DeleteSucceeds(registry, selected, r) && n in registry
    ensures DeleteReturned(r, n) <==> n in selected
  {
    if n in selected {
      DeleteReachesSelected(registry, selected, r, n);
    }
  }

  /** Step `j` called the Delete of extension `n`, which returned no error. */
  predicate CallsDelete(ws: seq<World>, ms: seq<Move>, j: nat, n: string)
    requires |ws| == |ms| + 1 && j < |ms|
  {
    (ws[j].pc.DelExtensions? || ws[j].pc.Cleaning?) && ms[j].Call? && DeleteReturned(ms[j].reply, n)
  }

  /** So did some step of the pass that step `i` belongs to. */
  predicate DeletedInPass(ws: seq<World>, ms: seq<Move>, i: nat, n: string)
    requires |ws| == |ms| + 1 && i < |ms|
  {
    exists j :: 0 <= j <= i && SamePass(ws, j, i) && CallsDelete(ws, ms, j, n)
  }

  lemma StageStep(w: World, m: Move)
    requires !w.pc.Idle? && !Next(w, m).pc.Idle?
    ensures DeletionStage(w.pc) == 0 <==> DeletionStage(Next(w, m).pc) == 0
    ensures DeletionStage(w.pc) <= DeletionStage(Next(w, m).pc)
    ensures m.Call? && DeletionStage(w.pc) > 0 ==> DeletionStage(w.pc) < DeletionStage(Next(w, m).pc)
  {
  }

  /** In a pass the stages of a deletion only rise, and only a deletion has any. */
  lemma {:induction false} StagesRise(ws: seq<World>, ms: seq<Move>, j: nat, i: nat)
    requires IsRun(ws, ms) && j <= i < |ws| && SamePass(ws, j, i) && !ws[j].pc.Idle?
    ensures DeletionStage(ws[j].pc) == 0 <==> DeletionStage(ws[i].pc) == 0
    ensures DeletionStage(ws[j].pc) <= DeletionStage(ws[i].pc)
    decreases i
  {
    if j < i {
      StagesRise(ws, ms, j, i - 1);
      assert ws[i] == Next(ws[i - 1], ms[i - 1]);
      StageStep(ws[i - 1], ms[i - 1]);
    }
  }

  /** The pass that takes the finalizer off called extensions in one step only. */
  lemma {:induction false} OneDeletion(ws: seq<World>, ms: seq<Move>, x: nat, i: nat, j: nat, n: string)
    requires IsRun(ws, ms) && i < |ms| && ws[i].pc.DropFinalizer?
    requires x < i && SamePass(ws, x, i) && ws[x].pc.DelExtensions? && ms[x].Call?
    requires j <= i && SamePass(ws, j, i) && CallsDelete(ws, ms, j, n)
    ensures j == x
  {
    StagesRise(ws, ms, j, i);
    assert ws[x + 1] == Next(ws[x], ms[x]) && ws[j + 1] == Next(ws[j], ms[j]);
    if j < x {
      StageStep(ws[j], ms[j]);
      StagesRise(ws, ms, j + 1, x);
    } else if x < j {
      StageStep(ws[x], ms[x]);
      StagesRise(ws, ms, x + 1, j);
    }
  }

  /** The recorded extensions that are registered. */
  function Reachable(c: Cluster): set<string>
    requires c.app.Some?
  {
    Range(c.app.value.status.extensions) * c.registry.Keys
  }

  /**
   * When the finalizer goes, the pass had called the Delete of exactly those registered extensions
   * that apply to the spec it fetched. The record is not asked: recorded extensions that were
   * registered have all been deleted if and only if all of them apply.
   */
  lemma {:induction false} FinalizerIgnoresRecord(ws: seq<World>, ms: seq<Move>, i: nat) returns (x: nat)
    requires IsRun(ws, ms) && i < |ms| && Held(ws[i].cluster) && !Held(ws[i + 1].cluster)
    ensures x < i && SamePass(ws, x, i) && ws[x].pc == DelExtensions(ws[i].pc.v) && Success(ws[x], ms[x])
    ensures ws[x].cluster.app.Some?
    ensures ws[x].cluster.app.value.status == ws[i].pc.v.status == ws[i].cluster.app.value.status
    ensures forall n :: n in ws[x].cluster.registry ==>
      (DeletedInPass(ws, ms, i, n) <==> n in Applicable(ws[x].cluster.registry, ws[i].pc.v.spec))
    ensures (forall n :: n in Reachable(ws[x].cluster) ==> DeletedInPass(ws, ms, i, n)) <==>
      Reachable(ws[x].cluster) <= Applicable(ws[x].cluster.registry, ws[i].pc.v.spec)
  {
    InvInEveryRun(ws, ms);
    assert Inv(ws[i]) && ws[i + 1] == Next(ws[i], ms[i]);
    DropIsDrop(ws[i], ms[i]);
    x := StageBefore(ws, ms, i);
    assert Inv(ws[x]);
    DeletedIffApplicable(ws, ms, x, i);
  }

  lemma {:induction false} DeletedIffApplicable(ws: seq<World>, ms: seq<Move>, x: nat, i: nat)
    requires IsRun(ws, ms) && i < |ms| && ws[i].pc.DropFinalizer?
    requires x < i && SamePass(ws, x, i) && ws[x].pc == DelExtensions(ws[i].pc.v) && Success(ws[x], ms[x])
    ensures forall n :: n in ws[x].cluster.registry ==>
      (DeletedInPass(ws, ms, i, n) <==> n in Applicable(ws[x].cluster.registry, ws[i].pc.v.spec))
  {
    var registry := ws[x].cluster.registry;
    var applicable := Applicable(registry, ws[i].pc.v.spec);
    forall n | n in registry ensures DeletedInPass(ws, ms, i, n) <==> n in applicable {
      DeleteReturnedIff(registry, applicable, ms[x].reply, n);
      if n in applicable {
        assert CallsDelete(ws, ms, x, n);
      } else if j :| 0 <= j <= i && SamePass(ws, j, i) && CallsDelete(ws, ms, j, n) {
        OneDeletion(ws, ms, x, i, j, n);
      }
    }
  }

  /** An object without the finalizer keeps its record, and has none that it did not have under it. */
  lemma UnheldStep(w: World, m: Move)
    requires Inv(w) && Next(w, m).cluster.app.Some? && !Held(Next(w, m).cluster)
    requires Next(w, m).cluster.app.value.status.extensions != []
    ensures w.cluster.app.Some?
    ensures w.cluster.app.value.status.extensions == Next(w, m).cluster.app.value.status.extensions
  {
  }

  lemma {:induction false} RecordWasHeld(ws: seq<World>, ms: seq<Move>, i: nat) returns (d: nat)
    requires IsRun(ws, ms) && i < |ws| && ws[i].cluster.app.Some? && !Held(ws[i].cluster)
    requires ws[i].cluster.app.value.status.extensions != []
    ensures d < i && Held(ws[d].cluster) && !Held(ws[d + 1].cluster)
    ensures ws[d].cluster.app.value.status.extensions == ws[i].cluster.app.value.status.extensions
  {
    InvInEveryRun(ws, ms);
    assert i > 0 && Inv(ws[i - 1]) && ws[i] == Next(ws[i - 1], ms[i - 1]);
    UnheldStep(ws[i - 1], ms[i - 1]);
    if Held(ws[i - 1].cluster) {
      d := i - 1;
    } else {
      d := RecordWasHeld(ws, ms, i - 1);
    }
  }

  /**
   * A record that goes with its object held the same names when the finalizer went, in step `d`; the
   * pass of that step had called the Delete of a recorded name that was registered if and only if the
   * extension applied to the spec the pass fetched.
   */
  lemma {:induction false} RecordGoesWithObject(ws: seq<World>, ms: seq<Move>, i: nat, n: string)
      returns (d: nat, x: nat)
    requires IsRun(ws, ms) && i < |ms| && ws[i].cluster.app.Some? && ws[i + 1].cluster.app.None?
    requires n in ws[i].cluster.app.value.status.extensions
    ensures d <= i && Held(ws[d].cluster) && !Held(ws[d + 1].cluster)
    ensures ws[d].cluster.app.value.status.extensions == ws[i].cluster.app.value.status.extensions
    ensures x < d && SamePass(ws, x, d) && ws[x].pc == DelExtensions(ws[d].pc.v) && Success(ws[x], ms[x])
    ensures n in ws[x].cluster.registry ==>
      (DeletedInPass(ws, ms, d, n) <==> n in Applicable(ws[x].cluster.registry, ws[d].pc.v.spec))
  {
    if Held(ws[i].cluster) {
      d := i;
    } else {
      d := RecordWasHeld(ws, ms, i);
    }
    x := FinalizerIgnoresRecord(ws, ms, d);
  }

  // ---------------------------------------------------------------- runs with one extension

  predicate Applies(ext: Registered, spec: AppSpec) {
    ext.always || exists k :: k in ext.rootKeys && k in spec.fields
  }

  /** The sync of a single registered extension. */
  function OneSync(name: string, ext: Registered, spec: AppSpec): Reply {
    if Applies(ext, spec) then Synced([name], [Calls(false)], [0, 0]) else Synced([name], [Skips], [0])
  }

  lemma OneSyncPlays(name: string, ext: Registered, spec: AppSpec)
    ensures
      var r := OneSync(name, ext, spec);
      && IsSchedule(r.plans, r.schedule)
      && Played(r.plans, r.schedule) == Fan([FanOut.Finished], if Applies(ext, spec) then [0] else [], [])
  {
    var r := OneSync(name, ext, spec);
    assert Played(r.plans, []) == Fan([Ready], [], []);
    assert r.schedule[..1] == [0] && [0][..0] == [];
  }

  lemma OneSyncSucceeds(name: string, ext: Registered, spec: AppSpec)
    ensures SyncSucceeds(map[name := ext], spec, OneSync(name, ext, spec))
    ensures RanNames(map[name := ext], spec, OneSync(name, ext, spec)) == if Applies(ext, spec) then [name] else []
  {
    OneSyncPlays(name, ext, spec);
    assert name in Applicable(map[name := ext], spec) <==> Applies(ext, spec);
  }

  /** From the fetch through the extension sync. */
  lemma SyncStart(w: World, name: string, ext: Registered) returns (ms: seq<Move>)
    requires Due(w) && w.cluster.registry == map[name := ext]
    ensures Spares(ms, name) && ms != []
    ensures
      var v := w.cluster.app.value;
      && After(w, [ms[0]]) == w.(pc := Syncing(v)) && GoesWell(After(w, [ms[0]]), ms[1..])
      && After(w, ms) == After(After(w, [ms[0]]), ms[1..])
      && After(w, ms) == w.(
           pc := Cleaning(v, v.status.extensions, Outcome(if Applies(ext, v.spec) then [name] else [], [], {}, {})))
  {
    var spec := w.cluster.app.value.spec;
    var r := OneSync(name, ext, spec);
    Fetching(w);
    OneSyncSucceeds(name, ext, spec);
    SyncPart(After(w, [Call(Ok)]), r);
    AfterBoth(w, [Call(Ok)], [Call(r)]);
    ms := [Call(Ok)] + [Call(r)];
    assert ms[1..] == [Call(r)];
  }

  /** Nobody unregisters `name`, and no reply is that of a Delete of it that returned no error. */
  predicate Spares(ms: seq<Move>, name: string) {
    forall m :: m in ms ==> if m.Call? then !DeleteReturned(m.reply, name) else m.edit != Unregister(name)
  }

  lemma {:induction false} StaysRegistered(ws: seq<World>, ms: seq<Move>, name: string, ext: Registered, i: nat)
    requires IsRun(ws, ms) && Spares(ms, name) && 0 < i < |ws| && ms[0] == Env(Register(name, ext))
    ensures name in ws[i].cluster.registry
  {
    assert ws[i] == Next(ws[i - 1], ms[i - 1]);
    if i > 1 {
      StaysRegistered(ws, ms, name, ext, i - 1);
      assert ms[i - 1] in ms;
    }
  }

  lemma {:induction false} CreatedDue(
      w: World, name: string, ext: Registered, spec: AppSpec, labels: map<string, string>) returns (ms: seq<Move>)
    requires Initial(w) && w.cluster == Cluster(None, None, None, map[], 0)
    ensures Spares(ms, name) && ms != [] && ms[0] == Env(Register(name, ext))
    ensures After(w, ms) == World(
      Cluster(Some(App(spec, labels, true, false, false, NO_STATUS, 1)), None, None, map[name := ext], 1), Idle, {})
  {
    ms := [Env(Register(name, ext))] + [Env(Create(spec, labels, true, false))];
    AfterMore(w, [], ms[0]);
    AfterMore(w, [ms[0]], ms[1]);
    assert [] + [ms[0]] == [ms[0]];
  }

  /** A whole pass for an object without a record, to which the extension applies. */
  lemma {:induction false} RecordingPass(w: World, name: string, ext: Registered) returns (ms: seq<Move>)
    requires Due(w) && w.cluster.registry == map[name := ext] && Applies(ext, w.cluster.app.value.spec)
    requires w.cluster.app.value.status.extensions == []
    ensures Spares(ms, name)
    ensures After(w, ms) ==
      Scripts.Finished(w.(pc := Cleaning(w.cluster.app.value, [], Outcome([name], [], {}, {}))))
  {
    var start := SyncStart(w, name, ext);
    var finish := FinishPart(After(w, start));
    AfterBoth(w, start, finish);
    ms := start + finish;
  }

  /** Registered, created, synced and recorded, and then edited so that the extension no longer applies. */
  lemma {:induction false} SyncedThenEdited(
      w: World, name: string, ext: Registered, first: AppSpec, second: AppSpec, labels: map<string, string>)
      returns (ms: seq<Move>)
    requires Initial(w) && w.cluster == Cluster(None, None, None, map[], 0)
    requires Applies(ext, first) && first != second
    ensures Spares(ms, name) && ms != [] && ms[0] == Env(Register(name, ext))
    ensures
      var e := After(w, ms);
      && Due(e) && Clocked(e.cluster) && e.cluster.registry == map[name := ext]
      && e.cluster.app.value.spec == second && !e.cluster.app.value.others
      && e.cluster.app.value.status == Status(Some(Fingerprint(first, labels)), [name], 0, 0)
      && e.cluster.deployment == Some(Deployment(0, Fingerprint(first, labels)))
  {
    var make := CreatedDue(w, name, ext, first, labels);
    var pass := RecordingPass(After(w, make), name, ext);
    AfterBoth(w, make, pass);
    AfterMore(w, make + pass, Env(Change(second, labels)));
    ms := make + pass + [Env(Change(second, labels))];
  }

  lemma {:induction false} DeletionFront(w: World, name: string) returns (ms: seq<Move>)
    requires w.pc.Idle? && Held(w.cluster) && Clocked(w.cluster)
    ensures Spares(ms, name)
    ensures
      var v := w.cluster.app.value.(deleting := true, version := w.cluster.clock + 1);
      After(w, ms) == World(
        Cluster(Some(v), None, None, w.cluster.registry, w.cluster.clock + 1), DelExtensions(v), w.synced)
  {
    var request := [Env(RequestDelete)];
    AfterMore(w, [], request[0]);
    assert [] + request == request;
    AfterMore(w, request, Call(Ok));
    AfterMore(w, request + [Call(Ok)], Call(Ok));
    AfterMore(w, request + [Call(Ok)] + [Call(Ok)], Call(Ok));
    ms := request + [Call(Ok)] + [Call(Ok)] + [Call(Ok)];
  }

  /** The deletion of an object to whose spec the only registered extension does not apply. */
  lemma {:induction false} DeletionPart(w: World, name: string, ext: Registered) returns (ms: seq<Move>)
    requires w.pc.Idle? && Held(w.cluster) && !w.cluster.app.value.others && Clocked(w.cluster)
    requires w.cluster.registry == map[name := ext] && !Applies(ext, w.cluster.app.value.spec)
    ensures Spares(ms, name) && After(w, ms).cluster.app.None?
    ensures ms != []
    ensures
      var before := After(w, ms[..|ms| - 1]);
      before.cluster.app.Some? && before.cluster.app.value.status == w.cluster.app.value.status
  {
    var skipped := Call(Deleted([name], [Skips], [0]));
    var front := DeletionFront(w, name);
    OneDeletionSucceeds(name, ext, w.cluster.app.value.spec);
    AfterMore(w, front, skipped);
    AfterMore(w, front + [skipped], Call(Ok));
    ms := front + [skipped] + [Call(Ok)];
    assert ms[..|ms| - 1] == front + [skipped];
  }

  lemma OneDeletionSucceeds(name: string, ext: Registered, spec: AppSpec)
    requires !Applies(ext, spec)
    ensures DeleteSucceeds(map[name := ext], Applicable(map[name := ext], spec), Deleted([name], [Skips], [0]))
  {
    DeleteErrorIffSomeFailed([Skips], [0]);
  }

  lemma {:induction false} ForgettingMoves(
      w: World, name: string, ext: Registered, first: AppSpec, second: AppSpec, labels: map<string, string>)
      returns (ms: seq<Move>)
    requires Initial(w) && w.cluster == Cluster(None, None, None, map[], 0)
    requires Applies(ext, first) && !Applies(ext, second)
    ensures Spares(ms, name) && ms != [] && ms[0] == Env(Register(name, ext))
    ensures After(w, ms).cluster.app.None?
    ensures
      var before := After(w, ms[..|ms| - 1]);
      before.cluster.app.Some? && before.cluster.app.value.status.extensions == [name]
  {
    var edit := SyncedThenEdited(w, name, ext, first, second, labels);
    var deletion := DeletionPart(After(w, edit), name, ext);
    ms := edit + deletion;
    AfterBoth(w, edit, deletion);
    AfterBoth(w, edit, deletion[..|deletion| - 1]);
    assert ms[..|ms| - 1] == edit + deletion[..|deletion| - 1];
  }

  /**
   * An extension that no longer applies and an object that is deleted before its next pass: for any
   * such extension and specs there is a run in which the extension is registered throughout, the
   * record with its name goes with the object, and no Delete of it ever returns.
   */
  lemma {:induction false} RecordCanBeForgotten(
      name: string, ext: Registered, first: AppSpec, second: AppSpec, labels: map<string, string>)
      returns (ws: seq<World>, ms: seq<Move>)
    requires Applies(ext, first) && !Applies(ext, second)
    ensures IsRun(ws, ms) && |ms| > 0
    ensures forall i :: 0 < i < |ws| ==> name in ws[i].cluster.registry
    ensures ws[|ms| - 1].cluster.app.Some? && ws[|ms| - 1].cluster.app.value.status.extensions == [name]
    ensures ws[|ms|].cluster.app.None?
    ensures Spares(ms, name)
  {
    var w := World(Cluster(None, None, None, map[], 0), Idle, {});
    ms := ForgettingMoves(w, name, ext, first, second, labels);
    ws := AfterIsRun(w, ms);
    forall i | 0 < i < |ws| ensures name in ws[i].cluster.registry {
      StaysRegistered(ws, ms, name, ext, i);
    }
  }

  // ---------------------------------------------------------------- a single deletion that failed

  /** The recorded name is up for deletion, not having run. */
  function AtName(v: App, name: string): Pc {
    Cleaning(v, [name], Outcome([], [], {}, {}))
  }

  lemma FailingStart(w: World, name: string, ext: Registered) returns (ms: seq<Move>)
    requires Due(w) && w.cluster.registry == map[name := ext] && !Applies(ext, w.cluster.app.value.spec)
    requires w.cluster.app.value.status.extensions == [name]
    ensures GoesWell(w.(pc := Syncing(w.cluster.app.value)), ms)
    ensures
      var start, v := w.(pc := Syncing(w.cluster.app.value)), w.cluster.app.value;
      && After(start, ms) == w.(pc := Cleaning(v, [], Outcome([], [name], {}, {})))
      && |ms| == 2 && ms[1] == Call(Fail) && After(start, ms[..1]) == w.(pc := AtName(v, name))
  {
    var start, spec := w.(pc := Syncing(w.cluster.app.value)), w.cluster.app.value.spec;
    var r := OneSync(name, ext, spec);
    OneSyncSucceeds(name, ext, spec);
    SyncPart(start, r);
    GoesOn(start, [Call(r)], Fail);
    ms := [Call(r)] + [Call(Fail)];
    assert ms[..1] == [Call(r)];
    var none: seq<string> := [];
    assert none + [name] == [name] && [name][1..] == none;
  }

  /** The pass that follows, its single deletion failing. */
  lemma {:induction false} FailingPass(w: World, name: string, ext: Registered) returns (ms: seq<Move>)
    requires Due(w) && w.cluster.registry == map[name := ext] && !Applies(ext, w.cluster.app.value.spec)
    requires w.cluster.app.value.status.extensions == [name]
    ensures GoesWell(w.(pc := Syncing(w.cluster.app.value)), ms)
    ensures
      var start, v := w.(pc := Syncing(w.cluster.app.value)), w.cluster.app.value;
      && After(start, ms) == Scripts.Finished(w.(pc := Cleaning(v, [], Outcome([], [name], {}, {}))))
      && |ms| > 1 && ms[1] == Call(Fail) && After(start, ms[..1]) == w.(pc := AtName(v, name))
  {
    var v := w.cluster.app.value;
    var start := w.(pc := Syncing(v));
    var two := FailingStart(w, name, ext);
    var finish := FinishPart(After(start, two));
    BothGoWell(start, two, finish);
    ms := two + finish;
    assert ms[..1] == two[..1] && ms[1] == two[1];
  }

  /** The next pass after another edit, up to the deletion that returns. */
  lemma {:induction false} RetryingPart(w: World, name: string, ext: Registered) returns (ms: seq<Move>)
    requires Due(w) && w.cluster.registry == map[name := ext] && !Applies(ext, w.cluster.app.value.spec)
    requires w.cluster.app.value.status.extensions == [name]
    ensures |ms| > 0
    ensures
      var n, v := |ms| - 1, w.cluster.app.value;
      && After(w, ms[..n]) == w.(pc := AtName(v, name))
      && ms[n] == Call(Deleted([name], [Calls(false)], [0]))
  {
    var start := SyncStart(w, name, ext);
    ms := start + [Call(Deleted([name], [Calls(false)], [0]))];
    assert ms[..|ms| - 1] == start;
  }

  /**
   * Such a pass: a run that comes to the sync of an object, and the rest of the pass, in which nobody
   * interferes and no call fails but the deletion of the single extension. It leaves the object
   * settled and the name recorded.
   */
  lemma {:induction false} FailedDeletionSettles(
      name: string, ext: Registered, first: AppSpec, second: AppSpec, labels: map<string, string>)
      returns (ws: seq<World>, ms: seq<Move>, pass: seq<World>, rs: seq<Reply>)
    requires Applies(ext, first) && !Applies(ext, second)
    ensures IsRun(ws, ms) && pass != [] && ws[|ms|] == pass[0] && SuccessfulSyncPass(pass, rs)
    ensures |rs| > 1 && rs[1] == Fail && pass[1].pc == AtName(pass[0].pc.v, name)
    ensures name in pass[1].cluster.registry && !Passes(pass[1], rs[1])
    ensures Settled(pass[|rs|].cluster) && pass[|rs|].cluster.app.value.status.extensions == [name]
  {
    var w := World(Cluster(None, None, None, map[], 0), Idle, {});
    var edit := SyncedThenEdited(w, name, ext, first, second, labels);
    var at := After(w, edit);
    ms := edit + [Call(Ok)];
    AfterMore(w, edit, Call(Ok));
    ws := AfterIsRun(w, ms);
    var rest := FailingPass(at, name, ext);
    pass, rs := States(ws[|ms|], rest), Replies(rest);
    GoesThrough(ws[|ms|], rest);
    SyncPassSettles(pass, rs);
  }

  /** And another edit after it. */
  lemma {:induction false} FailedThenEdited(
      w: World, name: string, ext: Registered, third: AppSpec) returns (ms: seq<Move>)
    requires Due(w) && w.cluster.registry == map[name := ext] && !Applies(ext, w.cluster.app.value.spec)
    requires w.cluster.app.value.status.extensions == [name] && w.cluster.app.value.spec != third
    ensures |ms| > 3 && ms[2] == Call(Fail)
    ensures After(w, ms[..2]) == w.(pc := AtName(w.cluster.app.value, name))
    ensures
      var settled, e := After(w, ms[..|ms| - 1]), After(w, ms);
      && settled.pc.Idle? && Settled(settled.cluster) && settled.cluster.app.value.status.extensions == [name]
      && Due(e) && e.cluster.registry == map[name := ext]
      && e.cluster.app.value.spec == third && e.cluster.app.value.status.extensions == [name]
  {
    var edit := Env(Change(third, w.cluster.app.value.labels));
    var rest := FailingPass(w, name, ext);
    Fetching(w);
    AfterBoth(w, [Call(Ok)], rest);
    AfterBoth(w, [Call(Ok)], rest[..1]);
    AfterMore(w, [Call(Ok)] + rest, edit);
    ms := [Call(Ok)] + rest + [edit];
    assert ms[..2] == [Call(Ok)] + rest[..1] && ms[..|ms| - 1] == [Call(Ok)] + rest;
  }

  lemma {:induction false} RetryingMoves(
      w: World, name: string, ext: Registered,
      first: AppSpec, second: AppSpec, third: AppSpec, labels: map<string, string>)
      returns (ms: seq<Move>, f: nat, i: nat, j: nat)
    requires Initial(w) && w.cluster == Cluster(None, None, None, map[], 0)
    requires Applies(ext, first) && !Applies(ext, second) && !Applies(ext, third) && second != third
    ensures f < i < j < |ms| && ms[f] == Call(Fail) && ms[j] == Call(Deleted([name], [Calls(false)], [0]))
    ensures
      var failing, settled, deleting := After(w, ms[..f]), After(w, ms[..i]), After(w, ms[..j]);
      && failing.pc.Cleaning? && failing.pc == AtName(failing.pc.v, name)
      && settled.pc.Idle? && Settled(settled.cluster) && settled.cluster.app.value.status.extensions == [name]
      && deleting.pc.Cleaning? && deleting.pc == AtName(deleting.pc.v, name)
      && deleting.cluster.registry == map[name := ext]
  {
    var a := SyncedThenEdited(w, name, ext, first, second, labels);
    var b := FailedThenEdited(After(w, a), name, ext, third);
    AfterBoth(w, a, b);
    var c := RetryingPart(After(w, a + b), name, ext);
    ms := a + b + c;
    f, i, j := |a| + 2, |a + b| - 1, |ms| - 1;
    assert ms[..f] == a + b[..2] && ms[..i] == a + b[..|b| - 1] && ms[..j] == a + b + c[..|c| - 1];
    AfterBoth(w, a, b[..2]);
    AfterBoth(w, a, b[..|b| - 1]);
    AfterBoth(w, a + b, c[..|c| - 1]);
    assert ms[f] == b[2] && ms[j] == c[|c| - 1];
  }

  /**
   * The next edit makes the controller try again: for any such extension and specs there is a run in
   * which the deletion fails at step `f`, the object is settled with the name recorded at step `i`, and
   * the name is deleted at step `j`.
   */
  lemma {:induction false} FailedDeletionIsRetriedLater(
      name: string, ext: Registered, first: AppSpec, second: AppSpec, third: AppSpec, labels: map<string, string>)
      returns (ws: seq<World>, ms: seq<Move>, f: nat, i: nat, j: nat)
    requires Applies(ext, first) && !Applies(ext, second) && !Applies(ext, third) && second != third
    ensures IsRun(ws, ms) && f < i < j < |ms|
    ensures HadFate(ws, ms, f, name, DeleteFailed) && HadFate(ws, ms, j, name, WasDeleted)
    ensures ws[i].pc.Idle? && Settled(ws[i].cluster) && ws[i].cluster.app.value.status.extensions == [name]
  {
    var w := World(Cluster(None, None, None, map[], 0), Idle, {});
    ms, f, i, j := RetryingMoves(w, name, ext, first, second, third, labels);
    ws := AfterIsRun(w, ms);
  }

  // ---------------------------------------------------------------- when a recorded extension is up again

  /** A whole pass that fetches the object: it begins with the call in step `f` and is over at `e`. */
  predicate IsPass(ws: seq<World>, ms: seq<Move>, f: nat, e: nat)
    requires |ws| == |ms| + 1
  {
    && f + 1 < e < |ws| && ws[f].pc.Idle? && ws[e].pc.Idle?
    && (forall l :: f < l < e ==> !ws[l].pc.Idle?)
    && forall l :: f <= l < e ==> ms[l] != Call(Crash)
  }

  /** The pass fetches an object with the finalizer that is not being deleted. */
  predicate PassOver(ws: seq<World>, ms: seq<Move>, f: nat, e: nat, v: App)
    requires |ws| == |ms| + 1
  {
    IsPass(ws, ms, f, e) && ws[f].cluster.app == Some(v) && v.finalizer && !v.deleting
  }

  lemma {:induction false} PassKeepsObject(ws: seq<World>, ms: seq<Move>, f: nat, e: nat, v: App, l: nat)
    requires IsRun(ws, ms) && PassOver(ws, ms, f, e, v) && f < l < e
    ensures ws[l].pc.v == v
    ensures l == f + 1 ==> ws[l].pc == Fetched(v)
    decreases l
  {
    assert ws[l] == Next(ws[l - 1], ms[l - 1]);
    if ms[l - 1].Call? {
      WritesEndPass(ws[l - 1], ms[l - 1].reply);
    }
    if l > f + 1 {
      PassKeepsObject(ws, ms, f, e, v, l - 1);
    }
  }

  /** In step `j` it is the turn of the recorded name, which did not run, to be deleted. */
  predicate TurnsTo(ws: seq<World>, ms: seq<Move>, j: nat, n: string)
    requires |ws| == |ms| + 1 && j < |ms|
  {
    CleanedAt(ws, ms, j, n) && !NothingToClean(ws[j].pc)
  }

  predicate AwaitsTurn(pc: Pc, n: string) {
    pc.Cleaning? && n in pc.todo && n !in Listed(pc.o)
  }

  lemma AwaitsStep(w: World, m: Move, n: string)
    requires AwaitsTurn(w.pc, n) && m != Call(Crash)
    ensures AwaitsTurn(Next(w, m).pc, n) || (m.Call? && w.pc.todo[0] == n)
  {
  }

  /**
   * A pass comes to delete a recorded name if and only if its extension sync succeeds without having
   * run it; whatever happened to the name before.
   */
  lemma {:induction false} RecordedIsUpIff(ws: seq<World>, ms: seq<Move>, f: nat, e: nat, v: App, n: string)
    requires IsRun(ws, ms) && PassOver(ws, ms, f, e, v) && n in v.status.extensions
    ensures
      (exists j :: f < j < e && TurnsTo(ws, ms, j, n)) <==>
      (exists k, ran :: f < k < e && SyncedAt(ws, ms, k, v, ran) && n !in ran)
  {
    if j :| f < j < e && TurnsTo(ws, ms, j, n) {
      var k := OutcomeWasSynced(ws, ms, j);
      PassKeepsObject(ws, ms, f, e, v, j);
      assert f < k && n !in ws[j].pc.o.ran;
    }
    if k, ran :| f < k < e && SyncedAt(ws, ms, k, v, ran) && n !in ran {
      var j := SyncedComesTo(ws, ms, f, e, v, n, k, ran);
    }
  }

  lemma {:induction false} SyncedComesTo(
      ws: seq<World>, ms: seq<Move>, f: nat, e: nat, v: App, n: string, k: nat, ran: seq<string>) returns (j: nat)
    requires IsRun(ws, ms) && PassOver(ws, ms, f, e, v) && n in v.status.extensions
    requires f < k < e && SyncedAt(ws, ms, k, v, ran) && n !in ran
    ensures f < j < e && TurnsTo(ws, ms, j, n)
  {
    assert ws[k + 1] == Next(ws[k], ms[k]) && ws[k + 1].pc.o.ran == ran;
    j := k + 1;
    while !TurnsTo(ws, ms, j, n)
      invariant k < j < e && AwaitsTurn(ws[j].pc, n)
      decreases e - j
    {
      assert ws[j + 1] == Next(ws[j], ms[j]);
      AwaitsStep(ws[j], ms[j], n);
      j := j + 1;
    }
  }

  /** Step `j` finds the Deployment gone, or the Service that the port asks for. */
  predicate FindsMissing(ws: seq<World>, ms: seq<Move>, j: nat)
    requires |ws| == |ms| + 1 && j < |ms|
  {
    Success(ws[j], ms[j]) &&
    ((ws[j].pc.LookDeployment? && ws[j].cluster.deployment.None?) ||
     (ws[j].pc.LookService? && ws[j].cluster.service.None?))
  }

  /**
   * A pass goes into the extension sync if and only if the recorded hash differs, or it finds no
   * Deployment, or no Service for the port.
   */
  lemma {:induction false} SyncBranchIff(ws: seq<World>, ms: seq<Move>, f: nat, e: nat, v: App)
    requires IsRun(ws, ms) && PassOver(ws, ms, f, e, v)
    ensures
      (exists k :: f < k < e && ws[k].pc.Syncing?) <==>
      v.status.hash != Some(Hash(v)) || (exists j :: f < j < e && FindsMissing(ws, ms, j))
  {
    PassKeepsObject(ws, ms, f, e, v, f + 1);
    if k :| f < k < e && ws[k].pc.Syncing? {
      SyncingWasEntered(ws, ms, f, e, v, k);
    }
    if j :| f < j < e && FindsMissing(ws, ms, j) {
      assert ws[j + 1] == Next(ws[j], ms[j]) && ws[j + 1].pc.Syncing?;
    }
  }

  lemma {:induction false} SyncingWasEntered(ws: seq<World>, ms: seq<Move>, f: nat, e: nat, v: App, k: nat)
    requires IsRun(ws, ms) && PassOver(ws, ms, f, e, v) && f < k < e && ws[k].pc.Syncing?
    ensures v.status.hash != Some(Hash(v)) || (exists j :: f < j < e && FindsMissing(ws, ms, j))
    decreases k
  {
    PassKeepsObject(ws, ms, f, e, v, k);
    assert ws[k] == Next(ws[k - 1], ms[k - 1]);
    if k > f + 1 {
      if ws[k - 1].pc.Syncing? {
        SyncingWasEntered(ws, ms, f, e, v, k - 1);
      } else {
        assert FindsMissing(ws, ms, k - 1);
      }
    }
  }

  /** What the pass would find if it looked now. */
  predicate NeedsSync(c: Cluster) {
    c.app.Some? && (
      || c.app.value.status.hash != Some(Hash(c.app.value))
      || c.deployment.None?
      || (c.app.value.spec.port > 0 && c.service.None?))
  }

  predicate Looking(pc: Pc) {
    pc.LookDeployment? || pc.LookService? || pc.Syncing?
  }

  /** Nobody interferes with the pass, and looking and the extension sync succeed. */
  predicate PassLooksWell(ws: seq<World>, ms: seq<Move>, f: nat, e: nat)
    requires |ws| == |ms| + 1 && e < |ws|
  {
    forall l :: f <= l < e ==> ms[l].Call? && (Looking(ws[l].pc) ==> Success(ws[l], ms[l]))
  }

  lemma LookStep(w: World, r: Reply)
    requires Looking(Called(w, r).pc)
    ensures Called(w, r).cluster == w.cluster
    ensures !w.pc.Idle? ==> Looking(w.pc) && (Called(w, r).pc.LookService? ==> w.pc.v.spec.port > 0)
  {
  }

  lemma {:induction false} LookingChangesNothing(ws: seq<World>, ms: seq<Move>, f: nat, e: nat, v: App, l: nat)
    requires IsRun(ws, ms) && PassOver(ws, ms, f, e, v) && PassLooksWell(ws, ms, f, e)
    requires f < l < e && Looking(ws[l].pc)
    ensures ws[l].cluster == ws[f].cluster && (ws[l].pc.LookService? ==> v.spec.port > 0)
    decreases l
  {
    PassKeepsObject(ws, ms, f, e, v, l);
    assert ws[l] == Called(ws[l - 1], ms[l - 1].reply);
    LookStep(ws[l - 1], ms[l - 1].reply);
    if l > f + 1 {
      PassKeepsObject(ws, ms, f, e, v, l - 1);
      LookingChangesNothing(ws, ms, f, e, v, l - 1);
    }
  }

  /**
   * Seen from the state before it, an undisturbed pass that can look and sync comes to delete a
   * recorded name if and only if hash, Deployment or Service call for a sync and the extension does
   * not apply.
   */
  lemma {:induction false} NextPassDeletesIff(ws: seq<World>, ms: seq<Move>, f: nat, e: nat, v: App, n: string)
    requires IsRun(ws, ms) && PassOver(ws, ms, f, e, v) && n in v.status.extensions && PassLooksWell(ws, ms, f, e)
    ensures
      (exists j :: f < j < e && TurnsTo(ws, ms, j, n)) <==>
      NeedsSync(ws[f].cluster) && n !in Applicable(ws[f].cluster.registry, v.spec)
  {
    RecordedIsUpIff(ws, ms, f, e, v, n);
    SyncBranchIff(ws, ms, f, e, v);
    NeedsSyncIff(ws, ms, f, e, v);
    if k :| f < k < e && ws[k].pc.Syncing? {
      PassKeepsObject(ws, ms, f, e, v, k);
      LookingChangesNothing(ws, ms, f, e, v, k);
      var ran := RanNames(ws[k].cluster.registry, v.spec, ms[k].reply);
      SyncRunsApplicable(ws[k].cluster.registry, v.spec, ms[k].reply);
      assert SyncedAt(ws, ms, k, v, ran);
    }
    if k, ran :| f < k < e && SyncedAt(ws, ms, k, v, ran) && n !in ran {
      LookingChangesNothing(ws, ms, f, e, v, k);
      SyncRunsApplicable(ws[k].cluster.registry, v.spec, ms[k].reply);
    }
  }

  lemma {:induction false} NeedsSyncIff(ws: seq<World>, ms: seq<Move>, f: nat, e: nat, v: App)
    requires IsRun(ws, ms) && PassOver(ws, ms, f, e, v) && PassLooksWell(ws, ms, f, e)
    ensures NeedsSync(ws[f].cluster) <==>
      v.status.hash != Some(Hash(v)) || (exists j :: f < j < e && FindsMissing(ws, ms, j))
  {
    PassKeepsObject(ws, ms, f, e, v, f + 1);
    if j :| f < j < e && FindsMissing(ws, ms, j) {
      LookingChangesNothing(ws, ms, f, e, v, j);
    }
    if NeedsSync(ws[f].cluster) && v.status.hash == Some(Hash(v)) {
      LookingChangesNothing(ws, ms, f, e, v, f + 1);
      if ws[f].cluster.deployment.None? {
        assert FindsMissing(ws, ms, f + 1);
      } else {
        assert ws[f + 2] == Next(ws[f + 1], ms[f + 1]) && ws[f + 2].pc.LookService?;
        LookingChangesNothing(ws, ms, f, e, v, f + 2);
        assert FindsMissing(ws, ms, f + 2);
      }
    }
  }
}
