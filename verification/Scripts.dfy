/** Building runs of the reconciler from scripted moves. */
module Scripts {
  import opened Collections
  import opened Reconciling
  import opened ReconcilingSafety
  import opened ReconcilingRuns

  /** The world after some moves. */
  function After(w: World, ms: seq<Move>): World {
    if ms == [] then w else Next(After(w, ms[..|ms| - 1]), ms[|ms| - 1])
  }

  lemma AfterMore(w: World, ms: seq<Move>, m: Move)
    ensures After(w, ms + [m]) == Next(After(w, ms), m)
  {
    assert (ms + [m])[..|ms|] == ms;
  }

  lemma {:induction false} AfterBoth(w: World, ms: seq<Move>, ns: seq<Move>)
    ensures After(w, ms + ns) == After(After(w, ms), ns)
    decreases |ns|
  {
    if ns == [] {
      assert ms + ns == ms;
    } else {
      assert (ms + ns)[..|ms + ns| - 1] == ms + ns[..|ns| - 1];
      AfterBoth(w, ms, ns[..|ns| - 1]);
    }
  }

  /** The states the moves go through. */
  function States(w: World, ms: seq<Move>): seq<World> {
    seq(|ms| + 1, i requires 0 <= i <= |ms| => After(w, ms[..i]))
  }

  lemma AfterIsRun(w: World, ms: seq<Move>) returns (ws: seq<World>)
    requires Initial(w)
    ensures IsRun(ws, ms) && ws == States(w, ms) && ws[|ms|] == After(w, ms)
  {
    ws := States(w, ms);
    assert ms[..|ms|] == ms;
    forall i | 0 <= i < |ms| ensures ws[i + 1] == Next(ws[i], ms[i]) {
      assert ms[..i + 1][..i] == ms[..i];
    }
  }

  lemma {:induction false} Continue(w: World, rs: seq<Reply>) returns (after: seq<World>)
    ensures Undisturbed(after, rs) && after[0] == w
    decreases |rs|
  {
    if rs == [] {
      after := [w];
    } else {
      var n := |rs| - 1;
      after := Continue(w, rs[..n]);
      forall i | 0 <= i < n ensures after[i + 1] == Called(after[i], rs[i]) {
        assert rs[..n][i] == rs[i];
      }
      after := after + [Called(after[n], rs[n])];
    }
  }

  // ---------------------------------------------------------------- passes that go well

  /** The calls are of one pass, undisturbed, and none fails but deletions of single extensions. */
  predicate GoesWell(w: World, ms: seq<Move>)
    decreases |ms|
  {
    ms != [] ==>
      var front, last := ms[..|ms| - 1], ms[|ms| - 1];
      var now := After(w, front);
      GoesWell(w, front) && last.Call? && !now.pc.Idle? && Successful(now, last.reply)
  }

  lemma GoesOn(w: World, ms: seq<Move>, r: Reply)
    requires GoesWell(w, ms) && !After(w, ms).pc.Idle? && Successful(After(w, ms), r)
    ensures GoesWell(w, ms + [Call(r)]) && After(w, ms + [Call(r)]) == Called(After(w, ms), r)
  {
    assert (ms + [Call(r)])[..|ms|] == ms;
  }

  lemma {:induction false} BothGoWell(w: World, ms: seq<Move>, ns: seq<Move>)
    requires GoesWell(w, ms) && GoesWell(After(w, ms), ns)
    ensures GoesWell(w, ms + ns) && After(w, ms + ns) == After(After(w, ms), ns)
    decreases |ns|
  {
    AfterBoth(w, ms, ns);
    if ns == [] {
      assert ms + ns == ms;
    } else {
      assert (ms + ns)[..|ms + ns| - 1] == ms + ns[..|ns| - 1];
      BothGoWell(w, ms, ns[..|ns| - 1]);
    }
  }

  function Replies(ms: seq<Move>): seq<Reply> {
    seq(|ms|, i requires 0 <= i < |ms| => if ms[i].Call? then ms[i].reply else Crash)
  }

  lemma {:induction false} GoesWellAt(w: World, ms: seq<Move>, i: nat)
    requires GoesWell(w, ms) && i < |ms|
    ensures ms[i].Call? && !After(w, ms[..i]).pc.Idle? && Successful(After(w, ms[..i]), ms[i].reply)
    ensures After(w, ms[..i + 1]) == Called(After(w, ms[..i]), ms[i].reply)
    decreases |ms|
  {
    var n := |ms| - 1;
    if i < n {
      assert ms[..n][..i] == ms[..i] && ms[..n][..i + 1] == ms[..i + 1];
      GoesWellAt(w, ms[..n], i);
    } else {
      assert ms[..i + 1] == ms;
    }
  }

  lemma {:induction false} GoesThrough(w: World, ms: seq<Move>)
    requires GoesWell(w, ms)
    ensures
      var pass, rs := States(w, ms), Replies(ms);
      && Undisturbed(pass, rs) && pass[0] == w && pass[|rs|] == After(w, ms)
      && forall i :: 0 <= i < |rs| ==> !pass[i].pc.Idle? && Successful(pass[i], rs[i])
  {
    forall i | 0 <= i < |ms|
      ensures States(w, ms)[i + 1] == Called(States(w, ms)[i], Replies(ms)[i])
      ensures !States(w, ms)[i].pc.Idle? && Successful(States(w, ms)[i], Replies(ms)[i])
    {
      GoesWellAt(w, ms, i);
    }
    assert ms[..|ms|] == ms;
  }

  /** An object that is to be synced. */
  predicate Due(w: World) {
    && w.pc.Idle? && Held(w.cluster) && !w.cluster.app.value.deleting
    && w.cluster.app.value.status.hash != Some(Hash(w.cluster.app.value))
  }

  lemma Fetching(w: World)
    requires Due(w)
    ensures After(w, [Call(Ok)]) == w.(pc := Syncing(w.cluster.app.value))
  {
    AfterMore(w, [], Call(Ok));
    assert [] + [Call(Ok)] == [Call(Ok)];
  }

  /** The extension sync. */
  lemma SyncPart(w: World, r: Reply)
    requires w.pc.Syncing? && SyncSucceeds(w.cluster.registry, w.pc.v.spec, r)
    ensures GoesWell(w, [Call(r)])
    ensures
      var ran := RanNames(w.cluster.registry, w.pc.v.spec, r);
      After(w, [Call(r)]) == w.(pc := Cleaning(w.pc.v, w.pc.v.status.extensions, Outcome(ran, [], {}, {})))
  {
    GoesOn(w, [], r);
    assert [] + [Call(r)] == [Call(r)];
  }

  /** Applying the changeset and writing the Service. */
  lemma ServicePart(w: World) returns (ms: seq<Move>)
    requires w.pc.Cleaning? && w.pc.todo == []
    ensures GoesWell(w, ms) && forall m :: m in ms ==> m == Call(Ok)
    ensures
      var c := w.cluster;
      After(w, ms) == w.(
        cluster := if w.pc.v.spec.port > 0 then c.(service := Some(Hash(w.pc.v))) else c,
        pc := GetDeployment(w.pc.v, w.pc.o))
  {
    ms := [Call(Ok)];
    GoesOn(w, [], Ok);
    assert [] + ms == ms;
    if w.pc.v.spec.port > 0 {
      GoesOn(w, ms, Ok);
      GoesOn(w, ms + [Call(Ok)], Ok);
      ms := ms + [Call(Ok)] + [Call(Ok)];
    }
  }

  lemma DeploymentPart(w: World) returns (ms: seq<Move>)
    requires w.pc.GetDeployment?
    ensures GoesWell(w, ms) && forall m :: m in ms ==> m == Call(Ok)
    ensures
      var c := w.cluster;
      After(w, ms) == World(
        c.(deployment := Some(Deployment(Available(c), Hash(w.pc.v)))),
        Report(w.pc.v, w.pc.o),
        w.synced + {Hash(w.pc.v)})
  {
    ms := [Call(Ok)] + [Call(Ok)];
    assert [] + [Call(Ok)] == [Call(Ok)];
    GoesOn(w, [], Ok);
    GoesOn(w, [Call(Ok)], Ok);
    assert Called(w, Ok) == w.(pc := PutDeployment(w.pc.v, w.pc.o, w.cluster.deployment.Some?));
  }

  /** The available replicas, none if there is no Deployment. */
  function Available(c: Cluster): int {
    if c.deployment.Some? then c.deployment.value.available else 0
  }

  /** Writing the status. */
  lemma StatusPart(w: World)
    requires w.pc.Report? && w.cluster.app == Some(w.pc.v)
    requires NewStatus(w.cluster, w.pc.v, Listed(w.pc.o), true) != w.pc.v.status
    ensures GoesWell(w, [Call(Ok)] + [Call(Ok)])
    ensures
      var s := NewStatus(w.cluster, w.pc.v, Listed(w.pc.o), true);
      After(w, [Call(Ok)] + [Call(Ok)]) == w.(cluster := Write(w.cluster, w.pc.v.(status := s)), pc := Idle)
  {
    assert [] + [Call(Ok)] == [Call(Ok)];
    GoesOn(w, [], Ok);
    GoesOn(w, [Call(Ok)], Ok);
  }

  /** From the end of the cleanup loop to the end of the pass. */
  lemma {:induction false} FinishPart(w: World) returns (ms: seq<Move>)
    requires w.pc.Cleaning? && w.pc.todo == [] && w.cluster.app == Some(w.pc.v)
    requires w.pc.v.status.hash != Some(Hash(w.pc.v))
    ensures GoesWell(w, ms) && forall m :: m in ms ==> m == Call(Ok)
    ensures After(w, ms) == Finished(w)
  {
    var service := ServicePart(w);
    var deployment := DeploymentPart(After(w, service));
    BothGoWell(w, service, deployment);
    StatusPart(After(w, service + deployment));
    BothGoWell(w, service + deployment, [Call(Ok)] + [Call(Ok)]);
    ms := service + deployment + ([Call(Ok)] + [Call(Ok)]);
  }

  /** The world after a pass that has got through cleanup goes well to its end. */
  function Finished(w: World): World
    requires w.pc.Cleaning?
  {
    var v, c := w.pc.v, w.cluster;
    var available := Available(c);
    var made := c.(
      service := if v.spec.port > 0 then Some(Hash(v)) else c.service,
      deployment := Some(Deployment(available, Hash(v))));
    World(
      Write(made, v.(status := Status(Some(Hash(v)), Listed(w.pc.o), available, available))),
      Idle,
      w.synced + {Hash(v)})
  }
}
