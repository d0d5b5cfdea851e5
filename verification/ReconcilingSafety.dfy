/** What holds in every reachable state of the controller and its cluster. */
module ReconcilingSafety {
  import opened Collections
  import opened Reconciling

  /** The workload exists only while the object exists and carries the controller's finalizer. */
  predicate Safe(c: Cluster) {
    c.deployment.Some? || c.service.Some? ==> Held(c)
  }

  predicate Held(c: Cluster) {
    c.app.Some? && c.app.value.finalizer
  }

  predicate Working(pc: Pc) {
    !pc.Idle? && !pc.AddFinalizer?
  }

  /** A fetched object that is still current is still the same. */
  predicate Fresh(c: Cluster, pc: Pc) {
    Clocked(c) && AsFetched(c, pc)
  }

  predicate Clocked(c: Cluster) {
    c.app.Some? ==> c.app.value.version <= c.clock
  }

  predicate AsFetched(c: Cluster, pc: Pc) {
    !pc.Idle? ==> pc.v.version <= c.clock && (Current(c, pc.v) ==> c.app.value == pc.v)
  }

  predicate Protected(c: Cluster, pc: Pc) {
    && Safe(c)
    && (Working(pc) ==> Held(c))
    && (pc.DelService? ==> c.deployment.None?)
    && (pc.DelExtensions? || pc.DropFinalizer? ==> c.deployment.None? && c.service.None?)
  }

  /** Nobody but the pass itself writes the status while it is on. */
  predicate StatusKept(c: Cluster, pc: Pc) {
    Working(pc) ==> c.app.Some? && c.app.value.status == pc.v.status
  }

  /** Hashes on record, in the object or about to be written, were earned by a finished sync. */
  predicate Earned(w: World) {
    HashEarned(w) && PassEarned(w)
  }

  predicate HashEarned(w: World) {
    w.cluster.app.Some? && w.cluster.app.value.status.hash.Some? ==> w.cluster.app.value.status.hash.value in w.synced
  }

  predicate PassEarned(w: World) {
    var pc := w.pc;
    && (pc.LookDeployment? || pc.LookService? || pc.Refresh? ==>
          pc.v.status.hash == Some(Hash(pc.v)) && Hash(pc.v) in w.synced)
    && (pc.Report? ==> Hash(pc.v) in w.synced)
    && (pc.WriteStatus? ==> pc.status.hash == Some(Hash(pc.v)) && Hash(pc.v) in w.synced)
    && (pc.WriteStatus? && pc.outcome.None? ==> pc.v.status.hash == Some(Hash(pc.v)))
  }

  /** Every recorded extension still has to be looked at, stays listed, was deleted or is unregistered. */
  predicate Accounted(v: App, todo: seq<string>, o: Outcome) {
    && NoDuplicates(Listed(o))
    && Range(o.kept) <= Range(v.status.extensions)
    && Range(todo) <= Range(v.status.extensions)
    && Range(v.status.extensions) <= Range(todo) + Range(Listed(o)) + o.cleared + o.orphaned
  }

  predicate Recorded(c: Cluster, pc: Pc) {
    && (c.app.Some? ==> NoDuplicates(c.app.value.status.extensions))
    && (!pc.Idle? ==> NoDuplicates(pc.v.status.extensions))
    && match pc
       case Cleaning(v, todo, o) => Accounted(v, todo, o)
       case GetService(v, o) => Accounted(v, [], o)
       case PutService(v, o, _) => Accounted(v, [], o)
       case GetDeployment(v, o) => Accounted(v, [], o)
       case PutDeployment(v, o, _) => Accounted(v, [], o)
       case Report(v, o) => Accounted(v, [], o)
       case WriteStatus(v, s, Some(o)) => Accounted(v, [], o) && s.extensions == Listed(o)
       case WriteStatus(v, s, None) => s.extensions == v.status.extensions
       case _ => true
  }

  predicate Inv(w: World) {
    && Fresh(w.cluster, w.pc)
    && Protected(w.cluster, w.pc)
    && StatusKept(w.cluster, w.pc)
    && Earned(w)
    && Recorded(w.cluster, w.pc)
  }

  // ---------------------------------------------------------------- one step

  lemma EditKeepsInv(w: World, e: Edit)
    requires Inv(w)
    ensures Inv(Next(w, Env(e)))
  {
  }

  lemma CallKeepsClocked(w: World, r: Reply)
    requires Clocked(w.cluster)
    ensures Clocked(Called(w, r).cluster)
  {
  }

  predicate SameObject(c: Cluster, d: Cluster) {
    c.app == d.app && c.clock == d.clock
  }

  /** A call that writes the object ends the pass, and a pass stays with the object it fetched. */
  lemma WritesEndPass(w: World, r: Reply)
    ensures Called(w, r).pc.Idle? || SameObject(Called(w, r).cluster, w.cluster)
    ensures w.pc.Idle? || Called(w, r).pc.Idle? || Called(w, r).pc.v == w.pc.v
    ensures w.pc.Idle? && !Called(w, r).pc.Idle? ==>
      w.cluster.app.Some? && Called(w, r).pc == Fetched(w.cluster.app.value)
    ensures Working(w.pc) || w.pc.Idle? || Called(w, r).pc.Idle?
  {
  }

  lemma CallKeepsFresh(w: World, r: Reply)
    requires Fresh(w.cluster, w.pc)
    ensures Fresh(Called(w, r).cluster, Called(w, r).pc)
  {
    CallKeepsClocked(w, r);
    WritesEndPass(w, r);
  }

  lemma CallKeepsStatus(w: World, r: Reply)
    requires StatusKept(w.cluster, w.pc)
    ensures StatusKept(Called(w, r).cluster, Called(w, r).pc)
  {
    WritesEndPass(w, r);
  }

  lemma RefusalKeepsProtected(c: Cluster, pc: Pc)
    requires Protected(c, pc)
    ensures Protected(c, Refused(c, pc))
  {
  }

  lemma AdvanceKeepsProtected(w: World, r: Reply)
    requires Fresh(w.cluster, w.pc) && Protected(w.cluster, w.pc) && Passes(w, r)
    ensures Protected(Advanced(w, r).cluster, Advanced(w, r).pc)
  {
  }

  lemma CallKeepsProtected(w: World, r: Reply)
    requires Fresh(w.cluster, w.pc) && Protected(w.cluster, w.pc)
    ensures Protected(Called(w, r).cluster, Called(w, r).pc)
  {
    RefusalKeepsProtected(w.cluster, w.pc);
    if Passes(w, r) {
      AdvanceKeepsProtected(w, r);
    }
  }

  /** Only a status write changes the recorded hash of an object that stays. */
  lemma HashChangesByStatusWrite(w: World, r: Reply)
    requires Fresh(w.cluster, w.pc)
    ensures
      var c, d := w.cluster, Called(w, r).cluster;
      || d.app.None?
      || (c.app.Some? && d.app.value.status == c.app.value.status)
      || (w.pc.WriteStatus? && Passes(w, r) && c.app.Some? && d.app.value.status == w.pc.status)
  {
  }

  lemma CallKeepsHashEarned(w: World, r: Reply)
    requires Fresh(w.cluster, w.pc) && Earned(w)
    ensures HashEarned(Called(w, r))
  {
    HashChangesByStatusWrite(w, r);
    SyncedGrows(w, r);
  }

  lemma SyncedGrows(w: World, r: Reply)
    ensures w.synced <= Called(w, r).synced
  {
  }

  lemma RefusalKeepsPassEarned(w: World)
    requires Earned(w)
    ensures PassEarned(w.(pc := Refused(w.cluster, w.pc)))
  {
  }

  lemma AdvanceKeepsPassEarned(w: World, r: Reply)
    requires Earned(w) && Passes(w, r)
    ensures PassEarned(Advanced(w, r))
  {
  }

  lemma CallKeepsPassEarned(w: World, r: Reply)
    requires Earned(w)
    ensures PassEarned(Called(w, r))
  {
    RefusalKeepsPassEarned(w);
    if Passes(w, r) {
      AdvanceKeepsPassEarned(w, r);
    }
  }

  lemma CleanedAccounted(registry: map<string, Registered>, v: App, todo: seq<string>, o: Outcome)
    requires todo != [] && Accounted(v, todo, o)
    ensures Accounted(v, todo[1..], Cleaned(registry, v, todo, o).o)
  {
    RangeOfRest(todo);
  }

  lemma KeptAccounted(v: App, todo: seq<string>, o: Outcome)
    requires todo != [] && Accounted(v, todo, o) && todo[0] !in Listed(o)
    ensures Accounted(v, todo[1..], o.(kept := o.kept + [todo[0]]))
  {
    RangeOfRest(todo);
    var o' := o.(kept := o.kept + [todo[0]]);
    assert Listed(o') == Listed(o) + [todo[0]];
    assert Range(o'.kept) == Range(o.kept) + {todo[0]};
    assert Range(Listed(o')) == Range(Listed(o)) + {todo[0]};
  }

  lemma RangeOfRest(todo: seq<string>)
    requires todo != []
    ensures Range(todo) == Range(todo[1..]) + {todo[0]}
  {
    assert todo == [todo[0]] + todo[1..];
  }

  lemma SyncAccounted(registry: map<string, Registered>, v: App, r: Reply)
    requires SyncSucceeds(registry, v.spec, r)
    ensures Accounted(v, v.status.extensions, Outcome(RanNames(registry, v.spec, r), [], {}, {}))
  {
    SyncRunsApplicable(registry, v.spec, r);
    var ran := RanNames(registry, v.spec, r);
    assert ran + [] == ran;
  }

  lemma RefusalKeepsRecorded(c: Cluster, pc: Pc)
    requires Recorded(c, pc) && !NothingToClean(pc)
    ensures Recorded(c, Refused(c, pc))
  {
    if pc.Cleaning? && pc.todo != [] {
      KeptAccounted(pc.v, pc.todo, pc.o);
    }
  }

  lemma AdvanceKeepsRecorded(w: World, r: Reply)
    requires Fresh(w.cluster, w.pc) && Recorded(w.cluster, w.pc) && Passes(w, r)
    ensures Recorded(Advanced(w, r).cluster, Advanced(w, r).pc)
  {
    if w.pc.Cleaning? && w.pc.todo != [] {
      CleanedAccounted(w.cluster.registry, w.pc.v, w.pc.todo, w.pc.o);
    }
    if w.pc.Syncing? {
      SyncAccounted(w.cluster.registry, w.pc.v, r);
    }
  }

  lemma CallKeepsRecorded(w: World, r: Reply)
    requires Fresh(w.cluster, w.pc) && Recorded(w.cluster, w.pc)
    ensures Recorded(Called(w, r).cluster, Called(w, r).pc)
  {
    if Passes(w, r) {
      AdvanceKeepsRecorded(w, r);
    } else {
      RefusalKeepsRecorded(w.cluster, w.pc);
    }
  }

  lemma StepKeepsInv(w: World, m: Move)
    requires Inv(w)
    ensures Inv(Next(w, m))
  {
    match m
    case Env(e) => EditKeepsInv(w, e);
    case Call(r) =>
      CallKeepsFresh(w, r);
      CallKeepsProtected(w, r);
      CallKeepsStatus(w, r);
      CallKeepsHashEarned(w, r);
      CallKeepsPassEarned(w, r);
      CallKeepsRecorded(w, r);
  }

  // ---------------------------------------------------------------- every run

  lemma {:induction false} InvInEveryRun(ws: seq<World>, ms: seq<Move>)
    requires IsRun(ws, ms)
    ensures forall i :: 0 <= i < |ws| ==> Inv(ws[i])
  {
    var n := 0;
    while n < |ms|
      invariant 0 <= n <= |ms|
      invariant forall i :: 0 <= i <= n ==> Inv(ws[i])
    {
      StepKeepsInv(ws[n], ms[n]);
      n := n + 1;
    }
  }
}
