/**
 * How a pass of the controller ends: which replies make it return an error, and what it has brought
 * about when it returns none.
 */
module PassEndings {
  import opened Collections
  import opened FanOut
  import opened Reconciling
  import opened ReconcilingSafety
  import opened ReconcilingRuns

  // ---------------------------------------------------------------- errors

  /** The API server refuses a write of the object: it is gone, or no longer at the version fetched. */
  predicate Outdated(c: Cluster, v: App) {
    c.app.None? || c.app.value.version != v.version
  }

  /** The reply is no run of the fan-out over the registered extensions, or some extension failed in it. */
  predicate SomeFailed(registry: map<string, Registered>, selected: set<string>, r: Reply) {
    match r
    case Synced(names, plans, schedule) =>
      !FansOut(registry, selected, names, plans) || !Finishes(plans, schedule) || AnyFails(plans)
    case Deleted(names, plans, order) =>
      !FansOut(registry, selected, names, plans) || !Enumerates(order, DeleteOutcomes(plans).Keys) || AnyFails(plans)
    case _ => true
  }

  predicate AnyFails(plans: seq<Plan>) {
    exists i :: 0 <= i < |plans| && (plans[i] == BadRequest || plans[i] == Calls(true))
  }

  /**
   * What makes the call a pass has come to return an error to the queue. A fetched object that is not
   * there is none, nor is a failed deletion of a single extension, a Deployment that cannot be read
   * for the status, or a finalizer to be removed from an object that is gone.
   */
  predicate StopsShort(w: World, r: Reply) {
    var c := w.cluster;
    match w.pc
    case AddFinalizer(v) => r.Fail? || Outdated(c, v)
    case DropFinalizer(v) => r.Fail? || (c.app.Some? && Outdated(c, v))
    case WriteStatus(v, _, _) => r.Fail? || Outdated(c, v)
    case DelExtensions(v) => !r.Deleted? || SomeFailed(c.registry, Applicable(c.registry, v.spec), r)
    case Syncing(v) => !r.Synced? || SomeFailed(c.registry, Applicable(c.registry, v.spec), r)
    case PutService(_, _, found) => r.Fail? || (found && c.service.None?)
    case PutDeployment(_, _, update) => r.Fail? || (update && c.deployment.None?) || (!update && c.deployment.Some?)
    case Refresh(_) => false
    case Report(_, _) => false
    case Cleaning(_, todo, _) => todo == [] && r.Fail?
    case _ => r.Fail?
  }

  lemma FailsPlanned(plans: seq<Plan>)
    ensures AnyFails(plans) <==> exists i :: 0 <= i < |plans| && Fails(plans[i])
  {
  }

  lemma {:induction false} SyncFailsIff(registry: map<string, Registered>, spec: AppSpec, r: Reply)
    ensures !SyncSucceeds(registry, spec, r) <==> !r.Synced? || SomeFailed(registry, Applicable(registry, spec), r)
  {
    if r.Synced? && Finishes(r.plans, r.schedule) {
      SyncErrorIffSomeFailed(r.plans, r.schedule);
      FailsPlanned(r.plans);
    }
  }

  lemma {:induction false} DeleteFailsIff(registry: map<string, Registered>, selected: set<string>, r: Reply)
    ensures !DeleteSucceeds(registry, selected, r) <==> !r.Deleted? || SomeFailed(registry, selected, r)
  {
    if r.Deleted? && Enumerates(r.order, DeleteOutcomes(r.plans).Keys) {
      DeleteErrorIffSomeFailed(r.plans, r.order);
      FailsPlanned(r.plans);
    }
  }

  /** The pass returns an error exactly when its call failed or its write was refused. */
  lemma {:induction false} ErrorIffStopsShort(w: World, r: Reply)
    requires !r.Crash?
    ensures Errs(w, r) <==> StopsShort(w, r)
  {
    if w.pc.Syncing? {
      SyncFailsIff(w.cluster.registry, w.pc.v.spec, r);
    }
    if w.pc.DelExtensions? {
      DeleteFailsIff(w.cluster.registry, Applicable(w.cluster.registry, w.pc.v.spec), r);
    }
  }

  // ---------------------------------------------------------------- what a pass achieves

  /** The moves from `f` on are one pass: it begins with the fetch in step `f` and is over at the end. */
  predicate WholePass(ws: seq<World>, ms: seq<Move>, f: nat)
    requires |ws| == |ms| + 1
  {
    && f < |ms| && ms[f].Call? && ws[f].pc.Idle? && ws[|ms|].pc.Idle?
    && (forall l :: f < l < |ms| ==> !ws[l].pc.Idle?)
    && ms[|ms| - 1].Call?
    && forall l :: f <= l < |ms| ==> ms[l] != Call(Crash)
  }

  /** What is so when a pass that fetched `v` has returned no error. */
  predicate Achieved(v: App, c: Cluster, d: Cluster) {
    if v.deleting then
      if v.finalizer then
        // Our part of the deletion is done; the object stays for somebody else's finalizer only.
        && d.deployment.None? && d.service.None?
        && (d.app.Some? ==> !d.app.value.finalizer)
        && (c.app.Some? ==> d.app == if v.others then Some(v.(finalizer := false, version := d.clock)) else None)
      else d == c
    else
      // It is under our finalizer, and then its status says what was seen.
      && d.app.Some? && d.app.value.finalizer
      && if v.finalizer then d.app.value.status.hash == Some(Hash(v))
         else d.app.value == v.(finalizer := true, version := d.clock)
  }

  predicate Follows(pc: Pc, v: App) {
    && (pc.Idle? || pc.v == v)
    && match pc
       case Idle => true
       case AddFinalizer(_) => !v.deleting && !v.finalizer
       case _ => v.finalizer && (DeletionStage(pc) > 0 <==> v.deleting)
  }

  lemma FollowsStep(w: World, m: Move, v: App)
    requires !w.pc.Idle? && Follows(w.pc, v)
    ensures Follows(Next(w, m).pc, v)
  {
  }

  lemma {:induction false} PassFollows(ws: seq<World>, ms: seq<Move>, f: nat, l: nat, v: App)
    requires IsRun(ws, ms) && WholePass(ws, ms, f) && f < l < |ms| && ws[f].cluster.app == Some(v)
    ensures Follows(ws[l].pc, v)
    decreases l
  {
    assert ws[l] == Next(ws[l - 1], ms[l - 1]);
    if l > f + 1 {
      PassFollows(ws, ms, f, l - 1, v);
      FollowsStep(ws[l - 1], ms[l - 1], v);
    }
  }

  /** The call that ends a pass on `v` without an error brings about what the pass is for. */
  lemma {:induction false} EndAchieves(w: World, r: Reply, v: App)
    requires Inv(w) && !w.pc.Idle? && Follows(w.pc, v) && !r.Crash? && Called(w, r).pc.Idle? && !StopsShort(w, r)
    ensures Achieved(v, w.cluster, Called(w, r).cluster) && StatusWritten(w, Called(w, r).cluster)
  {
    ErrorIffStopsShort(w, r);
  }

  /** Writing the status changes the object in that alone. */
  predicate StatusWritten(w: World, d: Cluster) {
    w.pc.WriteStatus? ==> d.app == Some(w.pc.v.(status := w.pc.status, version := d.clock))
  }

  /**
   * Every pass: one that cannot fetch the object, or finds none, makes no further call and changes
   * nothing; one that returns no error on the object it fetched has achieved what it is for.
   */
  lemma {:induction false} PassAchieves(ws: seq<World>, ms: seq<Move>, f: nat)
    requires IsRun(ws, ms) && WholePass(ws, ms, f)
    ensures
      var last := |ms| - 1;
      if ms[f].reply.Fail? || ws[f].cluster.app.None? then
        last == f && ws[|ms|].cluster == ws[f].cluster && (StopsShort(ws[f], ms[f].reply) <==> ms[f].reply.Fail?)
      else
        StopsShort(ws[last], ms[last].reply) || (
          && Achieved(ws[f].cluster.app.value, ws[last].cluster, ws[|ms|].cluster)
          && StatusWritten(ws[last], ws[|ms|].cluster))
  {
    InvInEveryRun(ws, ms);
    var last := |ms| - 1;
    assert Inv(ws[last]) && ws[|ms|] == Next(ws[last], ms[last]) && ws[f + 1] == Next(ws[f], ms[f]);
    if last > f {
      var v := ws[f].cluster.app.value;
      PassFollows(ws, ms, f, last, v);
      if !StopsShort(ws[last], ms[last].reply) {
        EndAchieves(ws[last], ms[last].reply, v);
      }
    }
  }

  /** The calls of the controller never change what others have said of an object. */
  lemma {:induction false} IntentIsOthers(ws: seq<World>, ms: seq<Move>, i: nat)
    requires IsRun(ws, ms) && i < |ms| && ms[i].Call?
    requires ws[i].cluster.app.Some? && ws[i + 1].cluster.app.Some?
    ensures
      var a, b := ws[i].cluster.app.value, ws[i + 1].cluster.app.value;
      a.spec == b.spec && a.labels == b.labels && a.deleting == b.deleting && a.others == b.others
    ensures ws[i + 1].cluster.registry == ws[i].cluster.registry
  {
    InvInEveryRun(ws, ms);
    assert Inv(ws[i]) && ws[i + 1] == Next(ws[i], ms[i]);
  }
}
