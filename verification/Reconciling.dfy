/**
 * One application object, its controller and everybody else who touches the cluster.
 *
 * A pass of the controller is a sequence of calls, each of which may fail; other actors may edit the
 * cluster between any two of them. Passes for one object do not overlap.
 */
module Reconciling {

  import opened Collections
  import opened FanOut

  // ---------------------------------------------------------------- the cluster

  /** The port decides about the Service; `fields` are the keys of the marshalled spec. */
  datatype AppSpec = AppSpec(port: int, fields: map<string, string>)

  /** The hash of spec and labels, kept abstract and injective. */
  datatype Fingerprint = Fingerprint(spec: AppSpec, labels: map<string, string>)

  datatype Status = Status(hash: Option<Fingerprint>, extensions: seq<string>, replicas: int, available: int)

  const NO_STATUS := Status(None, [], 0, 0)

  /** `others` says whether somebody else's finalizer is on the object. */
  datatype App = App(
    spec: AppSpec, labels: map<string, string>,
    finalizer: bool, others: bool, deleting: bool,
    status: Status, version: nat)

  datatype Registered = Registered(always: bool, rootKeys: set<string>)

  /** A Deployment: its available replicas and the spec and labels it was made from. */
  datatype Deployment = Deployment(available: int, made: Fingerprint)

  /**
   * The API server's state for one name: the object, its Deployment, its Service (what it was made
   * from), the extensions registered for the kind, and the resource version counter.
   */
  datatype Cluster = Cluster(
    app: Option<App>,
    deployment: Option<Deployment>, service: Option<Fingerprint>,
    registry: map<string, Registered>,
    clock: nat)

  function Hash(a: App): Fingerprint {
    Fingerprint(a.spec, a.labels)
  }

  /** An extension runs when it always does or when one of its root keys is set. */
  function Applicable(registry: map<string, Registered>, spec: AppSpec): set<string> {
    set n | n in registry && (registry[n].always || exists k :: k in registry[n].rootKeys && k in spec.fields)
  }

  /** Every write of the object draws a new resource version. */
  function Write(c: Cluster, a: App): Cluster {
    c.(app := Some(a.(version := c.clock + 1)), clock := c.clock + 1)
  }

  /** A write succeeds only on the version it was based on. */
  predicate Current(c: Cluster, v: App) {
    c.app.Some? && c.app.value.version == v.version
  }

  // ---------------------------------------------------------------- other actors

  datatype Edit =
    | Create(spec: AppSpec, labels: map<string, string>, finalizer: bool, others: bool)
    | Change(spec: AppSpec, labels: map<string, string>)
    | RequestDelete
    | SetOthers(others: bool)
    | Scale(available: int)
    | LoseDeployment
    | LoseService
    | Register(name: string, ext: Registered)
    | Unregister(name: string)

  function Edited(c: Cluster, e: Edit): Cluster {
    match e
    case Create(spec, labels, finalizer, others) =>
      if c.app.Some? then c
      else Write(c, App(spec, labels, finalizer, others, false, NO_STATUS, 0))
    case Change(spec, labels) =>
      if c.app.None? then c else Write(c, c.app.value.(spec := spec, labels := labels))
    case RequestDelete =>
      if c.app.None? then c
      else if c.app.value.finalizer || c.app.value.others then Write(c, c.app.value.(deleting := true))
      else c.(app := None)
    case SetOthers(others) =>
      if c.app.None? || (others && c.app.value.deleting) then c
      else if c.app.value.deleting && !c.app.value.finalizer then c.(app := None)
      else Write(c, c.app.value.(others := others))
    case Scale(n) =>
      if c.deployment.None? then c else c.(deployment := Some(c.deployment.value.(available := n)))
    case LoseDeployment => c.(deployment := None)
    case LoseService => c.(service := None)
    case Register(n, x) => c.(registry := c.registry[n := x])
    case Unregister(n) => c.(registry := c.registry - {n})
  }

  // ---------------------------------------------------------------- the controller

  /**
   * What a sync pass has gathered: the extensions that ran, the recorded ones whose deletion failed,
   * and the recorded ones that went, because their Delete returned no error or because they are no
   * longer registered.
   */
  datatype Outcome = Outcome(ran: seq<string>, kept: seq<string>, cleared: set<string>, orphaned: set<string>)

  /** `result.Extensions` of the pass. */
  function Listed(o: Outcome): seq<string> {
    o.ran + o.kept
  }

  /** The call the controller makes next; `v` is the object as the pass fetched it. */
  datatype Pc =
    | Idle
    | DelDeployment(v: App)
    | DelService(v: App)
    | DelExtensions(v: App)
    | DropFinalizer(v: App)
    | AddFinalizer(v: App)
    | LookDeployment(v: App)
    | LookService(v: App)
    | Refresh(v: App)
    | Syncing(v: App)
    | Cleaning(v: App, todo: seq<string>, o: Outcome)
    | GetService(v: App, o: Outcome)
    | PutService(v: App, o: Outcome, found: bool)
    | GetDeployment(v: App, o: Outcome)
    | PutDeployment(v: App, o: Outcome, update: bool)
    | Report(v: App, o: Outcome)
    | WriteStatus(v: App, status: Status, outcome: Option<Outcome>)

  /**
   * The reply to a call. A call of the API server succeeds or fails; `Crash` is the end of the
   * controller's process. A call of the extensions is a run of the fan-out: the extensions as
   * `ExtensionsFor` lists them, what each of them meets, and the order in which goroutines go.
   */
  datatype Reply =
    | Ok
    | Fail
    | Crash
    | Synced(names: seq<string>, plans: seq<Plan>, schedule: seq<nat>)
    | Deleted(names: seq<string>, plans: seq<Plan>, order: seq<nat>)

  /** `synced` is history: the hashes with which some pass on this object got through extension sync
      and CreateOrUpdate. */
  datatype World = World(cluster: Cluster, pc: Pc, synced: set<Fingerprint>)

  // ---------------------------------------------------------------- calls of the extensions

  /** One goroutine for each registered extension, calling the selected ones; a request may be bad. */
  predicate FansOut(registry: map<string, Registered>, selected: set<string>, names: seq<string>, plans: seq<Plan>) {
    && Enumerates(names, registry.Keys) && |plans| == |names|
    && forall i :: 0 <= i < |plans| ==>
      (plans[i].Skips? ==> names[i] !in selected) && (plans[i].Calls? ==> names[i] in selected)
  }

  predicate SyncSucceeds(registry: map<string, Registered>, spec: AppSpec, r: Reply) {
    && r.Synced? && FansOut(registry, Applicable(registry, spec), r.names, r.plans)
    && Finishes(r.plans, r.schedule) && Played(r.plans, r.schedule).errs == []
  }

  predicate DeleteSucceeds(registry: map<string, Registered>, selected: set<string>, r: Reply) {
    && r.Deleted? && FansOut(registry, selected, r.names, r.plans)
    && Enumerates(r.order, DeleteOutcomes(r.plans).Keys)
    && Gathered(DeleteOutcomes(r.plans), r.order).errs == []
  }

  /** The names in `result.Extensions` after a sync, in the order in which they got there. */
  function RanNames(registry: map<string, Registered>, spec: AppSpec, r: Reply): seq<string>
    requires SyncSucceeds(registry, spec, r)
  {
    NamesOf(r.names, Played(r.plans, r.schedule).started)
  }

  function NamesOf(names: seq<string>, started: seq<nat>): seq<string> {
    seq(|started|, k requires 0 <= k < |started| => if started[k] < |names| then names[started[k]] else "")
  }

  /** A sync without error ran exactly the applicable extensions and recorded each of them once. */
  lemma {:induction false} SyncRunsApplicable(registry: map<string, Registered>, spec: AppSpec, r: Reply)
    requires SyncSucceeds(registry, spec, r)
    ensures Enumerates(RanNames(registry, spec, r), Applicable(registry, spec))
  {
    SyncErrorIffSomeFailed(r.plans, r.schedule);
    var ran, started := RanNames(registry, spec, r), Played(r.plans, r.schedule).started;
    forall n | n in Applicable(registry, spec) ensures n in ran {
      var i :| 0 <= i < |r.names| && r.names[i] == n;
      assert r.plans[i].Calls? && i in started;
      var k :| 0 <= k < |started| && started[k] == i;
      assert ran[k] == n;
    }
    forall k | 0 <= k < |ran| ensures ran[k] in Applicable(registry, spec) {
      assert started[k] in started;
      assert r.plans[started[k]].Calls?;
    }
    forall k, l | 0 <= k < l < |ran| ensures ran[k] != ran[l] {
      assert started[k] in started && started[l] in started && started[k] != started[l];
    }
  }

  /** Step `n` of the schedule starts extension `i`, which gets the next place among the names. */
  lemma {:induction false} RunsAreListedAsStarted(names: seq<string>, plans: seq<Plan>, schedule: seq<nat>, n: nat)
    requires |names| == |plans| && IsSchedule(plans, schedule) && n < |schedule|
    ensures
      var f, i := Played(plans, schedule[..n]), schedule[n];
      var listed := NamesOf(names, Played(plans, schedule).started);
      && |f.started| <= |listed|
      && (f.threads[i].Ready? && plans[i].Calls? ==> |f.started| < |listed| && listed[|f.started|] == names[i])
    decreases |schedule|
  {
    var m := |schedule| - 1;
    if n < m {
      assert schedule[..m][..n] == schedule[..n];
      RunsAreListedAsStarted(names, plans, schedule[..m], n);
    }
  }

  /** The Delete of extension `n` was called and returned no error. */
  predicate DeleteReturned(r: Reply, n: string) {
    && r.Deleted? && |r.plans| == |r.names|
    && exists i :: 0 <= i < |r.names| && r.names[i] == n && r.plans[i] == Calls(false)
  }

  /** In a deletion without error the Delete of every selected extension was called and returned none. */
  lemma {:induction false} DeleteReachesSelected(
      registry: map<string, Registered>, selected: set<string>, r: Reply, n: string)
    requires DeleteSucceeds(registry, selected, r) && n in selected && n in registry
    ensures DeleteReturned(r, n)
  {
    DeleteErrorIffSomeFailed(r.plans, r.order);
    var i :| 0 <= i < |r.names| && r.names[i] == n;
    assert !Fails(r.plans[i]) && !r.plans[i].Skips?;
  }

  // ---------------------------------------------------------------- one call

  /** Where a pass goes once it has fetched the object. */
  function Fetched(v: App): Pc {
    if v.deleting then (if v.finalizer then DelDeployment(v) else Idle)
    else if !v.finalizer then AddFinalizer(v)
    else if v.status.hash != Some(Hash(v)) then Syncing(v)
    else LookDeployment(v)
  }

  /** `UpdateStatus`: a Deployment that cannot be read leaves the replica counts alone. */
  function NewStatus(c: Cluster, v: App, extensions: seq<string>, read: bool): Status {
    var s := v.status.(hash := Some(Hash(v)), extensions := extensions);
    if read && c.deployment.Some? then
      s.(replicas := c.deployment.value.available, available := c.deployment.value.available)
    else s
  }

  function Reported(v: App, s: Status, o: Option<Outcome>): Pc {
    if s == v.status then Idle else WriteStatus(v, s, o)
  }

  /** The recorded extension whose turn it is ran in this pass, so there is nothing to call. */
  predicate NothingToClean(pc: Pc) {
    pc.Cleaning? && pc.todo != [] && pc.todo[0] in Listed(pc.o)
  }

  /** The call the pass has come to returns without an error. */
  predicate Passes(w: World, r: Reply) {
    var c := w.cluster;
    NothingToClean(w.pc) || (!r.Fail? &&
    match w.pc
    case DelExtensions(v) => DeleteSucceeds(c.registry, Applicable(c.registry, v.spec), r)
    case Syncing(v) => SyncSucceeds(c.registry, v.spec, r)
    case Cleaning(_, todo, _) => todo != [] ==> DeleteSucceeds(c.registry, {todo[0]}, r)
    case AddFinalizer(v) => Current(c, v)
    case DropFinalizer(v) => Current(c, v)
    case PutService(_, _, found) => found ==> c.service.Some?
    case PutDeployment(_, _, update) => update == c.deployment.Some?
    case WriteStatus(v, _, _) => Current(c, v)
    case _ => true)
  }

  /** One call of the controller and its reply. */
  function Called(w: World, r: Reply): World {
    if r.Crash? then w.(pc := Idle) else if Passes(w, r) then Advanced(w, r) else w.(pc := Refused(w.cluster, w.pc))
  }

  /** After an error the pass ends, except where the code only logs it. */
  function Refused(c: Cluster, pc: Pc): Pc {
    match pc
    case Cleaning(v, todo, o) =>
      if todo == [] then Idle else Cleaning(v, todo[1..], o.(kept := o.kept + [todo[0]]))
    case Refresh(v) => Reported(v, NewStatus(c, v, v.status.extensions, false), None)
    case Report(v, o) => Reported(v, NewStatus(c, v, Listed(o), false), Some(o))
    case _ => Idle
  }

  /** The cleanup loop over recorded extensions, one name a step, when there is no error. */
  function Cleaned(registry: map<string, Registered>, v: App, todo: seq<string>, o: Outcome): Pc
    requires todo != []
  {
    if todo[0] in Listed(o) then Cleaning(v, todo[1..], o)
    else if todo[0] in registry then Cleaning(v, todo[1..], o.(cleared := o.cleared + {todo[0]}))
    else Cleaning(v, todo[1..], o.(orphaned := o.orphaned + {todo[0]}))
  }

  function Advanced(w: World, r: Reply): World
    requires Passes(w, r)
  {
    var c := w.cluster;
    match w.pc
    case Idle => if c.app.None? then w else w.(pc := Fetched(c.app.value))
    case DelDeployment(v) => w.(cluster := c.(deployment := None), pc := DelService(v))
    case DelService(v) => w.(cluster := c.(service := None), pc := DelExtensions(v))
    case DelExtensions(v) => w.(pc := DropFinalizer(v))
    case DropFinalizer(v) =>
      w.(cluster := if v.others then Write(c, v.(finalizer := false)) else c.(app := None), pc := Idle)
    case AddFinalizer(v) => w.(cluster := Write(c, v.(finalizer := true)), pc := Idle)
    case LookDeployment(v) =>
      w.(pc := if c.deployment.None? then Syncing(v) else if v.spec.port > 0 then LookService(v) else Refresh(v))
    case LookService(v) => w.(pc := if c.service.Some? then Refresh(v) else Syncing(v))
    case Refresh(v) => w.(pc := Reported(v, NewStatus(c, v, v.status.extensions, true), None))
    case Syncing(v) =>
      w.(pc := Cleaning(v, v.status.extensions, Outcome(RanNames(c.registry, v.spec, r), [], {}, {})))
    case Cleaning(v, todo, o) =>
      w.(pc := if todo != [] then Cleaned(c.registry, v, todo, o)
               else if v.spec.port > 0 then GetService(v, o)
               else GetDeployment(v, o))
    case GetService(v, o) => w.(pc := PutService(v, o, c.service.Some?))
    case PutService(v, o, _) => w.(cluster := c.(service := Some(Hash(v))), pc := GetDeployment(v, o))
    case GetDeployment(v, o) => w.(pc := PutDeployment(v, o, c.deployment.Some?))
    case PutDeployment(v, o, update) =>
      var available := if update then c.deployment.value.available else 0;
      World(c.(deployment := Some(Deployment(available, Hash(v)))), Report(v, o), w.synced + {Hash(v)})
    case Report(v, o) => w.(pc := Reported(v, NewStatus(c, v, Listed(o), true), Some(o)))
    case WriteStatus(v, s, _) => w.(cluster := Write(c, v.(status := s)), pc := Idle)
  }

  /**
   * The pass ends with an error returned to the queue, which then tries the object again. An object
   * that is gone when its finalizer is to be removed is no error.
   */
  predicate Errs(w: World, r: Reply) {
    && !Passes(w, r)
    && !(w.pc.Refresh? || w.pc.Report? || (w.pc.Cleaning? && w.pc.todo != []))
    && !(w.pc.DropFinalizer? && !r.Fail? && w.cluster.app.None?)
  }

  datatype Move = Env(edit: Edit) | Call(reply: Reply)

  /** A new object starts without history. */
  function Next(w: World, m: Move): World {
    match m
    case Call(r) => Called(w, r)
    case Env(e) =>
      World(Edited(w.cluster, e), w.pc, if e.Create? && w.cluster.app.None? then {} else w.synced)
  }

  predicate Initial(w: World) {
    w.cluster.app.None? && w.cluster.deployment.None? && w.cluster.service.None? && w.pc.Idle? && w.synced == {}
  }

  ghost predicate IsRun(ws: seq<World>, ms: seq<Move>) {
    && |ws| == |ms| + 1
    && Initial(ws[0])
    && forall i :: 0 <= i < |ms| ==> ws[i + 1] == Next(ws[i], ms[i])
  }
}
