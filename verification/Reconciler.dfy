/**
 * The reconciler as a program: the calls of one pass in the order the code makes them. It is proved
 * to be a run of the state machine of `Reconciling`, whatever the calls return and whatever
 * other actors do before each of them.
 */
module Reconciler {
  import opened Collections
  import FanOut
  import opened Reconciling
  import ReconcilingSafety
  import opened PassEndings

  /** The calls of a pass; `AtCleaning` is the deletion of one recorded extension. */
  datatype Site =
    | AtGet | AtDelDeployment | AtDelService | AtDelExtensions | AtDropFinalizer | AtAddFinalizer
    | AtLookDeployment | AtLookService | AtRefresh | AtSync | AtCleaning(name: string) | AtApply
    | AtGetService | AtPutService | AtGetDeployment | AtPutDeployment | AtReport | AtWriteStatus

  function SiteOf(pc: Pc): Site {
    match pc
    case Idle => AtGet
    case DelDeployment(_) => AtDelDeployment
    case DelService(_) => AtDelService
    case DelExtensions(_) => AtDelExtensions
    case DropFinalizer(_) => AtDropFinalizer
    case AddFinalizer(_) => AtAddFinalizer
    case LookDeployment(_) => AtLookDeployment
    case LookService(_) => AtLookService
    case Refresh(_) => AtRefresh
    case Syncing(_) => AtSync
    case Cleaning(_, todo, _) => if todo != [] then AtCleaning(todo[0]) else AtApply
    case GetService(_, _) => AtGetService
    case PutService(_, _, _) => AtPutService
    case GetDeployment(_, _) => AtGetDeployment
    case PutDeployment(_, _, _) => AtPutDeployment
    case Report(_, _) => AtReport
    case WriteStatus(_, _, _) => AtWriteStatus
  }

  /** What happens at one call: edits by others just before it, then the reply. */
  datatype Turn = Turn(edits: seq<Edit>, reply: Reply)

  /** The controller lives to see the reply. */
  function Seen(r: Reply): Reply {
    if r.Crash? then Fail else r
  }

  function ReplyAt(turns: Site -> Turn, pc: Pc): Reply {
    Seen(turns(SiteOf(pc)).reply)
  }

  /**
   * The moves from `start` on are those of one pass: edits by others until the object is fetched at
   * `fetch`, then the calls that follow from it, answered as `turns` says, without coming to rest
   * before the last of them.
   */
  ghost predicate OnePass(ws: seq<World>, ms: seq<Move>, start: nat, fetch: Option<nat>, turns: Site -> Turn)
    requires |ws| == |ms| + 1
  {
    && start <= |ms|
    && (forall l :: start <= l < |ms| && ms[l].Call? ==> ms[l].reply == ReplyAt(turns, ws[l].pc))
    && match fetch
       case None => ws[|ms|].pc.Idle? && forall l :: start <= l < |ms| ==> ms[l].Env?
       case Some(f) =>
         && start <= f < |ms| && ms[f].Call? && ws[f].pc.Idle?
         && (forall l :: start <= l < f ==> ms[l].Env?)
         && forall l :: f < l < |ms| ==> !ws[l].pc.Idle?
  }

  /** The history of a controller: a run so far, and where in it the present pass starts and fetched. */
  datatype History = History(
    ws: seq<World>, ms: seq<Move>,
    start: nat, fetch: Option<nat>, turns: Site -> Turn)

  ghost predicate IsTrace(h: History) {
    IsRun(h.ws, h.ms) && OnePass(h.ws, h.ms, h.start, h.fetch, h.turns)
  }

  type Trace = h: History | IsTrace(h)
    ghost witness History([World(Cluster(None, None, None, map[], 0), Idle, {})], [], 0, None, _ => Turn([], Fail))

  ghost function Now(t: Trace): World {
    t.ws[|t.ms|]
  }

  /** The last call ended the pass with an error. */
  ghost predicate LastErrs(t: Trace) {
    t.ms != [] && t.ms[|t.ms| - 1].Call? && Errs(t.ws[|t.ms| - 1], t.ms[|t.ms| - 1].reply)
  }

  /** The moves made before are still there, and the pass is the same. */
  ghost predicate Continues(t: History, t': History) {
    t.ws <= t'.ws && t.ms <= t'.ms && t'.start == t.start && t'.turns == t.turns && t'.fetch == t.fetch
  }

  lemma RunGrows(ws: seq<World>, ms: seq<Move>, m: Move)
    requires IsRun(ws, ms)
    ensures IsRun(ws + [Next(ws[|ms|], m)], ms + [m])
  {
  }

  lemma PassGrows(h: History, w: World, m: Move)
    requires |h.ws| == |h.ms| + 1 && OnePass(h.ws, h.ms, h.start, h.fetch, h.turns)
    requires
      var now := h.ws[|h.ms|];
      && (if m.Call? then !now.pc.Idle? && m.reply == ReplyAt(h.turns, now.pc) else w.pc == now.pc)
      && (h.fetch.Some? ==> !now.pc.Idle?)
    ensures OnePass(h.ws + [w], h.ms + [m], h.start, h.fetch, h.turns)
  {
  }

  /** One more move of the pass, an edit by others or the call the pass has come to. */
  lemma Moves(t: Trace, m: Move) returns (t': Trace)
    requires t.fetch.Some? ==> !Now(t).pc.Idle?
    requires m.Call? ==> !Now(t).pc.Idle? && m.reply == ReplyAt(t.turns, Now(t).pc)
    ensures Continues(t, t') && Now(t') == Next(Now(t), m)
    ensures m.Call? ==> LastErrs(t') == Errs(Now(t), m.reply)
  {
    RunGrows(t.ws, t.ms, m);
    PassGrows(t, Next(Now(t), m), m);
    t' := t.(ws := t.ws + [Next(Now(t), m)], ms := t.ms + [m]);
  }

  /** The first call of a pass fetches the object. */
  lemma Fetches(t: Trace) returns (t': Trace)
    requires t.fetch.None?
    ensures Continues(t.(fetch := t'.fetch), t') && t'.fetch.Some?
    ensures Now(t).pc.Idle? && Now(t') == Called(Now(t), ReplyAt(t.turns, Idle))
    ensures LastErrs(t') == Errs(Now(t), ReplyAt(t.turns, Idle))
  {
    var m := Call(ReplyAt(t.turns, Idle));
    RunGrows(t.ws, t.ms, m);
    t' := t.(ws := t.ws + [Next(Now(t), m)], ms := t.ms + [m], fetch := Some(|t.ms|));
  }

  /** Reading the Deployment for the status never ends a pass with an error. */
  lemma StatusCall(w: World, r: Reply, extensions: seq<string>, o: Option<Outcome>)
    requires !r.Crash?
    requires o.None? ==> w.pc.Refresh? && extensions == w.pc.v.status.extensions
    requires o.Some? ==> w.pc.Report? && w.pc.o == o.value && extensions == Listed(o.value)
    ensures Called(w, r) == w.(pc := Reported(w.pc.v, NewStatus(w.cluster, w.pc.v, extensions, !r.Fail?), o))
    ensures !Errs(w, r)
  {
  }

  class ReconcilerWrapper {
    var cluster: Cluster
    /** What happens at the calls of the present pass. */
    var turns: Site -> Turn
    ghost var trace: Trace

    /** The run so far ends in the present cluster. */
    ghost predicate Valid()
      reads this
    {
      Now(trace).cluster == cluster && trace.turns == turns
    }

    ghost function At(): Pc
      reads this
    {
      Now(trace).pc
    }

    constructor (registry: map<string, Registered>, clock: nat)
      ensures Valid() && At().Idle? && cluster == Cluster(None, None, None, registry, clock)
    {
      var fail: Site -> Turn := _ => Turn([], Fail);
      cluster := Cluster(None, None, None, registry, clock);
      turns := fail;
      trace := History([World(Cluster(None, None, None, registry, clock), Idle, {})], [], 0, None, fail);
    }

    /** The call the pass has come to is over, and the machine moves on. */
    ghost method Answer()
      requires !At().Idle? && trace.turns == turns
      requires cluster == Called(Now(trace), ReplyAt(turns, At())).cluster
      modifies `trace
      ensures Valid() && Continues(old(trace), trace)
      ensures At() == Called(old(Now(trace)), ReplyAt(turns, old(At()))).pc
      ensures LastErrs(trace) == Errs(old(Now(trace)), ReplyAt(turns, old(At())))
    {
      trace := Moves(trace, Call(ReplyAt(turns, At())));
    }

    /** Other actors get to the cluster. */
    method Interfere(edits: seq<Edit>)
      requires Valid() && (trace.fetch.Some? ==> !At().Idle?)
      modifies `cluster, `trace
      ensures Valid() && At() == old(At()) && Continues(old(trace), trace)
    {
      for i := 0 to |edits|
        invariant Valid() && At() == old(At()) && Continues(old(trace), trace)
      {
        cluster := Edited(cluster, edits[i]);
        trace := Moves(trace, Env(edits[i]));
      }
    }

    // ---------------------------------------------------------------- calls to the API server

    method Get() returns (v: Option<App>, err: bool)
      requires Valid() && trace.fetch.None?
      modifies `cluster, `trace
      ensures Valid() && trace.fetch.Some? && Continues(old(trace).(fetch := trace.fetch), trace)
      ensures At() == if v.Some? then Fetched(v.value) else Idle
      ensures At().Idle? ==> err == LastErrs(trace)
    {
      Interfere(turns(AtGet).edits);
      err := Seen(turns(AtGet).reply).Fail?;
      v := if err then None else cluster.app;
      trace := Fetches(trace);
    }

    /** Updating the object: refused unless it still has the version `v` was fetched with. */
    method Update(v: App, finalizer: bool) returns (err: bool)
      requires Valid() && At() == if finalizer then AddFinalizer(v) else DropFinalizer(v)
      modifies `cluster, `trace
      ensures Valid() && At().Idle? && Continues(old(trace), trace) && err == LastErrs(trace)
    {
      var t := turns(if finalizer then AtAddFinalizer else AtDropFinalizer);
      Interfere(t.edits);
      var r := Seen(t.reply);
      if r.Fail? || !Current(cluster, v) {
        // An object that is gone has no finalizer to remove.
        err := r.Fail? || finalizer || cluster.app.Some?;
      } else {
        err := false;
        if finalizer || v.others {
          cluster := Write(cluster, v.(finalizer := finalizer));
        } else {
          cluster := cluster.(app := None);
        }
      }
      Answer();
    }

    method UpdateStatusOf(v: App, s: Status, ghost o: Option<Outcome>) returns (err: bool)
      requires Valid() && At() == WriteStatus(v, s, o)
      modifies `cluster, `trace
      ensures Valid() && At().Idle? && Continues(old(trace), trace) && err == LastErrs(trace)
    {
      Interfere(turns(AtWriteStatus).edits);
      err := Seen(turns(AtWriteStatus).reply).Fail? || !Current(cluster, v);
      if !err {
        cluster := Write(cluster, v.(status := s));
      }
      Answer();
    }

    method DeleteDeployment(v: App) returns (ok: bool)
      requires Valid() && At() == DelDeployment(v)
      modifies `cluster, `trace
      ensures Valid() && At() == (if ok then DelService(v) else Idle) && Continues(old(trace), trace)
      ensures !ok ==> LastErrs(trace)
    {
      Interfere(turns(AtDelDeployment).edits);
      ok := !Seen(turns(AtDelDeployment).reply).Fail?;
      if ok {
        cluster := cluster.(deployment := None);
      }
      Answer();
    }

    method DeleteService(v: App) returns (ok: bool)
      requires Valid() && At() == DelService(v)
      modifies `cluster, `trace
      ensures Valid() && At() == (if ok then DelExtensions(v) else Idle) && Continues(old(trace), trace)
      ensures !ok ==> LastErrs(trace)
    {
      Interfere(turns(AtDelService).edits);
      ok := !Seen(turns(AtDelService).reply).Fail?;
      if ok {
        cluster := cluster.(service := None);
      }
      Answer();
    }

    // ---------------------------------------------------------------- calls to the extension controller

    /** Every registered extension that applies to the object is asked to delete. */
    method DeleteFromExtensions(v: App) returns (ok: bool)
      requires Valid() && At() == DelExtensions(v)
      modifies `cluster, `trace
      ensures Valid() && At() == (if ok then DropFinalizer(v) else Idle) && Continues(old(trace), trace)
      ensures !ok ==> LastErrs(trace)
    {
      Interfere(turns(AtDelExtensions).edits);
      var applicable := Applicable(cluster.registry, v.spec);
      ok := DeleteSucceeds(cluster.registry, applicable, Seen(turns(AtDelExtensions).reply));
      Answer();
    }

    /** Running all applicable extensions, in the order in which their goroutines happen to start. */
    method Sync(v: App) returns (ran: seq<string>, ok: bool)
      requires Valid() && At() == Syncing(v)
      modifies `cluster, `trace
      ensures Valid() && Continues(old(trace), trace)
      ensures At() == if ok then Cleaning(v, v.status.extensions, Outcome(ran, [], {}, {})) else Idle
      ensures !ok ==> LastErrs(trace)
    {
      Interfere(turns(AtSync).edits);
      var r := Seen(turns(AtSync).reply);
      ran, ok := [], false;
      if r.Synced? && FansOut(cluster.registry, Applicable(cluster.registry, v.spec), r.names, r.plans) &&
         FanOut.Finishes(r.plans, r.schedule) {
        var fan := FanOut.Run(r.plans, r.schedule);
        ran, ok := NamesOf(r.names, fan.started), fan.errs == [];
      }
      Answer();
    }

    // ---------------------------------------------------------------- the App child

    method IsModified(v: App) returns (modified: bool, ok: bool)
      requires Valid() && v.finalizer && !v.deleting && At() == Fetched(v)
      modifies `cluster, `trace
      ensures Valid() && Continues(old(trace), trace)
      ensures At() == if !ok then Idle else if modified then Syncing(v) else Refresh(v)
      ensures !ok ==> LastErrs(trace)
    {
      if v.status.hash != Some(Hash(v)) {
        return true, true;
      }
      modified, ok := LookAtDeployment(v);
      if ok && !modified && v.spec.port > 0 {
        modified, ok := LookAtService(v);
      }
    }

    method LookAtDeployment(v: App) returns (missing: bool, ok: bool)
      requires Valid() && At() == LookDeployment(v)
      modifies `cluster, `trace
      ensures Valid() && Continues(old(trace), trace)
      ensures At() ==
        if !ok then Idle else if missing then Syncing(v) else if v.spec.port > 0 then LookService(v) else Refresh(v)
      ensures !ok ==> LastErrs(trace)
    {
      Interfere(turns(AtLookDeployment).edits);
      missing, ok := cluster.deployment.None?, !Seen(turns(AtLookDeployment).reply).Fail?;
      Answer();
    }

    method LookAtService(v: App) returns (missing: bool, ok: bool)
      requires Valid() && At() == LookService(v)
      modifies `cluster, `trace
      ensures Valid() && Continues(old(trace), trace)
      ensures At() == if !ok then Idle else if missing then Syncing(v) else Refresh(v)
      ensures !ok ==> LastErrs(trace)
    {
      Interfere(turns(AtLookService).edits);
      missing, ok := cluster.service.None?, !Seen(turns(AtLookService).reply).Fail?;
      Answer();
    }

    /** Fills in hash, extensions and, if the Deployment can be read, the replica counts; `site` is
        where in the pass that happens. */
    method UpdateStatus(v: App, extensions: seq<string>, ghost o: Option<Outcome>, site: Site)
        returns (s: Status, changes: bool)
      requires Valid() && SiteOf(At()) == site
      requires o.None? ==> At() == Refresh(v) && extensions == v.status.extensions
      requires o.Some? ==> At() == Report(v, o.value) && extensions == Listed(o.value)
      modifies `cluster, `trace
      ensures Valid() && Continues(old(trace), trace)
      ensures At() == if changes then WriteStatus(v, s, o) else Idle
      ensures !changes ==> !LastErrs(trace)
    {
      Interfere(turns(site).edits);
      s, changes := Filled(v, extensions, !Seen(turns(site).reply).Fail?);
      StatusCall(Now(trace), Seen(turns(site).reply), extensions, o);
      Answer();
    }

    /** What `UpdateStatus` does with what it has read. */
    method Filled(v: App, extensions: seq<string>, read: bool) returns (s: Status, changes: bool)
      ensures s == NewStatus(cluster, v, extensions, read) && (changes <==> s != v.status)
    {
      s := v.status;
      changes := false;
      if s.hash != Some(Hash(v)) {
        changes, s := true, s.(hash := Some(Hash(v)));
      }
      if s.extensions != extensions {
        changes, s := true, s.(extensions := extensions);
      }
      if read && cluster.deployment.Some? {
        var available := cluster.deployment.value.available;
        if s.replicas != available {
          changes, s := true, s.(replicas := available);
        }
        if s.available != available {
          changes, s := true, s.(available := available);
        }
      }
    }

    /** The Service is read, then always written with an update, which creates it when absent. */
    method WriteService(v: App, ghost o: Outcome) returns (ok: bool)
      requires Valid() && At() == GetService(v, o)
      modifies `cluster, `trace
      ensures Valid() && Continues(old(trace), trace)
      ensures At() == if ok then GetDeployment(v, o) else Idle
      ensures !ok ==> LastErrs(trace)
    {
      var found;
      found, ok := ReadService(v, o);
      if ok {
        ok := UpdateService(v, o, found);
      }
    }

    method ReadService(v: App, ghost o: Outcome) returns (found: bool, ok: bool)
      requires Valid() && At() == GetService(v, o)
      modifies `cluster, `trace
      ensures Valid() && Continues(old(trace), trace)
      ensures At() == if ok then PutService(v, o, found) else Idle
      ensures !ok ==> LastErrs(trace)
    {
      Interfere(turns(AtGetService).edits);
      found, ok := cluster.service.Some?, !Seen(turns(AtGetService).reply).Fail?;
      Answer();
    }

    /** A Service that was found is updated at the version read, so it has to be there still. */
    method UpdateService(v: App, ghost o: Outcome, found: bool) returns (ok: bool)
      requires Valid() && At() == PutService(v, o, found)
      modifies `cluster, `trace
      ensures Valid() && Continues(old(trace), trace)
      ensures At() == if ok then GetDeployment(v, o) else Idle
      ensures !ok ==> LastErrs(trace)
    {
      Interfere(turns(AtPutService).edits);
      ok := !Seen(turns(AtPutService).reply).Fail? && (found ==> cluster.service.Some?);
      if ok {
        cluster := cluster.(service := Some(Hash(v)));
      }
      Answer();
    }

    method WriteDeployment(v: App, ghost o: Outcome) returns (ok: bool)
      requires Valid() && At() == GetDeployment(v, o)
      modifies `cluster, `trace
      ensures Valid() && Continues(old(trace), trace)
      ensures At() == if ok then Report(v, o) else Idle
      ensures !ok ==> LastErrs(trace)
    {
      var update;
      update, ok := ReadDeployment(v, o);
      if ok {
        ok := SaveDeployment(v, o, update);
      }
    }

    method ReadDeployment(v: App, ghost o: Outcome) returns (found: bool, ok: bool)
      requires Valid() && At() == GetDeployment(v, o)
      modifies `cluster, `trace
      ensures Valid() && Continues(old(trace), trace)
      ensures At() == if ok then PutDeployment(v, o, found) else Idle
      ensures !ok ==> LastErrs(trace)
    {
      Interfere(turns(AtGetDeployment).edits);
      found, ok := cluster.deployment.Some?, !Seen(turns(AtGetDeployment).reply).Fail?;
      Answer();
    }

    /** An update needs the Deployment to be there still, a create needs it to be absent. */
    method SaveDeployment(v: App, ghost o: Outcome, update: bool) returns (ok: bool)
      requires Valid() && At() == PutDeployment(v, o, update)
      modifies `cluster, `trace
      ensures Valid() && Continues(old(trace), trace)
      ensures At() == if ok then Report(v, o) else Idle
      ensures !ok ==> LastErrs(trace)
    {
      Interfere(turns(AtPutDeployment).edits);
      ok := !Seen(turns(AtPutDeployment).reply).Fail? && update == cluster.deployment.Some?;
      if ok {
        var available := if update then cluster.deployment.value.available else 0;
        cluster := cluster.(deployment := Some(Deployment(available, Hash(v))));
      }
      Answer();
    }

    /** Applying the changeset comes first. */
    method CreateOrUpdate(v: App, ghost o: Outcome) returns (ok: bool)
      requires Valid() && At() == Cleaning(v, [], o)
      modifies `cluster, `trace
      ensures Valid() && Continues(old(trace), trace)
      ensures At() == if ok then Report(v, o) else Idle
      ensures !ok ==> LastErrs(trace)
    {
      ok := ApplyChangeset(v, o);
      if ok {
        ok := WriteWorkload(v, o);
      }
    }

    method WriteWorkload(v: App, ghost o: Outcome) returns (ok: bool)
      requires Valid() && At() == if v.spec.port > 0 then GetService(v, o) else GetDeployment(v, o)
      modifies `cluster, `trace
      ensures Valid() && Continues(old(trace), trace)
      ensures At() == if ok then Report(v, o) else Idle
      ensures !ok ==> LastErrs(trace)
    {
      if v.spec.port > 0 {
        ok := WriteService(v, o);
        if !ok {
          return;
        }
      }
      ok := WriteDeployment(v, o);
    }

    method ApplyChangeset(v: App, ghost o: Outcome) returns (ok: bool)
      requires Valid() && At() == Cleaning(v, [], o)
      modifies `cluster, `trace
      ensures Valid() && Continues(old(trace), trace)
      ensures At() == if !ok then Idle else if v.spec.port > 0 then GetService(v, o) else GetDeployment(v, o)
      ensures !ok ==> LastErrs(trace)
    {
      Interfere(turns(AtApply).edits);
      ok := !Seen(turns(AtApply).reply).Fail?;
      Answer();
    }

    method DeleteWorkload(v: App) returns (ok: bool)
      requires Valid() && At() == DelDeployment(v)
      modifies `cluster, `trace
      ensures Valid() && At() == (if ok then DelExtensions(v) else Idle) && Continues(old(trace), trace)
      ensures !ok ==> LastErrs(trace)
    {
      ok := DeleteDeployment(v);
      if ok {
        ok := DeleteService(v);
      }
    }

    // ---------------------------------------------------------------- one pass

    /** Recorded extensions that did not run are deleted one by one; a failure keeps them listed. */
    method DeleteStale(v: App, ran: seq<string>) returns (listed: seq<string>, ghost o: Outcome)
      requires Valid() && At() == Cleaning(v, v.status.extensions, Outcome(ran, [], {}, {}))
      modifies `cluster, `trace
      ensures Valid() && Continues(old(trace), trace)
      ensures At() == Cleaning(v, [], o) && listed == Listed(o)
    {
      listed := ran;
      o := Outcome(ran, [], {}, {});
      assert Listed(o) == ran;
      for i := 0 to |v.status.extensions|
        invariant Valid() && Continues(old(trace), trace)
        invariant At() == Cleaning(v, v.status.extensions[i..], o) && listed == Listed(o)
      {
        listed, o := DeleteOne(v, v.status.extensions[i..], o, listed, v.status.extensions[i]);
        assert v.status.extensions[i..][1..] == v.status.extensions[i + 1..];
      }
    }

    method DeleteOne(v: App, ghost todo: seq<string>, ghost o: Outcome, listed: seq<string>, name: string)
        returns (listed': seq<string>, ghost o': Outcome)
      requires Valid() && At() == Cleaning(v, todo, o) && listed == Listed(o) && todo != [] && todo[0] == name
      modifies `cluster, `trace
      ensures Valid() && Continues(old(trace), trace)
      ensures At() == Cleaning(v, todo[1..], o') && listed' == Listed(o')
    {
      listed' := listed;
      if name !in listed {
        Interfere(turns(AtCleaning(name)).edits);
        if !DeleteSucceeds(cluster.registry, {name}, Seen(turns(AtCleaning(name)).reply)) {
          listed' := listed + [name];
        }
      }
      Answer();
      o' := At().o;
    }

    /** Deployment, Service and extensions are cleaned up before the finalizer goes. */
    method Delete(v: App) returns (err: bool)
      requires Valid() && At() == DelDeployment(v)
      modifies `cluster, `trace
      ensures Valid() && At().Idle? && Continues(old(trace), trace) && err == LastErrs(trace)
    {
      var ok := DeleteWorkload(v);
      if !ok {
        return true;
      }
      ok := DeleteFromExtensions(v);
      if !ok {
        return true;
      }
      err := Update(v, false);
    }

    /** Either way through a pass ends with the status, written only if it changed. */
    method Finish(v: App, extensions: seq<string>, ghost o: Option<Outcome>, site: Site) returns (err: bool)
      requires Valid() && SiteOf(At()) == site
      requires o.None? ==> At() == Refresh(v) && extensions == v.status.extensions
      requires o.Some? ==> At() == Report(v, o.value) && extensions == Listed(o.value)
      modifies `cluster, `trace
      ensures Valid() && At().Idle? && Continues(old(trace), trace) && err == LastErrs(trace)
    {
      var s, changes := UpdateStatus(v, extensions, o, site);
      err := false;
      if changes {
        err := UpdateStatusOf(v, s, o);
      }
    }

    /** What follows when spec or labels changed, or the workload is missing. */
    method Apply(v: App) returns (err: bool)
      requires Valid() && At() == Syncing(v)
      modifies `cluster, `trace
      ensures Valid() && At().Idle? && Continues(old(trace), trace) && err == LastErrs(trace)
    {
      var ran, ok := Sync(v);
      if !ok {
        return true;
      }
      var listed, o := DeleteStale(v, ran);
      err := Save(v, listed, o);
    }

    method Save(v: App, listed: seq<string>, ghost o: Outcome) returns (err: bool)
      requires Valid() && At() == Cleaning(v, [], o) && listed == Listed(o)
      modifies `cluster, `trace
      ensures Valid() && At().Idle? && Continues(old(trace), trace) && err == LastErrs(trace)
    {
      var ok := CreateOrUpdate(v, o);
      if !ok {
        return true;
      }
      err := Finish(v, listed, Some(o), AtReport);
    }

    method Pass() returns (err: bool)
      requires Valid() && trace.fetch.None?
      modifies `cluster, `trace
      ensures Valid() && At().Idle? && trace.fetch.Some? && err == LastErrs(trace)
      ensures Continues(old(trace).(fetch := trace.fetch), trace)
    {
      var got;
      got, err := Get();
      if got.None? || (got.value.deleting && !got.value.finalizer) {
        return;
      }
      var v := got.value;
      if v.deleting {
        err := Delete(v);
      } else if !v.finalizer {
        err := Update(v, true);
      } else {
        err := Sustain(v);
      }
    }

    /** The pass over an object that carries the finalizer and is not being deleted. */
    method Sustain(v: App) returns (err: bool)
      requires Valid() && v.finalizer && !v.deleting && At() == Fetched(v)
      modifies `cluster, `trace
      ensures Valid() && At().Idle? && Continues(old(trace), trace) && err == LastErrs(trace)
    {
      var modified, ok := IsModified(v);
      if !ok {
        return true;
      }
      if modified {
        err := Apply(v);
      } else {
        err := Finish(v, v.status.extensions, None, AtRefresh);
      }
    }

    /**
     * One pass, with `script` for what happens at its calls: the moves made are exactly those of one
     * pass of the machine, from fetching the object to coming to rest, and every state gone through is
     * safe. An error is returned, and the object queued again, exactly when the last call stopped
     * short; without one the pass has achieved on the object it fetched what it is for.
     */
    method Reconcile(script: Site -> Turn) returns (err: bool)
      requires Valid() && At().Idle?
      modifies this
      ensures Valid() && At().Idle? && old(trace.ws) <= trace.ws && old(trace.ms) <= trace.ms
      ensures trace.fetch.Some? && OnePass(trace.ws, trace.ms, |old(trace.ms)|, trace.fetch, script)
      ensures EndsShortOrWell(trace.ws, trace.ms, trace.fetch.value, err)
      ensures forall i :: 0 <= i < |trace.ws| ==> ReconcilingSafety.Safe(trace.ws[i].cluster)
    {
      turns, trace := script, trace.(start := |trace.ms|, fetch := None, turns := script);
      err := Pass();
      EndsAsItShould(trace, err);
      SafeThroughout(trace);
    }
  }

  /**
   * The pass from `f` on ended in an error exactly when its last call stopped short, and achieved
   * without one, on the object it fetched, what it is for.
   */
  ghost predicate EndsShortOrWell(ws: seq<World>, ms: seq<Move>, f: nat, err: bool) {
    && |ws| == |ms| + 1 && f < |ms|
    && var last := |ms| - 1;
       && ms[last].Call? && (err <==> StopsShort(ws[last], ms[last].reply))
       && (!err && ws[f].cluster.app.Some? ==>
             Achieved(ws[f].cluster.app.value, ws[last].cluster, ws[|ms|].cluster))
  }

  lemma {:induction false} EndsAsItShould(t: Trace, err: bool)
    requires Now(t).pc.Idle? && t.fetch.Some? && err == LastErrs(t)
    ensures EndsShortOrWell(t.ws, t.ms, t.fetch.value, err)
  {
    LastIsCall(t);
    ErrorIffStopsShort(t.ws[|t.ms| - 1], t.ms[|t.ms| - 1].reply);
    PassAchieves(t.ws, t.ms, t.fetch.value);
  }

  lemma {:induction false} SafeThroughout(t: Trace)
    ensures forall i :: 0 <= i < |t.ws| ==> ReconcilingSafety.Safe(t.ws[i].cluster)
  {
    ReconcilingSafety.InvInEveryRun(t.ws, t.ms);
    forall i | 0 <= i < |t.ws| ensures ReconcilingSafety.Safe(t.ws[i].cluster) {
      assert ReconcilingSafety.Inv(t.ws[i]);
    }
  }

  /** Others' edits do not bring a pass to rest. */
  lemma LastIsCall(t: Trace)
    requires Now(t).pc.Idle? && t.fetch.Some?
    ensures t.ms != [] && WholePass(t.ws, t.ms, t.fetch.value)
  {
    var last := |t.ms| - 1;
    assert Now(t) == Next(t.ws[last], t.ms[last]);
  }
}
