/** The extension manager: one generator per kind, the registered extensions, and who gets which keys. */
module ExtensionManager {
  import opened Collections
  import opened SchemaTree
  import SG = SpecGen
  import opened SpecGenRuns

  /** A registered extension: the kinds it targets and the schema it brings. */
  datatype Extension = Extension(name: string, targets: seq<string>, raw: Raw, hasController: bool)

  /** What happens outside the manager when an extension is added to one target: whether its
      controller can be dialled or its image fetched, and whether it can then be set up. */
  datatype Wiring = Wiring(connects: bool, initialises: bool)

  /** The state of the generators by kind, and the extensions by name. */
  datatype Manager = Manager(spec: map<string, State>, extensions: map<string, Extension>)

  // ---------------------------------------------------------------- successful adds and removes

  function AddedTo(s: State, name: string, root: Node): State {
    var mid := Removed(s, name);
    State(SG.Merge(mid.spec, root), mid.applied[name := root])
  }

  /** The first `i` targets, one after the other. */
  function AddedUpTo(spec: map<string, State>, targets: seq<string>, name: string, raw: Raw, i: nat)
      : (r: map<string, State>)
    requires i <= |targets|
    ensures r.Keys == spec.Keys
  {
    if i == 0 then spec
    else
      var r, t := AddedUpTo(spec, targets, name, raw, i - 1), targets[i - 1];
      if t in r && raw.Parsed? then r[t := AddedTo(r[t], name, raw.root)] else r
  }

  /** Each of the first `i` targets is known and its generator takes the schema when its turn comes. */
  predicate Accepts(spec: map<string, State>, targets: seq<string>, name: string, raw: Raw, i: nat)
    requires i <= |targets|
  {
    i > 0 ==>
      && Accepts(spec, targets, name, raw, i - 1)
      && targets[i - 1] in spec
      && Succeeds(AddedUpTo(spec, targets, name, raw, i - 1)[targets[i - 1]], Op.Add(name, raw))
  }

  function RemovedUpTo(spec: map<string, State>, targets: seq<string>, name: string, i: nat): (r: map<string, State>)
    requires i <= |targets|
    ensures r.Keys == spec.Keys
  {
    if i == 0 then spec
    else
      var r, t := RemovedUpTo(spec, targets, name, i - 1), targets[i - 1];
      if t in r then r[t := Removed(r[t], name)] else r
  }

  /** The generators are held by kind; each operation works on the one of its target. */
  class ExtensionManager {
    var spec: map<string, State>
    var extensions: map<string, Extension>

    constructor (generators: map<string, State>)
      ensures spec == generators && extensions == map[]
    {
      spec := generators;
      extensions := map[];
    }

    /**
     * One target: the controller is contacted, the generator found and the schema merged into it.
     * If the extension then cannot be set up, its schema stays although it is not registered.
     */
    method AddTo(ext: Extension, target: string, w: Wiring) returns (ok: bool)
      modifies this
      ensures ok <==> ext.hasController && w.connects && Takes(old(spec), ext, target) && w.initialises
      ensures ext.hasController && w.connects && Takes(old(spec), ext, target) ==>
        ext.raw.Parsed? && spec == old(spec)[target := AddedTo(old(spec)[target], ext.name, ext.raw.root)]
      ensures extensions == if ok then old(extensions)[ext.name := ext] else old(extensions)
      ensures Stopped(old(spec), spec, ext, target, w)
    {
      if !ext.hasController || !w.connects || target !in spec {
        return false;
      }
      var g := new Generator.In(spec[target]);
      ok := g.Add(ext.name, ext.raw);
      if ok {
        SuccessfulAdd(spec[target], ext.name, ext.raw, g.Current());
      }
      spec := spec[target := g.Current()];
      if ok {
        if !w.initialises {
          return false;
        }
        extensions := extensions[ext.name := ext];
      }
    }

    /**
     * Adding to each target in turn. A failure at one target leaves the earlier ones added, and the
     * extension registered if there are any, and that one's generator as its own `Add` leaves it.
     */
    method Add(ext: Extension, ws: seq<Wiring>) returns (ok: bool)
      requires |ws| == |ext.targets|
      modifies this
      ensures ok <==> Wired(ext, ws) && Accepts(old(spec), ext.targets, ext.name, ext.raw, |ext.targets|)
      ensures ok ==> spec == AddedUpTo(old(spec), ext.targets, ext.name, ext.raw, |ext.targets|)
      ensures ok ==> extensions == if ext.targets == [] then old(extensions) else old(extensions)[ext.name := ext]
      ensures !ok ==> exists i ::
        && 0 <= i < |ext.targets| && StoppedAt(old(spec), spec, ext, ws, i)
        && extensions == if i == 0 then old(extensions) else old(extensions)[ext.name := ext]
    {
      for i := 0 to |ext.targets|
        invariant AddProgress(old(spec), spec, ext, i)
        invariant (i > 0 ==> ext.hasController) && forall j :: 0 <= j < i ==> ws[j] == Wiring(true, true)
        invariant extensions == if i == 0 then old(extensions) else old(extensions)[ext.name := ext]
      {
        AddStep(old(spec), spec, ext, i);
        ok := AddTo(ext, ext.targets[i], ws[i]);
        if !ok {
          assert StoppedAt(old(spec), spec, ext, ws, i);
          return;
        }
      }
      ok := true;
    }

    /** Removing from each target in turn, up to the first unknown one. */
    method Remove(ext: Extension) returns (ok: bool)
      modifies this
      ensures ok <==> forall t :: t in ext.targets ==> t in old(spec)
      ensures ok ==> spec == RemovedUpTo(old(spec), ext.targets, ext.name, |ext.targets|)
      ensures !ok ==> exists i ::
        && 0 <= i < |ext.targets| && ext.targets[i] !in old(spec)
        && (forall j :: 0 <= j < i ==> ext.targets[j] in old(spec))
        && spec == RemovedUpTo(old(spec), ext.targets, ext.name, i)
      ensures extensions == if ok then old(extensions) - {ext.name} else old(extensions)
      ensures spec.Keys == old(spec).Keys && forall t :: t in spec && t !in ext.targets ==> spec[t] == old(spec)[t]
    {
      for i := 0 to |ext.targets|
        invariant extensions == old(extensions)
        invariant forall j :: 0 <= j < i ==> ext.targets[j] in spec
        invariant spec == RemovedUpTo(old(spec), ext.targets, ext.name, i)
        invariant forall t :: t in spec && t !in ext.targets ==> spec[t] == old(spec)[t]
      {
        var target := ext.targets[i];
        if target !in spec {
          return false;
        }
        var g := new Generator.In(spec[target]);
        g.Remove(ext.name);
        spec := spec[target := g.Current()];
      }
      extensions := extensions - {ext.name};
      ok := true;
    }

    /** The registered extensions that target a kind, each once, in arbitrary order. */
    method ExtensionsFor(kind: string) returns (names: seq<string>)
      ensures forall n :: n in names <==> n in extensions && kind in extensions[n].targets
      ensures forall i, j :: 0 <= i < j < |names| ==> names[i] != names[j]
    {
      names := [];
      var todo := extensions.Keys;
      while todo != {}
        invariant todo <= extensions.Keys
        invariant forall n :: n in names <==> n in extensions && n !in todo && kind in extensions[n].targets
        invariant forall i, j :: 0 <= i < j < |names| ==> names[i] != names[j]
      {
        var n :| n in todo;
        if kind in extensions[n].targets {
          names := names + [n];
        }
        todo := todo - {n};
      }
    }
  }

  lemma SuccessfulAdd(s: State, name: string, raw: Raw, s': State)
    requires Succeeds(s, Op.Add(name, raw)) && Step(s, Op.Add(name, raw), s')
    ensures raw.Parsed? && s' == AddedTo(s, name, raw.root)
  {
  }

  /** What an attempt at one target may do to the generators. */
  ghost predicate Stopped(before: map<string, State>, now: map<string, State>, ext: Extension, target: string,
                          w: Wiring)
  {
    && now.Keys == before.Keys
    && (forall t :: t in now && t != target ==> now[t] == before[t])
    && (target in now ==>
          if ext.hasController && w.connects then Step(before[target], Op.Add(ext.name, ext.raw), now[target])
          else now[target] == before[target])
  }

  /** The targets before the `i`-th took the extension and that one did not, or could not be set up. */
  ghost predicate StoppedAt(s0: map<string, State>, now: map<string, State>, ext: Extension, ws: seq<Wiring>, i: nat)
    requires i < |ext.targets| == |ws|
  {
    var before := AddedUpTo(s0, ext.targets, ext.name, ext.raw, i);
    && Accepts(s0, ext.targets, ext.name, ext.raw, i)
    && !(ext.hasController && Takes(before, ext, ext.targets[i]) && ws[i] == Wiring(true, true))
    && Stopped(before, now, ext, ext.targets[i], ws[i])
  }

  predicate Wired(ext: Extension, ws: seq<Wiring>) {
    (ws != [] ==> ext.hasController) && forall j :: 0 <= j < |ws| ==> ws[j] == Wiring(true, true)
  }

  /** Targets before `i` took the extension, which brought the generators from `s0` to `now`. */
  predicate AddProgress(s0: map<string, State>, now: map<string, State>, ext: Extension, i: nat)
    requires i <= |ext.targets|
  {
    Accepts(s0, ext.targets, ext.name, ext.raw, i) && now == AddedUpTo(s0, ext.targets, ext.name, ext.raw, i)
  }

  predicate Takes(now: map<string, State>, ext: Extension, target: string) {
    target in now && Succeeds(now[target], Op.Add(ext.name, ext.raw))
  }

  lemma AddStep(s0: map<string, State>, now: map<string, State>, ext: Extension, i: nat)
    requires i < |ext.targets| && AddProgress(s0, now, ext, i)
    ensures Takes(now, ext, ext.targets[i]) ==>
      && ext.raw.Parsed?
      && AddProgress(s0, now[ext.targets[i] := AddedTo(now[ext.targets[i]], ext.name, ext.raw.root)], ext, i + 1)
    ensures !Takes(now, ext, ext.targets[i]) ==> !Accepts(s0, ext.targets, ext.name, ext.raw, |ext.targets|)
  {
    RejectedPrefix(s0, ext, i + 1);
  }

  lemma {:induction false} RejectedPrefix(spec: map<string, State>, ext: Extension, i: nat)
    requires i <= |ext.targets|
    ensures Accepts(spec, ext.targets, ext.name, ext.raw, |ext.targets|) ==>
      Accepts(spec, ext.targets, ext.name, ext.raw, i)
    decreases |ext.targets| - i
  {
    if i < |ext.targets| {
      RejectedPrefix(spec, ext, i + 1);
    }
  }

  /** The extension's root keys: the properties of its schema. */
  function RootKeys(e: Extension): set<string> {
    if e.raw.Parsed? then Children(e.raw.root).Keys else {}
  }

  /** The keys of an object's spec that an extension declares, with their values. */
  function Selected<V>(v: map<string, V>, rootKeys: set<string>): map<string, V> {
    map k | k in v && k in rootKeys :: v[k]
  }

  /** `createOrUpdateRequest`: the part of an object's spec that goes to one extension. */
  method RequestData<V>(v: map<string, V>, rootKeys: set<string>) returns (data: map<string, V>)
    ensures data == Selected(v, rootKeys)
    ensures forall k :: (k in data <==> k in v && k in rootKeys) && (k in data ==> data[k] == v[k])
  {
    data := map[];
    var todo := v.Keys;
    while todo != {}
      invariant todo <= v.Keys
      invariant data.Keys == (v.Keys - todo) * rootKeys
      invariant forall k :: k in data ==> data[k] == v[k]
    {
      var key :| key in todo;
      if key in rootKeys {
        data := data[key := v[key]];
      }
      todo := todo - {key};
    }
    assert data.Keys == Selected(v, rootKeys).Keys;
  }

  // ---------------------------------------------------------------- runs of clean operations

  datatype ManagerOp = AddExt(ext: Extension) | RemoveExt(ext: Extension)

  /** Each target takes the extension, and nothing gets hidden below a leaf. */
  ghost predicate CleanAdd(spec: map<string, State>, e: Extension, i: nat)
    requires i <= |e.targets|
  {
    i > 0 ==>
      && CleanAdd(spec, e, i - 1)
      && e.targets[i - 1] in spec
      && CleanOp(AddedUpTo(spec, e.targets, e.name, e.raw, i - 1)[e.targets[i - 1]], Op.Add(e.name, e.raw))
  }

  /** The operation succeeds, and an extension that is registered keeps its targets. */
  ghost predicate Clean(m: Manager, op: ManagerOp) {
    var e := op.ext;
    && (forall t :: t in e.targets ==> t in m.spec)
    && (e.name in m.extensions ==> forall t :: t in m.extensions[e.name].targets <==> t in e.targets)
    && (op.AddExt? ==> e.raw.Parsed? && e.targets != [] && CleanAdd(m.spec, e, |e.targets|))
  }

  /** On a clean operation `Add` succeeds if the controllers can be reached, and does what `Done` says. */
  lemma {:induction false} CleanIsAccepted(spec: map<string, State>, e: Extension, i: nat)
    requires i <= |e.targets| && CleanAdd(spec, e, i)
    ensures Accepts(spec, e.targets, e.name, e.raw, i)
  {
    if i > 0 {
      CleanIsAccepted(spec, e, i - 1);
    }
  }

  ghost function Done(m: Manager, op: ManagerOp): Manager {
    match op
    case AddExt(e) =>
      Manager(AddedUpTo(m.spec, e.targets, e.name, e.raw, |e.targets|), m.extensions[e.name := e])
    case RemoveExt(e) =>
      Manager(RemovedUpTo(m.spec, e.targets, e.name, |e.targets|), m.extensions - {e.name})
  }

  /** For kind `t`, the generator has applied exactly the registered extensions that target it. */
  ghost predicate InStep(m: Manager, t: string, name: string)
    requires t in m.spec
  {
    && (name in m.spec[t].applied <==> name in m.extensions && t in m.extensions[name].targets)
    && (name in m.spec[t].applied ==>
          m.extensions[name].raw == Parsed(m.spec[t].applied[name]) && m.extensions[name].name == name)
  }

  ghost predicate Consistent(bases: map<string, Node>, m: Manager) {
    && m.spec.Keys == bases.Keys
    && (forall t :: t in m.spec ==> LeafUnion(bases[t], m.spec[t]))
    && forall t, name :: t in m.spec ==> InStep(m, t, name)
  }

  lemma {:induction false} AddApplies(spec: map<string, State>, e: Extension, i: nat, t: string)
    requires i <= |e.targets| && t in spec && e.raw.Parsed?
    ensures AddedUpTo(spec, e.targets, e.name, e.raw, i)[t].applied ==
      if t in e.targets[..i] then spec[t].applied[e.name := e.raw.root] else spec[t].applied
  {
    if i > 0 {
      AddApplies(spec, e, i - 1, t);
      assert e.targets[..i] == e.targets[..i - 1] + [e.targets[i - 1]];
    }
  }

  lemma {:induction false} AddKeepsUnion(base: Node, spec: map<string, State>, e: Extension, i: nat, t: string)
    requires i <= |e.targets| && CleanAdd(spec, e, i)
    requires t in spec && LeafUnion(base, spec[t]) && e.raw.Parsed?
    ensures LeafUnion(base, AddedUpTo(spec, e.targets, e.name, e.raw, i)[t])
  {
    if i > 0 {
      AddKeepsUnion(base, spec, e, i - 1, t);
      if e.targets[i - 1] == t {
        var s := AddedUpTo(spec, e.targets, e.name, e.raw, i - 1)[t];
        UnionKept(base, s, Op.Add(e.name, e.raw), AddedTo(s, e.name, e.raw.root));
      }
    }
  }

  lemma {:induction false} RemoveApplies(spec: map<string, State>, e: Extension, i: nat, t: string)
    requires i <= |e.targets| && t in spec
    ensures RemovedUpTo(spec, e.targets, e.name, i)[t].applied ==
      if t in e.targets[..i] then spec[t].applied - {e.name} else spec[t].applied
  {
    if i > 0 {
      RemoveApplies(spec, e, i - 1, t);
      assert e.targets[..i] == e.targets[..i - 1] + [e.targets[i - 1]];
    }
  }

  lemma {:induction false} RemoveKeepsUnion(base: Node, spec: map<string, State>, e: Extension, i: nat, t: string)
    requires i <= |e.targets| && t in spec && LeafUnion(base, spec[t])
    ensures LeafUnion(base, RemovedUpTo(spec, e.targets, e.name, i)[t])
  {
    if i > 0 {
      RemoveKeepsUnion(base, spec, e, i - 1, t);
      if e.targets[i - 1] == t {
        UnionKeptByRemove(base, RemovedUpTo(spec, e.targets, e.name, i - 1)[t], e.name);
      }
    }
  }

  lemma {:induction false} OpKeepsConsistent(bases: map<string, Node>, m: Manager, op: ManagerOp)
    requires Consistent(bases, m) && Clean(m, op)
    ensures Consistent(bases, Done(m, op))
  {
    var e := op.ext;
    var m' := Done(m, op);
    forall t | t in m'.spec ensures LeafUnion(bases[t], m'.spec[t]) {
      assert LeafUnion(bases[t], m.spec[t]);
      if op.AddExt? {
        AddKeepsUnion(bases[t], m.spec, e, |e.targets|, t);
      } else {
        RemoveKeepsUnion(bases[t], m.spec, e, |e.targets|, t);
      }
    }
    forall t, name | t in m'.spec ensures InStep(m', t, name) {
      OpKeepsInStep(m, op, t, name);
    }
  }

  lemma {:induction false} OpKeepsInStep(m: Manager, op: ManagerOp, t: string, name: string)
    requires Clean(m, op) && t in m.spec && InStep(m, t, name) && InStep(m, t, op.ext.name)
    ensures InStep(Done(m, op), t, name)
  {
    var e := op.ext;
    if op.AddExt? {
      AddApplies(m.spec, e, |e.targets|, t);
    } else {
      RemoveApplies(m.spec, e, |e.targets|, t);
    }
    assert e.targets[..|e.targets|] == e.targets;
  }

  ghost predicate IsManagerRun(bases: map<string, Node>, managers: seq<Manager>, ops: seq<ManagerOp>) {
    && |managers| == |ops| + 1
    && managers[0] == Manager(map t | t in bases :: State(bases[t], map[]), map[])
    && forall i :: 0 <= i < |ops| ==> Clean(managers[i], ops[i]) && managers[i + 1] == Done(managers[i], ops[i])
  }

  lemma {:induction false} ConsistentInEveryRun(bases: map<string, Node>, managers: seq<Manager>, ops: seq<ManagerOp>)
    requires IsManagerRun(bases, managers, ops)
    ensures forall i :: 0 <= i < |managers| ==> Consistent(bases, managers[i])
  {
    forall t | t in bases ensures LeafUnion(bases[t], State(bases[t], map[])) {
      UnionInitially(bases[t]);
    }
    var n := 0;
    while n < |ops|
      invariant 0 <= n <= |ops|
      invariant forall i :: 0 <= i <= n ==> Consistent(bases, managers[i])
    {
      OpKeepsConsistent(bases, managers[n], ops[n]);
      n := n + 1;
    }
  }

  /** On a clean add with working controllers `Add` succeeds, and its outcome is consistent. */
  lemma {:induction false} CleanAddSucceeds(bases: map<string, Node>, m: Manager, e: Extension, ws: seq<Wiring>)
    requires Consistent(bases, m) && Clean(m, AddExt(e)) && |ws| == |e.targets| && Wired(e, ws)
    ensures Wired(e, ws) && Accepts(m.spec, e.targets, e.name, e.raw, |e.targets|)
    ensures
      var spec := AddedUpTo(m.spec, e.targets, e.name, e.raw, |e.targets|);
      Consistent(bases, Manager(spec, m.extensions[e.name := e]))
  {
    CleanIsAccepted(m.spec, e, |e.targets|);
    OpKeepsConsistent(bases, m, AddExt(e));
  }

  /** The extension declares the leaf, and is sent exactly an object's values for the keys it declares. */
  ghost predicate GetsField<V>(e: Extension, p: Path, v: map<string, V>) {
    && e.raw.Parsed? && IsLeaf(e.raw.root, p) && Has(e.raw.root, [p[0]])
    && var sent := Selected(v, RootKeys(e));
       forall k :: (k in sent <==> k in v && Has(e.raw.root, [k])) && (k in sent ==> sent[k] == v[k])
  }

  lemma {:induction false} DeclaredAreRootKeys(e: Extension, p: Path)
    requires e.raw.Parsed? && IsLeaf(e.raw.root, p)
    ensures p[0] in RootKeys(e) && forall k :: k in RootKeys(e) <==> Has(e.raw.root, [k])
  {
    forall k ensures k in RootKeys(e) <==> Has(e.raw.root, [k]) {
      AtCons(e.raw.root, k, []);
      assert [k] + [] == [k];
    }
  }

  /** Some registered extension that targets the kind declares the leaf and gets its values. */
  ghost predicate GoesToExtension<V>(m: Manager, kind: string, p: Path, v: map<string, V>) {
    exists name ::
      name in m.extensions && kind in m.extensions[name].targets && GetsField(m.extensions[name], p, v)
  }

  /**
   * In every run of clean operations, the leaves of a kind's published schema are those of the base
   * and of the extensions that `ExtensionsFor` returns for the kind; and for every object of the kind
   * the request to such an extension carries the object's value for the leaf's root key, and for
   * every other key the extension declares, unchanged, and no other key.
   */
  lemma {:induction false} EveryFieldIsDispatched<V>(
      bases: map<string, Node>, managers: seq<Manager>, ops: seq<ManagerOp>, i: nat, kind: string, p: Path,
      v: map<string, V>)
    requires IsManagerRun(bases, managers, ops) && i < |managers| && kind in managers[i].spec
    ensures kind in bases
    ensures IsLeaf(managers[i].spec[kind].spec, p) <==>
      IsLeaf(bases[kind], p) || GoesToExtension(managers[i], kind, p, v)
  {
    ConsistentInEveryRun(bases, managers, ops);
    var m := managers[i];
    assert Consistent(bases, m) && LeafUnion(bases[kind], m.spec[kind]);
    if IsLeaf(m.spec[kind].spec, p) {
      var o :| Declares(bases[kind], m.spec[kind], o, p);
      if o.Ext? {
        assert InStep(m, kind, o.name);
        DeclaredAreRootKeys(m.extensions[o.name], p);
        assert GetsField(m.extensions[o.name], p, v);
      }
    } else if GoesToExtension(m, kind, p, v) {
      var name :|
        name in m.extensions && kind in m.extensions[name].targets && GetsField(m.extensions[name], p, v);
      assert InStep(m, kind, name) && Declares(bases[kind], m.spec[kind], Ext(name), p);
    } else {
      assert !Declares(bases[kind], m.spec[kind], Base, p);
    }
  }
}
