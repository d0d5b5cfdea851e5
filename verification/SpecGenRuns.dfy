/** Whole runs of the generator: every sequence of adds, re-adds and removes. */
module SpecGenRuns {
  import opened Collections
  import opened SchemaTree
  import opened SpecGen
  import opened SpecGenLaws

  /** An extension's raw schema, as decoding finds it. */
  datatype Raw = Malformed | Parsed(root: Node)

  /** The `spec` subtree of the custom resource and the schemas currently applied to it. */
  datatype State = State(spec: Node, applied: map<string, Node>)

  datatype Op = Add(name: string, raw: Raw) | Remove(name: string)

  // ---------------------------------------------------------------- one operation

  function Removed(s: State, name: string): State {
    if name in s.applied then State(Without(s.spec, s.applied[name]), s.applied - {name}) else s
  }

  /** An add first takes out what the name had applied before, also when it then fails. */
  predicate Succeeds(s: State, op: Op) {
    match op
    case Remove(_) => true
    case Add(name, Malformed) => false
    case Add(name, Parsed(e)) => !Clashes(Removed(s, name).spec, e)
  }

  ghost predicate Step(s: State, op: Op, s': State) {
    match op
    case Remove(name) => s' == Removed(s, name)
    case Add(name, Malformed) => s' == Removed(s, name)
    case Add(name, Parsed(e)) =>
      var mid := Removed(s, name);
      if Clashes(mid.spec, e) then s'.applied == mid.applied && FailsWith(mid.spec, e, s'.spec)
      else s' == State(Merge(mid.spec, e), mid.applied[name := e])
  }

  // ---------------------------------------------------------------- what an operation comes to, path by path

  /** Taking out what `name` has applied deletes the path: a leaf of that schema covers it, or its root
      object keeps no property. */
  ghost predicate Goes(s: State, name: string, p: Path) {
    name in s.applied && s.applied[name].properties.Entries? &&
    (Covered(s.applied[name], p) || (p != [] && PrunedKey(s.spec, s.applied[name], p[0])))
  }

  ghost function Remaining(s: State, name: string, p: Path): Option<Label> {
    if Goes(s, name, p) then None else At(s.spec, p)
  }

  /** Some leaf of the new schema lands on a path that remains of the old tree. */
  ghost predicate Collides(s: State, name: string, e: Node) {
    exists p :: IsLeaf(e, p) && Remaining(s, name, p).Some?
  }

  /** What remains is left as it was, nothing else is there, and the name is no longer applied. */
  ghost predicate TakenOut(s: State, name: string, s': State) {
    && (forall n :: n in s'.applied <==> n in s.applied && n != name)
    && (forall n :: n in s'.applied ==> s'.applied[n] == s.applied[n])
    && forall p: Path :: At(s'.spec, p) == Remaining(s, name, p)
  }

  /** What remains is left as it was, the schema's own paths are added, and the name is applied. */
  ghost predicate PutIn(s: State, name: string, e: Node, s': State) {
    && (forall n :: n in s'.applied <==> n in s.applied || n == name)
    && (forall n :: n in s'.applied ==> s'.applied[n] == if n == name then e else s.applied[n])
    && forall p: Path :: At(s'.spec, p) == if Remaining(s, name, p).Some? then Remaining(s, name, p) else At(e, p)
  }

  /** The name is no longer applied; what remains is left as it was; some paths of the schema may be there. */
  ghost predicate LeftOver(s: State, name: string, e: Node, s': State) {
    && (forall n :: n in s'.applied <==> n in s.applied && n != name)
    && (forall n :: n in s'.applied ==> s'.applied[n] == s.applied[n])
    && (forall p: Path :: Remaining(s, name, p).Some? ==> At(s'.spec, p) == Remaining(s, name, p))
    && forall p: Path :: Remaining(s, name, p).None? && Has(s'.spec, p) ==> At(s'.spec, p) == At(e, p)
  }

  ghost predicate Outcome(s: State, op: Op, s': State) {
    match op
    case Remove(name) => TakenOut(s, name, s')
    case Add(name, Malformed) => TakenOut(s, name, s')
    case Add(name, Parsed(e)) => if Collides(s, name, e) then LeftOver(s, name, e, s') else PutIn(s, name, e, s')
  }

  lemma {:induction false} RemainsAt(s: State, name: string, p: Path)
    ensures At(Removed(s, name).spec, p) == Remaining(s, name, p)
  {
    if name in s.applied {
      if s.applied[name].properties.Entries? {
        WithoutAt(s.spec, s.applied[name], p);
      }
    }
  }

  lemma {:induction false} CollidesIff(s: State, name: string, e: Node)
    ensures Collides(s, name, e) <==> Clashes(Removed(s, name).spec, e)
  {
    ClashIsLeafOnExistingName(Removed(s, name).spec, e);
    forall p ensures Has(Removed(s, name).spec, p) <==> Remaining(s, name, p).Some? {
      RemainsAt(s, name, p);
    }
  }

  /**
   * Every operation, read off path by path: a remove, and an add that fails to decode its schema, take
   * out what the name had applied; an add succeeds exactly when no leaf of the new schema lands on what
   * remains.
   */
  lemma {:induction false} StepHasOutcome(s: State, op: Op, s': State)
    requires Step(s, op, s')
    ensures Outcome(s, op, s')
    ensures Succeeds(s, op) <==> op.Remove? || (op.raw.Parsed? && !Collides(s, op.name, op.raw.root))
  {
    if op.Add? && op.raw.Parsed? {
      CollidesIff(s, op.name, op.raw.root);
      ParsedOutcome(s, op.name, op.raw.root, s');
    } else {
      forall p: Path ensures At(s'.spec, p) == Remaining(s, op.name, p) {
        RemainsAt(s, op.name, p);
      }
    }
  }

  lemma {:induction false} ParsedOutcome(s: State, name: string, e: Node, s': State)
    requires Step(s, Add(name, Parsed(e)), s')
    ensures if Clashes(Removed(s, name).spec, e) then LeftOver(s, name, e, s') else PutIn(s, name, e, s')
  {
    var mid := Removed(s, name);
    forall p: Path
      ensures
        if Clashes(mid.spec, e) then
          (if Remaining(s, name, p).Some? then At(s'.spec, p) == Remaining(s, name, p)
           else Has(s'.spec, p) ==> At(s'.spec, p) == At(e, p))
        else At(s'.spec, p) == if Remaining(s, name, p).Some? then Remaining(s, name, p) else At(e, p)
    {
      RemainsAt(s, name, p);
      if Clashes(mid.spec, e) {
        FailureAt(mid.spec, e, s'.spec, p);
      } else {
        MergeAt(mid.spec, e, p);
      }
    }
  }

  class Generator {
    var spec: Node
    var applied: map<string, Node>

    function Current(): State
      reads this
    {
      State(spec, applied)
    }

    constructor (base: Node)
      ensures Current() == State(base, map[])
    {
      spec := base;
      applied := map[];
    }

    /** A generator in a given state. */
    constructor In(s: State)
      ensures Current() == s
    {
      spec := s.spec;
      applied := s.applied;
    }

    /** An extension that is there already is taken out before its new schema is even decoded. */
    method Add(name: string, ext: Raw) returns (ok: bool)
      modifies this
      ensures ok == Succeeds(old(Current()), Op.Add(name, ext))
      ensures ok <==> ext.Parsed? && !Collides(old(Current()), name, ext.root)
      ensures Step(old(Current()), Op.Add(name, ext), Current())
      ensures Outcome(old(Current()), Op.Add(name, ext), Current())
    {
      if name in applied {
        Remove(name);
      }
      ok := ext.Parsed?;
      if ok {
        ok := Put(name, ext.root);
      }
      StepHasOutcome(old(Current()), Op.Add(name, ext), Current());
    }

    /** Merging a schema that is not applied. */
    method Put(name: string, root: Node) returns (ok: bool)
      modifies this
      ensures ok == !Clashes(old(spec), root)
      ensures
        if ok then spec == Merge(old(spec), root) && applied == old(applied)[name := root]
        else FailsWith(old(spec), root, spec) && applied == old(applied)
    {
      var merged;
      merged, ok := AddProperties(spec, root);
      if !ok {
        // The caller's copy of the root shares its property map, unless there was none to share.
        if spec.properties.Entries? {
          spec := merged;
        }
        return;
      }
      applied := applied[name := root];
      spec := merged;
    }

    method Remove(name: string)
      modifies this
      ensures Step(old(Current()), Op.Remove(name), Current())
      ensures Outcome(old(Current()), Op.Remove(name), Current())
    {
      if name in applied {
        if applied[name].properties.Entries? {
          var trimmed := RemoveProperties(spec, applied[name]);
          spec := PruneRoot(trimmed);
        }
        applied := applied - {name};
      }
      StepHasOutcome(old(Current()), Op.Remove(name), Current());
    }
  }

  // ---------------------------------------------------------------- runs

  ghost predicate IsRun(base: Node, states: seq<State>, ops: seq<Op>) {
    && |states| == |ops| + 1
    && states[0] == State(base, map[])
    && forall i :: 0 <= i < |ops| ==> Step(states[i], ops[i], states[i + 1])
  }

  /** The extension puts nothing new below a property that is not an object. */
  ghost predicate NothingBelowLeaves(t: Node, e: Node) {
    forall p: Path :: Covered(t, p) && Has(e, p) ==> Has(t, p)
  }

  /** Merging objects only onto objects is one way to keep to that. */
  predicate ObjectsOntoObjects(t: Node, e: Node)
    decreases e
  {
    forall k :: k in Children(e) && k in Children(t) && Children(e)[k].typ == OBJECT ==>
      Children(t)[k].typ == OBJECT && ObjectsOntoObjects(Children(t)[k], Children(e)[k])
  }

  lemma {:induction false} ObjectsOntoObjectsSuffices(t: Node, e: Node)
    requires !Clashes(t, e) && ObjectsOntoObjects(t, e)
    ensures NothingBelowLeaves(t, e)
  {
    forall p: Path | Covered(t, p) && Has(e, p) ensures Has(t, p) {
      BelowLeafAt(t, e, p);
    }
  }

  lemma {:induction false} BelowLeafAt(t: Node, e: Node, p: Path)
    requires !Clashes(t, e) && ObjectsOntoObjects(t, e) && Covered(t, p) && Has(e, p)
    ensures Has(t, p)
    decreases p
  {
    var k := p[0];
    assert Children(e)[k].typ == OBJECT && !Clashes(Children(t)[k], Children(e)[k]);
    BelowLeafAt(Children(t)[k], Children(e)[k], p[1..]);
  }

  /** An operation that succeeds without hiding anything below a leaf. */
  ghost predicate CleanOp(s: State, op: Op) {
    Succeeds(s, op) && (op.Add? ==> NothingBelowLeaves(Removed(s, op.name).spec, op.raw.root))
  }

  // ---------------------------------------------------------------- leaf fields are a disjoint union

  datatype Source = Base | Ext(name: string)

  predicate IsSource(s: State, o: Source) {
    o.Ext? ==> o.name in s.applied
  }

  function TreeOf(base: Node, s: State, o: Source): Node
    requires IsSource(s, o)
  {
    match o
    case Base => base
    case Ext(name) => s.applied[name]
  }

  /** `o` declares the leaf `p`. */
  predicate Declares(base: Node, s: State, o: Source, p: Path) {
    IsSource(s, o) && IsLeaf(TreeOf(base, s, o), p)
  }

  /**
   * The leaves of the schema are those of the base and of the applied schemas, each declared once,
   * and at and below each of them the schema agrees with whoever declared it.
   */
  ghost predicate LeafUnion(base: Node, s: State) {
    && (forall p :: IsLeaf(s.spec, p) <==> exists o :: Declares(base, s, o, p))
    && (forall o1, o2, p :: Declares(base, s, o1, p) && Declares(base, s, o2, p) ==> o1 == o2)
    && (forall o, p :: IsSource(s, o) && Covered(TreeOf(base, s, o), p) ==>
          At(s.spec, p) == At(TreeOf(base, s, o), p))
  }

  lemma {:induction false} MergeLeaf(t: Node, e: Node, p: Path)
    requires !Clashes(t, e) && NothingBelowLeaves(t, e)
    ensures IsLeaf(Merge(t, e), p) <==> IsLeaf(t, p) || IsLeaf(e, p)
    ensures Covered(t, p) ==> At(Merge(t, e), p) == At(t, p)
    ensures Covered(e, p) ==> At(Merge(t, e), p) == At(e, p)
    decreases p
  {
    MergeAt(t, e, p);
    if Covered(e, p) && Has(t, p) {
      CleanMergeUncovered(t, e, p);
    }
    if p != [] && p[0] in Children(t) && p[0] in Children(e) {
      var k := p[0];
      assert Children(e)[k].typ == OBJECT && !Clashes(Children(t)[k], Children(e)[k]);
      if Children(t)[k].typ == OBJECT {
        NothingBelowLeavesInChild(t, e, k);
        MergeLeaf(Children(t)[k], Children(e)[k], p[1..]);
        assert Merge(Children(t)[k], Children(e)[k]).typ == OBJECT;
      } else if IsLeaf(e, p) {
        LeafPresent(e, p);
        LeafMeets(t, e, p);
      }
    }
  }

  lemma {:induction false} NothingBelowLeavesInChild(t: Node, e: Node, k: string)
    requires NothingBelowLeaves(t, e) && k in Children(t) && k in Children(e) && Children(t)[k].typ == OBJECT
    ensures NothingBelowLeaves(Children(t)[k], Children(e)[k])
  {
    forall q: Path | Covered(Children(t)[k], q) && Has(Children(e)[k], q)
      ensures Has(Children(t)[k], q)
    {
      var p := [k] + q;
      assert p[1..] == q;
      assert Covered(t, p) && Has(e, p);
    }
  }

  lemma {:induction false} CoveredExtends(n: Node, p: Path, i: nat)
    requires i <= |p| && Covered(n, p[..i])
    ensures Covered(n, p)
  {
    if Children(n)[p[0]].typ == OBJECT {
      assert p[..i][1..] == p[1..][..i - 1];
      CoveredExtends(Children(n)[p[0]], p[1..], i - 1);
    }
  }

  lemma {:induction false} WithoutLeaf(t: Node, e: Node, p: Path)
    ensures IsLeaf(Without(t, e), p) <==> IsLeaf(t, p) && !Covered(e, p)
    ensures IsLeaf(t, p) && !Covered(e, p) && e.properties.Entries? ==> !PrunedKey(t, e, p[0])
  {
    if e.properties.NilMap? {
      WithoutNilAt(t, e, p);
      return;
    }
    LeafByPrefixes(t, p);
    LeafByPrefixes(Without(t, e), p);
    forall q: Path { WithoutAt(t, e, q); }
    if IsLeaf(t, p) && !Covered(e, p) {
      LeafNotPruned(t, e, p);
      forall i | 0 < i < |p| ensures At(Without(t, e), p[..i]) == At(t, p[..i]) {
        if Covered(e, p[..i]) { CoveredExtends(e, p, i); }
      }
    }
  }

  lemma {:induction false} LeafNotPruned(t: Node, e: Node, p: Path)
    requires IsLeaf(t, p) && !Covered(e, p)
    ensures !PrunedKey(t, e, p[0])
  {
    LeafPresent(t, p);
    if |p| == 1 {
      assert p == [p[0]];
    } else {
      assert p == [p[0], p[1]] + p[2..] && p[..2] == [p[0], p[1]];
      PrefixPresent(t, [p[0], p[1]], p[2..]);
      if Covered(e, [p[0], p[1]]) { CoveredExtends(e, p, 2); }
    }
  }

  /** Leaves of one tree do not nest. */
  lemma {:induction false} LeavesDoNotNest(n: Node, p: Path, i: nat, j: nat)
    requires i <= j <= |p| && IsLeaf(n, p[..i]) && IsLeaf(n, p[..j])
    ensures i == j
  {
    LeafByPrefixes(n, p[..i]);
    LeafByPrefixes(n, p[..j]);
    assert p[..j][..i] == p[..i];
  }

  lemma {:induction false} UnionKeptByMerge(base: Node, s: State, name: string, e: Node)
    requires LeafUnion(base, s) && name !in s.applied
    requires !Clashes(s.spec, e) && NothingBelowLeaves(s.spec, e)
    ensures LeafUnion(base, State(Merge(s.spec, e), s.applied[name := e]))
  {
    var s' := State(Merge(s.spec, e), s.applied[name := e]);
    forall o, p
      ensures Declares(base, s', o, p) <==>
        Declares(base, s, o, p) || (o == Ext(name) && IsLeaf(e, p))
    {
    }
    forall p
      ensures IsLeaf(s'.spec, p) <==> exists o :: Declares(base, s', o, p)
    {
      MergeLeaf(s.spec, e, p);
      if IsLeaf(e, p) { assert Declares(base, s', Ext(name), p); }
      if IsLeaf(s.spec, p) {
        var o :| Declares(base, s, o, p);
        assert Declares(base, s', o, p);
      }
    }
    forall o, p | Declares(base, s, o, p)
      ensures !IsLeaf(e, p)
    {
      if IsLeaf(e, p) {
        LeafPresent(s.spec, p);
        LeafMeets(s.spec, e, p);
      }
    }
    forall o, p | IsSource(s', o) && Covered(TreeOf(base, s', o), p)
      ensures At(s'.spec, p) == At(TreeOf(base, s', o), p)
    {
      MergeLeaf(s.spec, e, p);
      if o != Ext(name) {
        assert IsSource(s, o);
        SourceCovers(base, s, o, p);
      }
    }
  }

  /** What a source's leaves cover, the schema's leaves cover. */
  lemma {:induction false} SourceCovers(base: Node, s: State, o: Source, p: Path)
    requires LeafUnion(base, s) && IsSource(s, o) && Covered(TreeOf(base, s, o), p)
    ensures Covered(s.spec, p)
  {
    CoveredByLeaf(TreeOf(base, s, o), p);
    var i :| 0 <= i <= |p| && IsLeaf(TreeOf(base, s, o), p[..i]);
    assert Declares(base, s, o, p[..i]);
    assert IsLeaf(s.spec, p[..i]);
    CoveredByLeaf(s.spec, p);
  }

  /** Two sources never cover the same path. */
  lemma {:induction false} CoverIsExclusive(base: Node, s: State, o1: Source, o2: Source, p: Path)
    requires LeafUnion(base, s) && IsSource(s, o1) && IsSource(s, o2)
    requires Covered(TreeOf(base, s, o1), p) && Covered(TreeOf(base, s, o2), p)
    ensures o1 == o2
  {
    CoveredByLeaf(TreeOf(base, s, o1), p);
    CoveredByLeaf(TreeOf(base, s, o2), p);
    var i :| 0 <= i <= |p| && IsLeaf(TreeOf(base, s, o1), p[..i]);
    var j :| 0 <= j <= |p| && IsLeaf(TreeOf(base, s, o2), p[..j]);
    assert Declares(base, s, o1, p[..i]) && Declares(base, s, o2, p[..j]);
    if i <= j { LeavesDoNotNest(s.spec, p, i, j); } else { LeavesDoNotNest(s.spec, p, j, i); }
  }

  lemma {:induction false} UnionKeptByRemove(base: Node, s: State, name: string)
    requires LeafUnion(base, s)
    ensures LeafUnion(base, Removed(s, name))
  {
    if name !in s.applied {
      return;
    }
    var e := s.applied[name];
    var s' := Removed(s, name);
    forall o, p ensures Declares(base, s', o, p) <==> Declares(base, s, o, p) && o != Ext(name) { }
    forall o, p | Declares(base, s, o, p)
      ensures Covered(e, p) <==> o == Ext(name)
    {
      assert p + [] == p;
      LeafIsCovered(TreeOf(base, s, o), p, []);
      assert IsSource(s, Ext(name)) && TreeOf(base, s, Ext(name)) == e;
      if Covered(e, p) { CoverIsExclusive(base, s, o, Ext(name), p); }
    }
    forall p
      ensures IsLeaf(s'.spec, p) <==> exists o :: Declares(base, s', o, p)
    {
      WithoutLeaf(s.spec, e, p);
      if IsLeaf(s'.spec, p) {
        var o :| Declares(base, s, o, p);
        assert Declares(base, s', o, p);
      }
    }
    forall o, p | IsSource(s', o) && Covered(TreeOf(base, s', o), p)
      ensures At(s'.spec, p) == At(TreeOf(base, s', o), p)
    {
      RemoveKeepsOthers(base, s, name, o, p);
    }
  }

  /** Removing one extension leaves every field of every other source as it is. */
  lemma {:induction false} RemoveKeepsOthers(base: Node, s: State, name: string, o: Source, p: Path)
    requires LeafUnion(base, s) && IsSource(s, o) && o != Ext(name)
    requires Covered(TreeOf(base, s, o), p)
    ensures At(Removed(s, name).spec, p) == At(s.spec, p) == At(TreeOf(base, s, o), p)
  {
    if name in s.applied {
      var e := s.applied[name];
      assert IsSource(s, Ext(name)) && TreeOf(base, s, Ext(name)) == e;
      if Covered(e, p) { CoverIsExclusive(base, s, o, Ext(name), p); }
      if e.properties.Entries? {
        WithoutAt(s.spec, e, p);
        CoveredByLeaf(TreeOf(base, s, o), p);
        var i :| 0 <= i <= |p| && IsLeaf(TreeOf(base, s, o), p[..i]);
        assert Declares(base, s, o, p[..i]);
        if Covered(e, p[..i]) { CoveredExtends(e, p, i); }
        LeafNotPruned(s.spec, e, p[..i]);
        assert p[..i][0] == p[0];
      }
    }
  }

  /** The condition is exact: any other successful merge breaks the union. */
  lemma {:induction false} UnionKeptByMergeIff(base: Node, s: State, name: string, e: Node)
    requires LeafUnion(base, s) && name !in s.applied && !Clashes(s.spec, e)
    ensures LeafUnion(base, State(Merge(s.spec, e), s.applied[name := e])) <==> NothingBelowLeaves(s.spec, e)
  {
    var s' := State(Merge(s.spec, e), s.applied[name := e]);
    if NothingBelowLeaves(s.spec, e) {
      UnionKeptByMerge(base, s, name, e);
    }
    if LeafUnion(base, s') {
      forall p: Path | Covered(s.spec, p) && Has(e, p)
        ensures Has(s.spec, p)
      {
        MergeAt(s.spec, e, p);
        CoveredByLeaf(s.spec, p);
        var i :| 0 <= i <= |p| && IsLeaf(s.spec, p[..i]);
        var o :| Declares(base, s, o, p[..i]);
        CoveredByLeaf(TreeOf(base, s, o), p);
        assert IsSource(s', o) && TreeOf(base, s', o) == TreeOf(base, s, o);
      }
    }
  }

  lemma {:induction false} UnionKept(base: Node, s: State, op: Op, s': State)
    requires LeafUnion(base, s) && Step(s, op, s') && CleanOp(s, op)
    ensures LeafUnion(base, s')
  {
    UnionKeptByRemove(base, s, op.name);
    if op.Add? {
      UnionKeptByMerge(base, Removed(s, op.name), op.name, op.raw.root);
    }
  }

  lemma {:induction false} UnionInitially(base: Node)
    ensures LeafUnion(base, State(base, map[]))
  {
    var s := State(base, map[]);
    forall o, p ensures Declares(base, s, o, p) <==> o == Base && IsLeaf(base, p) { }
    forall p ensures IsLeaf(base, p) <==> exists o :: Declares(base, s, o, p) {
      if IsLeaf(base, p) { assert Declares(base, s, Base, p); }
    }
  }

  /** In every run of clean operations the leaf fields stay the disjoint union of their sources. */
  lemma {:induction false} LeafUnionInEveryCleanRun(base: Node, states: seq<State>, ops: seq<Op>)
    requires IsRun(base, states, ops)
    requires forall i :: 0 <= i < |ops| ==> CleanOp(states[i], ops[i])
    ensures forall i :: 0 <= i < |states| ==> LeafUnion(base, states[i])
  {
    UnionInitially(base);
    var n := 0;
    while n < |ops|
      invariant 0 <= n <= |ops|
      invariant forall i :: 0 <= i <= n ==> LeafUnion(base, states[i])
    {
      UnionKept(base, states[n], ops[n], states[n + 1]);
      n := n + 1;
    }
  }

  /** Two schemas with the same applied extensions have the same fields. */
  lemma {:induction false} UnionDetermines(base: Node, s1: State, s2: State, p: Path)
    requires LeafUnion(base, s1) && LeafUnion(base, s2) && s1.applied == s2.applied
    ensures IsLeaf(s1.spec, p) <==> IsLeaf(s2.spec, p)
    ensures Covered(s1.spec, p) ==> At(s1.spec, p) == At(s2.spec, p)
  {
    forall o, q ensures Declares(base, s1, o, q) <==> Declares(base, s2, o, q) { }
    if Covered(s1.spec, p) {
      CoveredByLeaf(s1.spec, p);
      var i :| 0 <= i <= |p| && IsLeaf(s1.spec, p[..i]);
      var o :| Declares(base, s1, o, p[..i]);
      CoveredByLeaf(TreeOf(base, s1, o), p);
    }
  }

  // ---------------------------------------------------------------- the base survives every run

  ghost predicate IsValue(n: Node, p: Path) {
    p != [] && Has(n, p) && At(n, p).value.typ != OBJECT
  }

  /** `p` is a non-object property of the base or an ancestor of one. */
  ghost predicate Supports(base: Node, p: Path) {
    exists c: Path :: IsValue(base, p + c)
  }

  ghost predicate BaseIntact(base: Node, t: Node) {
    forall p :: Supports(base, p) ==> At(t, p) == At(base, p)
  }

  ghost predicate BaseSafe(base: Node, s: State) {
    && BaseIntact(base, s.spec)
    && forall name, p :: name in s.applied && IsLeaf(s.applied[name], p) ==> !Supports(base, p)
  }

  lemma {:induction false} SupportsPresent(base: Node, p: Path)
    requires Supports(base, p)
    ensures Has(base, p)
  {
    var c: Path :| IsValue(base, p + c);
    PrefixPresent(base, p, c);
  }

  lemma {:induction false} SupportsPrefix(base: Node, p: Path, i: nat)
    requires Supports(base, p) && i <= |p|
    ensures Supports(base, p[..i])
  {
    var c: Path :| IsValue(base, p + c);
    assert p[..i] + (p[i..] + c) == p + c;
    assert IsValue(base, p[..i] + (p[i..] + c));
  }

  lemma {:induction false} BaseKeptByAdd(base: Node, t: Node, e: Node, t': Node)
    requires BaseIntact(base, t)
    requires if Clashes(t, e) then FailsWith(t, e, t') else t' == Merge(t, e)
    ensures BaseIntact(base, t')
    ensures !Clashes(t, e) ==> forall p :: IsLeaf(e, p) ==> !Supports(base, p)
  {
    forall p | Supports(base, p)
      ensures At(t', p) == At(base, p)
    {
      SupportsPresent(base, p);
      if Clashes(t, e) {
        FailureAt(t, e, t', p);
      } else {
        MergeAt(t, e, p);
      }
    }
    forall p | IsLeaf(e, p) && Supports(base, p)
      ensures Clashes(t, e)
    {
      SupportsPresent(base, p);
      LeafMeets(t, e, p);
    }
  }

  lemma {:induction false} BaseKeptByRemove(base: Node, s: State, name: string)
    requires BaseSafe(base, s)
    ensures BaseSafe(base, Removed(s, name))
  {
    if name in s.applied {
      var e := s.applied[name];
      forall p | Supports(base, p)
        ensures At(Without(s.spec, e), p) == At(base, p)
      {
        SupportNotCovered(base, s, name, p);
        if e.properties.Entries? {
          WithoutAt(s.spec, e, p);
          if p != [] { SupportNotPruned(base, s, name, p); }
        }
      }
    }
  }

  lemma {:induction false} SupportNotCovered(base: Node, s: State, name: string, p: Path)
    requires BaseSafe(base, s) && name in s.applied && Supports(base, p)
    ensures !Covered(s.applied[name], p)
  {
    CoveredByLeaf(s.applied[name], p);
    forall i | 0 <= i <= |p| ensures !IsLeaf(s.applied[name], p[..i]) {
      SupportsPrefix(base, p, i);
    }
  }

  lemma {:induction false} SupportNotPruned(base: Node, s: State, name: string, p: Path)
    requires BaseSafe(base, s) && name in s.applied && Supports(base, p) && p != []
    ensures !PrunedKey(s.spec, s.applied[name], p[0])
  {
    var c: Path :| IsValue(base, p + c);
    var v := p + c;
    assert v + [] == v;
    assert Supports(base, v);
    if |v| == 1 {
      assert v == [p[0]];
    } else {
      SupportsPrefix(base, v, 2);
      assert v[..2] == [p[0], v[1]];
      SupportsPresent(base, v[..2]);
      SupportNotCovered(base, s, name, v[..2]);
    }
  }

  lemma {:induction false} BaseKept(base: Node, s: State, op: Op, s': State)
    requires BaseSafe(base, s) && Step(s, op, s')
    ensures BaseSafe(base, s')
  {
    BaseKeptByRemove(base, s, op.name);
    if op.Add? && op.raw.Parsed? {
      BaseKeptByAdd(base, Removed(s, op.name).spec, op.raw.root, s'.spec);
    }
  }

  /**
   * In every run, failed adds included, each non-object property of the base and each of its
   * ancestors stays present with its own label.
   */
  lemma {:induction false} BaseIntactInEveryRun(base: Node, states: seq<State>, ops: seq<Op>)
    requires IsRun(base, states, ops)
    ensures forall i :: 0 <= i < |states| ==> BaseIntact(base, states[i].spec)
  {
    var n := 0;
    while n < |ops|
      invariant 0 <= n <= |ops|
      invariant forall i :: 0 <= i <= n ==> BaseSafe(base, states[i])
    {
      BaseKept(base, states[n], ops[n], states[n + 1]);
      n := n + 1;
    }
  }
}
