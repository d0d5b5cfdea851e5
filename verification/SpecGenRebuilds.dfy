/** Rebuilding a schema from its base and the extensions applied to it, in some order. */
module SpecGenRebuilds {
  import opened Collections
  import opened SchemaTree
  import opened SpecGen
  import opened SpecGenLaws
  import opened SpecGenRuns

  type Schemas = map<string, Node>

  // ---------------------------------------------------------------- a rebuild

  /** Adding the extensions to the base, one after the other in the given order. */
  function Rebuilt(base: Node, exts: Schemas, order: seq<string>): (s: State)
    requires forall k :: 0 <= k < |order| ==> order[k] in exts
    ensures forall n :: n in s.applied ==> n in order && s.applied[n] == exts[n]
    ensures forall n :: n in order ==> n in s.applied
  {
    if order == [] then State(base, map[])
    else
      var n := order[|order| - 1];
      var before := Rebuilt(base, exts, order[..|order| - 1]);
      State(Merge(before.spec, exts[n]), before.applied[n := exts[n]])
  }

  /** Each add of the rebuild succeeds. */
  predicate Builds(base: Node, exts: Schemas, order: seq<string>)
    requires forall k :: 0 <= k < |order| ==> order[k] in exts
  {
    order != [] ==>
      var n, front := order[|order| - 1], order[..|order| - 1];
      Builds(base, exts, front) && !Clashes(Rebuilt(base, exts, front).spec, exts[n])
  }

  /** A rebuild that works holds the paths of its sources. */
  lemma {:induction false} RebuiltPaths(base: Node, exts: Schemas, order: seq<string>, p: Path)
    requires (forall n :: n in order ==> n in exts) && Builds(base, exts, order)
    ensures Has(Rebuilt(base, exts, order).spec, p) <==> Has(base, p) || exists n :: n in order && Has(exts[n], p)
    decreases |order|
  {
    if order != [] {
      var n, front := order[|order| - 1], order[..|order| - 1];
      assert order == front + [n];
      RebuiltPaths(base, exts, front, p);
      MergeAt(Rebuilt(base, exts, front).spec, exts[n], p);
    }
  }

  // ---------------------------------------------------------------- when every order works

  /** A leaf of the first lands on a path of the second. */
  ghost predicate Opposes(e: Node, t: Node) {
    exists p :: IsLeaf(e, p) && Has(t, p)
  }

  ghost predicate Unopposed(base: Node, exts: Schemas) {
    && (forall n :: n in exts ==> !Opposes(exts[n], base))
    && forall n, m :: n in exts && m in exts && n != m ==> !Opposes(exts[n], exts[m])
  }

  /** Any order that lists extensions once each works when none opposes the base or another one. */
  lemma {:induction false} UnopposedBuilds(base: Node, exts: Schemas, order: seq<string>)
    requires Unopposed(base, exts) && NoDuplicates(order) && forall n :: n in order ==> n in exts
    ensures Builds(base, exts, order)
    decreases |order|
  {
    if order != [] {
      var n, front := order[|order| - 1], order[..|order| - 1];
      assert n in order && forall m :: m in front ==> m in order && m != n;
      UnopposedBuilds(base, exts, front);
      var t := Rebuilt(base, exts, front).spec;
      ClashIsLeafOnExistingName(t, exts[n]);
      forall p | IsLeaf(exts[n], p) ensures !Has(t, p) {
        RebuiltPaths(base, exts, front, p);
        forall m | m in front ensures !Has(exts[m], p) {
          assert !Opposes(exts[n], exts[m]);
        }
      }
    }
  }

  /**
   * Every order of adding the extensions to the base succeeds exactly when no leaf of one of them
   * lands on a path of the base or of another one.
   */
  lemma {:induction false} EveryOrderBuildsIff(base: Node, exts: Schemas)
    ensures (forall order :: Enumerates(order, exts.Keys) ==> Builds(base, exts, order)) <==> Unopposed(base, exts)
  {
    if Unopposed(base, exts) {
      forall order | Enumerates(order, exts.Keys) ensures Builds(base, exts, order) {
        UnopposedBuilds(base, exts, order);
      }
    } else {
      var order := OpposedOrder(base, exts);
      assert Enumerates(order, exts.Keys) && !Builds(base, exts, order);
    }
  }

  /** An order that fails: the one that is opposed comes first. */
  lemma {:induction false} OpposedOrder(base: Node, exts: Schemas) returns (order: seq<string>)
    requires !Unopposed(base, exts)
    ensures Enumerates(order, exts.Keys) && !Builds(base, exts, order)
  {
    if n :| n in exts && Opposes(exts[n], base) {
      order := OpposedByBase(base, exts, n);
    } else {
      var n, m :| n in exts && m in exts && n != m && Opposes(exts[n], exts[m]);
      order := OpposedByOther(base, exts, n, m);
    }
  }

  lemma {:induction false} OpposedByBase(base: Node, exts: Schemas, n: string) returns (order: seq<string>)
    requires n in exts && Opposes(exts[n], base)
    ensures Enumerates(order, exts.Keys) && !Builds(base, exts, order)
  {
    var rest := EnumerationExists(exts.Keys - {n});
    order := [n] + rest;
    var p :| IsLeaf(exts[n], p) && Has(base, p);
    LeafMeets(base, exts[n], p);
    assert order[..1] == [n] && [n][..0] == [];
    assert !Builds(base, exts, order[..1]);
    ShorterBuilds(base, exts, order, 1);
  }

  lemma {:induction false} OpposedByOther(base: Node, exts: Schemas, n: string, m: string)
      returns (order: seq<string>)
    requires n in exts && m in exts && n != m && Opposes(exts[n], exts[m])
    ensures Enumerates(order, exts.Keys) && !Builds(base, exts, order)
  {
    var rest := EnumerationExists(exts.Keys - {n, m});
    order := [m, n] + rest;
    assert order[..2] == [m, n] && [m, n][..1] == [m];
    OpposedPair(base, exts, n, m);
    assert !Builds(base, exts, order[..2]);
    ShorterBuilds(base, exts, order, 2);
  }

  lemma {:induction false} OpposedPair(base: Node, exts: Schemas, n: string, m: string)
    requires n in exts && m in exts && Opposes(exts[n], exts[m])
    ensures !(Builds(base, exts, [m]) && !Clashes(Rebuilt(base, exts, [m]).spec, exts[n]))
  {
    var p :| IsLeaf(exts[n], p) && Has(exts[m], p);
    if Builds(base, exts, [m]) {
      RebuiltPaths(base, exts, [m], p);
      assert m in [m];
      LeafMeets(Rebuilt(base, exts, [m]).spec, exts[n], p);
    }
  }

  lemma {:induction false} ShorterBuilds(base: Node, exts: Schemas, order: seq<string>, k: nat)
    requires k <= |order| && forall n :: n in order ==> n in exts
    ensures Builds(base, exts, order) ==> Builds(base, exts, order[..k])
    decreases |order|
  {
    if k < |order| {
      assert order[..|order| - 1][..k] == order[..k];
      ShorterBuilds(base, exts, order[..|order| - 1], k);
    } else {
      assert order[..k] == order;
    }
  }

  // ---------------------------------------------------------------- agreement

  /** And no extension has anything new below a leaf of the base: then nothing ever gets below a leaf. */
  ghost predicate Compatible(base: Node, exts: Schemas) {
    Unopposed(base, exts) && forall n :: n in exts ==> NothingBelowLeaves(base, exts[n])
  }

  lemma {:induction false} NothingBelowAny(base: Node, s: State, e: Node)
    requires LeafUnion(base, s) && NothingBelowLeaves(base, e)
    requires forall m :: m in s.applied ==> !Opposes(s.applied[m], e)
    ensures NothingBelowLeaves(s.spec, e)
  {
    forall p: Path | Covered(s.spec, p) && Has(e, p) ensures Has(s.spec, p) {
      CoveredByLeaf(s.spec, p);
      var i :| 0 <= i <= |p| && IsLeaf(s.spec, p[..i]);
      assert p == p[..i] + p[i..];
      PrefixPresent(e, p[..i], p[i..]);
      var o :| Declares(base, s, o, p[..i]);
      assert o == Base;
      LeafIsCovered(base, p[..i], p[i..]);
    }
  }

  /** A rebuild in any order keeps the leaf fields the disjoint union of the base and the extensions. */
  lemma {:induction false} RebuildKeepsUnion(base: Node, exts: Schemas, order: seq<string>)
    requires Compatible(base, exts) && NoDuplicates(order) && forall n :: n in order ==> n in exts
    ensures Builds(base, exts, order) && LeafUnion(base, Rebuilt(base, exts, order))
    decreases |order|
  {
    UnopposedBuilds(base, exts, order);
    if order == [] {
      UnionInitially(base);
    } else {
      var n, front := order[|order| - 1], order[..|order| - 1];
      assert n in order && forall m :: m in front ==> m in order && m != n;
      RebuildKeepsUnion(base, exts, front);
      var s := Rebuilt(base, exts, front);
      NothingBelowAny(base, s, exts[n]);
      UnionKeptByMerge(base, s, n, exts[n]);
    }
  }

  lemma RebuiltApplies(base: Node, exts: Schemas, order: seq<string>)
    requires Enumerates(order, exts.Keys)
    ensures Rebuilt(base, exts, order).applied == exts
  {
    assert Rebuilt(base, exts, order).applied.Keys == exts.Keys;
  }

  /** The rebuild in the given order succeeds and has the fields of the schema. */
  ghost predicate RebuildsTo(base: Node, exts: Schemas, order: seq<string>, t: Node)
    requires forall k :: 0 <= k < |order| ==> order[k] in exts
  {
    && Builds(base, exts, order)
    && forall p: Path ::
      && (IsLeaf(t, p) <==> IsLeaf(Rebuilt(base, exts, order).spec, p))
      && (Covered(t, p) ==> At(t, p) == At(Rebuilt(base, exts, order).spec, p))
  }

  /** Whatever order the extensions are added in. */
  ghost predicate AlwaysRebuildsTo(base: Node, exts: Schemas, t: Node) {
    forall order :: Enumerates(order, exts.Keys) ==> RebuildsTo(base, exts, order, t)
  }

  /**
   * The schema a clean run has come to by adds, re-adds and removes agrees on every field with its
   * rebuilds, whatever was added and removed on the way: adding the applied extensions to the base
   * succeeds in every order and gives these fields if and only if no leaf of one of them lands on a
   * path of the base or of another one and none has anything new below a leaf of the base.
   */
  lemma {:induction false} RebuildAgreesIff(base: Node, states: seq<State>, ops: seq<Op>)
    requires IsRun(base, states, ops) && forall i :: 0 <= i < |ops| ==> CleanOp(states[i], ops[i])
    ensures AlwaysRebuildsTo(base, states[|ops|].applied, states[|ops|].spec) <==>
      Compatible(base, states[|ops|].applied)
  {
    var s := states[|ops|];
    LeafUnionInEveryCleanRun(base, states, ops);
    if Compatible(base, s.applied) {
      forall order | Enumerates(order, s.applied.Keys) ensures RebuildsTo(base, s.applied, order, s.spec) {
        UnionRebuilds(base, s, order);
      }
    }
    if AlwaysRebuildsTo(base, s.applied, s.spec) {
      EveryOrderBuildsIff(base, s.applied);
      RebuiltIsCompatible(base, s);
    }
  }

  /** What a rebuild puts below a leaf of the base is not in the schema of a clean run. */
  lemma {:induction false} RebuiltIsCompatible(base: Node, s: State)
    requires LeafUnion(base, s) && AlwaysRebuildsTo(base, s.applied, s.spec)
    ensures forall n :: n in s.applied ==> NothingBelowLeaves(base, s.applied[n])
  {
    var order := EnumerationExists(s.applied.Keys);
    forall n, p: Path | n in s.applied && Covered(base, p) && Has(s.applied[n], p) ensures Has(base, p) {
      BaseCovers(base, s, p);
      RebuiltPaths(base, s.applied, order, p);
      assert RebuildsTo(base, s.applied, order, s.spec);
    }
  }

  lemma {:induction false} BaseCovers(base: Node, s: State, p: Path)
    requires LeafUnion(base, s) && Covered(base, p)
    ensures Covered(s.spec, p) && At(s.spec, p) == At(base, p)
  {
    CoveredByLeaf(base, p);
    var i :| 0 <= i <= |p| && IsLeaf(base, p[..i]);
    assert p == p[..i] + p[i..];
    assert Declares(base, s, Base, p[..i]);
    LeafIsCovered(s.spec, p[..i], p[i..]);
    assert IsSource(s, Base) && TreeOf(base, s, Base) == base;
  }

  lemma {:induction false} UnionRebuilds(base: Node, s: State, order: seq<string>)
    requires LeafUnion(base, s) && Compatible(base, s.applied) && Enumerates(order, s.applied.Keys)
    ensures RebuildsTo(base, s.applied, order, s.spec)
  {
    var r := Rebuilt(base, s.applied, order);
    RebuildKeepsUnion(base, s.applied, order);
    RebuiltApplies(base, s.applied, order);
    forall p: Path
      ensures IsLeaf(s.spec, p) <==> IsLeaf(r.spec, p)
      ensures Covered(s.spec, p) ==> At(s.spec, p) == At(r.spec, p)
    {
      UnionDetermines(base, s, r, p);
    }
  }

  /** Two clean runs that end with the same extensions applied end with the same fields. */
  lemma {:induction false} RunsAgree(
      base: Node, ss: seq<State>, os: seq<Op>, ts: seq<State>, ps: seq<Op>, p: Path)
    requires IsRun(base, ss, os) && forall i :: 0 <= i < |os| ==> CleanOp(ss[i], os[i])
    requires IsRun(base, ts, ps) && forall i :: 0 <= i < |ps| ==> CleanOp(ts[i], ps[i])
    requires ss[|os|].applied == ts[|ps|].applied
    ensures IsLeaf(ss[|os|].spec, p) <==> IsLeaf(ts[|ps|].spec, p)
    ensures Covered(ss[|os|].spec, p) ==> At(ss[|os|].spec, p) == At(ts[|ps|].spec, p)
  {
    LeafUnionInEveryCleanRun(base, ss, os);
    LeafUnionInEveryCleanRun(base, ts, ps);
    UnionDetermines(base, ss[|os|], ts[|ps|], p);
  }

  // ---------------------------------------------------------------- a rebuild that fails

  function Leafy(name: string): Node {
    Node("", OBJECT, Entries(map[name := Node("", "string", NilMap)]))
  }

  function Hollow(name: string): Node {
    Node("", OBJECT, Entries(map[name := Node("", OBJECT, NilMap)]))
  }

  /**
   * A clean run need not be repeatable. An extension with an empty object is added; another one comes
   * and goes, which prunes that object; a third one brings a leaf of the same name. Both stay
   * applied, and adding them to the base again fails.
   */
  lemma {:induction false} PrunedObjectBlocksRebuild() returns (states: seq<State>, ops: seq<Op>)
    ensures
      var base := Node("", OBJECT, NilMap);
      && IsRun(base, states, ops) && (forall i :: 0 <= i < |ops| ==> CleanOp(states[i], ops[i]))
      && states[|ops|].applied == map["a" := Hollow("o"), "b" := Leafy("o")]
      && !Builds(base, states[|ops|].applied, ["a", "b"])
  {
    var base, a, x, b := Node("", OBJECT, NilMap), Hollow("o"), Leafy("x"), Leafy("o");
    var s1, s2 := State(a, map["a" := a]), State(Both(), map["a" := a, "x" := x]);
    var s3, s4 := State(Empty(), map["a" := a]), State(b, map["a" := a, "b" := b]);
    PruningSteps(base, s1, s2, s3, s4);
    states, ops := FourSteps(base, s1, s2, s3, s4,
      Add("a", Parsed(a)), Add("x", Parsed(x)), Remove("x"), Add("b", Parsed(b)));
    HollowBlocks();
  }

  lemma PruningSteps(base: Node, s1: State, s2: State, s3: State, s4: State)
    requires base == Node("", OBJECT, NilMap) && s1 == State(Hollow("o"), map["a" := Hollow("o")])
    requires s2 == State(Both(), map["a" := Hollow("o"), "x" := Leafy("x")])
    requires s3 == State(Empty(), map["a" := Hollow("o")])
    requires s4 == State(Leafy("o"), map["a" := Hollow("o"), "b" := Leafy("o")])
    ensures Step(State(base, map[]), Add("a", Parsed(Hollow("o"))), s1)
    ensures CleanOp(State(base, map[]), Add("a", Parsed(Hollow("o"))))
    ensures Step(s1, Add("x", Parsed(Leafy("x"))), s2) && CleanOp(s1, Add("x", Parsed(Leafy("x"))))
    ensures Step(s2, Remove("x"), s3) && CleanOp(s2, Remove("x"))
    ensures Step(s3, Add("b", Parsed(Leafy("o"))), s4) && CleanOp(s3, Add("b", Parsed(Leafy("o"))))
  {
    BothMerges();
    CleanAdd(State(base, map[]), Add("a", Parsed(Hollow("o"))), s1);
    CleanAdd(s1, Add("x", Parsed(Leafy("x"))), s2);
    CleanAdd(s3, Add("b", Parsed(Leafy("o"))), s4);
    PruningStep(s2, s3);
  }

  lemma PruningStep(s2: State, s3: State)
    requires s2 == State(Both(), map["a" := Hollow("o"), "x" := Leafy("x")])
    requires s3 == State(Empty(), map["a" := Hollow("o")])
    ensures Step(s2, Remove("x"), s3) && CleanOp(s2, Remove("x"))
  {
    BothTrims();
    assert s2.applied - {"x"} == s3.applied;
  }

  lemma FourSteps(base: Node, s1: State, s2: State, s3: State, s4: State, o1: Op, o2: Op, o3: Op, o4: Op)
      returns (states: seq<State>, ops: seq<Op>)
    requires Step(State(base, map[]), o1, s1) && CleanOp(State(base, map[]), o1)
    requires Step(s1, o2, s2) && CleanOp(s1, o2) && Step(s2, o3, s3) && CleanOp(s2, o3)
    requires Step(s3, o4, s4) && CleanOp(s3, o4)
    ensures IsRun(base, states, ops) && states[|ops|] == s4
    ensures forall i :: 0 <= i < |ops| ==> CleanOp(states[i], ops[i])
  {
    states, ops := [State(base, map[]), s1, s2, s3, s4], [o1, o2, o3, o4];
  }

  lemma HollowBlocks()
    ensures !Builds(Node("", OBJECT, NilMap), map["a" := Hollow("o"), "b" := Leafy("o")], ["a", "b"])
  {
    BothMerges();
    assert ["a", "b"][..1] == ["a"] && ["a"][..0] == [];
  }

  lemma CleanAdd(s: State, op: Op, s': State)
    requires op.Add? && op.raw.Parsed? && op.name !in s.applied && !Clashes(s.spec, op.raw.root)
    requires forall k :: k in Children(s.spec) ==> IsEmptyObject(Children(s.spec)[k])
    requires s' == State(Merge(s.spec, op.raw.root), s.applied[op.name := op.raw.root])
    ensures Step(s, op, s') && CleanOp(s, op)
  {
    CleanOntoLeafless(s, op);
  }

  function Both(): Node {
    Node("", OBJECT, Entries(map["o" := Node("", OBJECT, NilMap), "x" := Node("", "string", NilMap)]))
  }

  function Empty(): Node {
    Node("", OBJECT, Entries(map[]))
  }

  lemma BothMerges()
    ensures Merge(Node("", OBJECT, NilMap), Hollow("o")) == Hollow("o")
    ensures !Clashes(Hollow("o"), Leafy("x")) && Merge(Hollow("o"), Leafy("x")) == Both()
    ensures !Clashes(Empty(), Leafy("o")) && Merge(Empty(), Leafy("o")) == Leafy("o")
    ensures Clashes(Hollow("o"), Leafy("o"))
  {
    assert "o" in Children(Hollow("o")) && "x" in Children(Leafy("x")) && "o" in Children(Leafy("o"));
    MergesIntoNothing(Node("", OBJECT, NilMap), Hollow("o"));
    MergesIntoNothing(Empty(), Leafy("o"));
    MergesBesides(Hollow("o"), Leafy("x"));
    assert Children(Merge(Hollow("o"), Leafy("x"))) == Children(Both());
    assert Children(Leafy("o"))["o"].typ != OBJECT;
  }

  lemma MergesIntoNothing(t: Node, e: Node)
    requires Children(t) == map[] && Children(e) != map[] && t.attrs == e.attrs && t.typ == e.typ
    ensures !Clashes(t, e) && Merge(t, e) == e
  {
    assert Children(Merge(t, e)) == Children(e);
  }

  lemma MergesBesides(t: Node, e: Node)
    requires Children(t).Keys !! Children(e).Keys && Children(e) != map[]
    ensures !Clashes(t, e) && Merge(t, e) == t.(properties := Entries(Children(t) + Children(e)))
  {
    assert Children(Merge(t, e)) == Children(t) + Children(e);
  }

  lemma BothTrims()
    ensures Without(Both(), Leafy("x")) == Empty()
  {
    assert Children(Trim(Both(), Leafy("x"))) == Children(Hollow("o"));
    assert Children(Without(Both(), Leafy("x"))) == map[];
  }

  /** Adding to a schema whose root properties are all objects without properties. */
  lemma {:induction false} CleanOntoLeafless(s: State, op: Op)
    requires op.Add? && op.raw.Parsed? && op.name !in s.applied && !Clashes(s.spec, op.raw.root)
    requires forall k :: k in Children(s.spec) ==> IsEmptyObject(Children(s.spec)[k])
    ensures CleanOp(s, op)
  {
    forall p: Path ensures !Covered(s.spec, p) {
      if p != [] && p[0] in Children(s.spec) {
        assert !Covered(Children(s.spec)[p[0]], p[1..]);
      }
    }
  }
}
