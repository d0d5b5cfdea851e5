/** What a failed `Add` leaves behind, and what that does to every later attempt. */
module SpecGenFailures {
  import opened Collections
  import opened SchemaTree
  import opened SpecGen
  import opened SpecGenLaws
  import opened SpecGenRuns

  // ---------------------------------------------------------------- when a failure leaves nothing

  /** `p` is at or below a leaf of the extension that meets an existing path. */
  ghost predicate Blocked(t: Node, e: Node, p: Path) {
    exists i :: 0 <= i <= |p| && IsLeaf(e, p[..i]) && Has(t, p[..i])
  }

  lemma {:induction false} BlockedInChild(t: Node, e: Node, p: Path)
    requires p != [] && p[0] in Children(t) && p[0] in Children(e) && Children(e)[p[0]].typ == OBJECT
    ensures Blocked(t, e, p) <==> Blocked(Children(t)[p[0]], Children(e)[p[0]], p[1..])
  {
    var t0, e0, q := Children(t)[p[0]], Children(e)[p[0]], p[1..];
    forall i | 0 < i <= |p|
      ensures IsLeaf(e, p[..i]) && Has(t, p[..i]) <==> IsLeaf(e0, q[..i - 1]) && Has(t0, q[..i - 1])
    {
      assert p[..i][1..] == q[..i - 1];
    }
    if Blocked(t, e, p) {
      var i :| 0 <= i <= |p| && IsLeaf(e, p[..i]) && Has(t, p[..i]);
      assert i > 0;
      assert IsLeaf(e0, q[..i - 1]) && Has(t0, q[..i - 1]);
    }
    if Blocked(t0, e0, q) {
      var i :| 0 <= i <= |q| && IsLeaf(e0, q[..i]) && Has(t0, q[..i]);
      assert IsLeaf(e, p[..i + 1]) && Has(t, p[..i + 1]);
    }
  }

  /** A clash below `p[0]` is met by any path that is blocked there. */
  lemma {:induction false} BlockedClashes(t: Node, e: Node, p: Path)
    requires Blocked(t, e, p)
    ensures p != [] && ClashesIn(t, e, p[0])
  {
    var i :| 0 <= i <= |p| && IsLeaf(e, p[..i]) && Has(t, p[..i]);
    assert i > 0 && p[..i][0] == p[0];
    if Children(e)[p[0]].typ == OBJECT {
      LeafMeets(Children(t)[p[0]], Children(e)[p[0]], p[..i][1..]);
    }
  }

  /** What is blocked does not get in before the clash, in any order. */
  lemma {:induction false} BlockedStaysOut(t: Node, e: Node, t': Node, p: Path)
    requires FailsWith(t, e, t') && !Has(t, p) && Blocked(t, e, p)
    ensures !Has(t', p)
    decreases p
  {
    BlockedClashes(t, e, p);
    var done: set<string>, name :| FailsAt(t, e, done, name, t');
    MergeOfAt(t, e, done, p);
    if Children(e)[name].typ == OBJECT {
      var inner :|
        FailsWith(Children(t)[name], Children(e)[name], inner) && t' == SetChild(MergeOf(t, e, done), name, inner);
      if p[0] == name {
        BlockedInChild(t, e, p);
        BlockedStaysOut(Children(t)[name], Children(e)[name], inner, p[1..]);
      }
    }
  }

  /** Every clash has some outcome, with any non-clashing properties merged before it. */
  lemma {:induction false} SomeOutcome(t: Node, e: Node, done: set<string>) returns (t': Node)
    requires Clashes(t, e) && done <= Children(e).Keys && forall k :: k in done ==> !ClashesIn(t, e, k)
    ensures FailsWith(t, e, t')
    ensures forall p: Path :: p != [] && p[0] in done ==> At(t', p) == At(MergeOf(t, e, done), p)
    decreases e
  {
    var name :| name in Children(e) && name in Children(t) &&
      (Children(e)[name].typ == OBJECT ==> Clashes(Children(t)[name], Children(e)[name]));
    t' := MergeOf(t, e, done);
    if Children(e)[name].typ == OBJECT {
      var inner := SomeOutcome(Children(t)[name], Children(e)[name], {});
      t' := SetChild(t', name, inner);
    }
    assert FailsAt(t, e, done, name, t');
  }

  lemma {:induction false} LeafKeyBlocks(t: Node, e: Node, p: Path)
    requires p != [] && p[0] in Children(t) && p[0] in Children(e) && Children(e)[p[0]].typ != OBJECT
    ensures Blocked(t, e, p)
  {
    assert p[..1] == [p[0]] && IsLeaf(e, p[..1]);
    AtCons(t, p[0], []);
    assert [p[0]] + [] == [p[0]];
  }

  /** Whatever the extension brings that is new and not blocked is left behind in some order. */
  lemma {:induction false} LeaveBehind(t: Node, e: Node, p: Path) returns (t': Node)
    requires Clashes(t, e) && Has(e, p) && !Has(t, p) && !Blocked(t, e, p)
    ensures FailsWith(t, e, t') && Has(t', p)
    decreases p
  {
    var k := p[0];
    if !ClashesIn(t, e, k) {
      t' := SomeOutcome(t, e, {k});
      MergeOfAt(t, e, {k}, p);
    } else {
      if Children(e)[k].typ != OBJECT { LeafKeyBlocks(t, e, p); }
      BlockedInChild(t, e, p);
      var inner := LeaveBehind(Children(t)[k], Children(e)[k], p[1..]);
      t' := SetChild(t, k, inner);
      assert MergeOf(t, e, {}) == t;
      assert FailsAt(t, e, {}, k, t');
    }
  }

  /**
   * A failed `Add` leaves the tree as it was in every order of iteration exactly when the extension
   * brings nothing new that is not at or below a clashing leaf.
   */
  lemma {:induction false} FailureLeavesNothingIff(t: Node, e: Node)
    requires Clashes(t, e)
    ensures (forall t' :: FailsWith(t, e, t') ==> SameTree(t', t)) <==>
      (forall p :: Has(e, p) && !Has(t, p) ==> Blocked(t, e, p))
  {
    if p :| Has(e, p) && !Has(t, p) && !Blocked(t, e, p) {
      var t' := LeaveBehind(t, e, p);
      assert At(t', p) != At(t, p);
      assert !SameTree(t', t);
    } else {
      forall t' | FailsWith(t, e, t') ensures SameTree(t', t) {
        forall p: Path ensures At(t', p) == At(t, p) {
          FailureAt(t, e, t', p);
          if !Has(t, p) && Has(t', p) {
            BlockedStaysOut(t, e, t', p);
          }
        }
      }
    }
  }

  /** The smallest case: one property clashes and the other one stays. */
  lemma FailureLeavesFieldBehind() returns (t': Node)
    ensures
      var value := Node("", "string", NilMap);
      var base := Node("", OBJECT, Entries(map["image" := value]));
      var ext := Node("", OBJECT, Entries(map["image" := value, "extra" := value]));
      FailsWith(base, ext, t') && Has(t', ["extra"]) && !Has(base, ["extra"])
  {
    var value := Node("", "string", NilMap);
    var base := Node("", OBJECT, Entries(map["image" := value]));
    var ext := Node("", OBJECT, Entries(map["image" := value, "extra" := value]));
    t' := Node("", OBJECT, Entries(map["image" := value, "extra" := value]));
    assert ["extra"][1..] == [];
    assert Children(MergeOf(base, ext, {"extra"})) == Children(t');
    assert FailsAt(base, ext, {"extra"}, "image", t');
  }

  // ---------------------------------------------------------------- every later attempt

  /**
   * A leaf of the unapplied extension is in the schema, and no applied schema can take it out.
   */
  ghost predicate Stuck(s: State, name: string, e: Node, p: Path) {
    && name !in s.applied && IsLeaf(e, p)
    && Has(s.spec, p) && At(s.spec, p).value.typ != OBJECT
    && forall other :: other in s.applied ==> !Covered(s.applied[other], p)
  }

  /** A failed `Add` that leaves one of its leaves behind gets stuck on it. */
  lemma {:induction false} FailureSticks(s: State, name: string, e: Node, s': State, p: Path)
    requires Step(s, Add(name, Parsed(e)), s') && !Succeeds(s, Add(name, Parsed(e)))
    requires IsLeaf(e, p) && !Has(Removed(s, name).spec, p) && Has(s'.spec, p)
    requires forall other :: other in Removed(s, name).applied ==> !Covered(s.applied[other], p)
    ensures Stuck(s', name, e, p)
  {
    FailureAt(Removed(s, name).spec, e, s'.spec, p);
    LeafPresent(e, p);
  }

  /** In a schema whose leaves are the disjoint union of their sources, that is so outside its leaves. */
  lemma {:induction false} FailureSticksInUnion(base: Node, s: State, name: string, e: Node, s': State, p: Path)
    requires LeafUnion(base, s) && Step(s, Add(name, Parsed(e)), s') && !Succeeds(s, Add(name, Parsed(e)))
    requires IsLeaf(e, p) && !Has(Removed(s, name).spec, p) && Has(s'.spec, p)
    requires !Covered(Removed(s, name).spec, p)
    ensures Stuck(s', name, e, p)
  {
    var mid := Removed(s, name);
    UnionKeptByRemove(base, s, name);
    forall other | other in mid.applied ensures !Covered(s.applied[other], p) {
      if Covered(s.applied[other], p) {
        assert IsSource(mid, Ext(other)) && TreeOf(base, mid, Ext(other)) == s.applied[other];
        SourceCovers(base, mid, Ext(other), p);
      }
    }
    FailureSticks(s, name, e, s', p);
  }

  lemma {:induction false} StuckFails(s: State, name: string, e: Node, p: Path)
    requires Stuck(s, name, e, p)
    ensures !Succeeds(s, Add(name, Parsed(e)))
  {
    LeafMeets(s.spec, e, p);
  }

  lemma {:induction false} StuckAfterRemove(s: State, name: string, e: Node, p: Path, other: string)
    requires Stuck(s, name, e, p)
    ensures Stuck(Removed(s, other), name, e, p)
  {
    if other in s.applied {
      var o := s.applied[other];
      if o.properties.Entries? {
        WithoutAt(s.spec, o, p);
        if |p| == 1 {
          assert p == [p[0]];
        } else {
          assert p != [] by { LeafPresent(e, p); }
          assert p == [p[0], p[1]] + p[2..] && p[..2] == [p[0], p[1]];
          PrefixPresent(s.spec, [p[0], p[1]], p[2..]);
          if Covered(o, [p[0], p[1]]) { CoveredExtends(o, p, 2); }
        }
      }
    }
  }

  lemma {:induction false} StuckAfterStep(s: State, name: string, e: Node, p: Path, op: Op, s': State)
    requires Stuck(s, name, e, p) && Step(s, op, s') && (op.name == name && op.Add? ==> op.raw == Parsed(e))
    ensures Stuck(s', name, e, p)
  {
    StuckAfterRemove(s, name, e, p, op.name);
    var mid := Removed(s, op.name);
    if op.Add? && op.raw.Parsed? {
      if Clashes(mid.spec, op.raw.root) {
        FailureAt(mid.spec, op.raw.root, s'.spec, p);
      } else {
        MergeAt(mid.spec, op.raw.root, p);
        CleanMergeUncovered(mid.spec, op.raw.root, p);
        if op.name == name { StuckFails(mid, name, e, p); }
      }
    }
  }

  /**
   * In every run from there, whatever is added, re-added or removed: each attempt to add the
   * extension again fails on its own leftover, and removing it does nothing.
   */
  lemma {:induction false} LeftoverBlocksForever(name: string, e: Node, p: Path, states: seq<State>, ops: seq<Op>)
    requires |states| == |ops| + 1 && forall i :: 0 <= i < |ops| ==> Step(states[i], ops[i], states[i + 1])
    requires forall i :: 0 <= i < |ops| && ops[i].Add? && ops[i].name == name ==> ops[i].raw == Parsed(e)
    requires Stuck(states[0], name, e, p)
    ensures forall i :: 0 <= i < |ops| && ops[i] == Add(name, Parsed(e)) ==> !Succeeds(states[i], ops[i])
    ensures forall i :: 0 <= i < |ops| && ops[i] == Remove(name) ==> states[i + 1] == states[i]
  {
    var n := 0;
    while n < |ops|
      invariant 0 <= n <= |ops|
      invariant forall i :: 0 <= i <= n ==> Stuck(states[i], name, e, p)
    {
      StuckAfterStep(states[n], name, e, p, ops[n], states[n + 1]);
      n := n + 1;
    }
    forall i | 0 <= i < |ops| && ops[i] == Add(name, Parsed(e)) ensures !Succeeds(states[i], ops[i]) {
      StuckFails(states[i], name, e, p);
    }
  }
}
