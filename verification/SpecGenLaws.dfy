/** What merging and removing do to every path of the schema tree. */
module SpecGenLaws {
  import opened Collections
  import opened SchemaTree
  import opened SpecGen

  /**
   * `Add` fails exactly when some non-object property of the extension, reached through objects,
   * lands on a name the schema already has. No iteration order appears here.
   */
  lemma {:induction false} ClashIsLeafOnExistingName(t: Node, e: Node)
    ensures Clashes(t, e) <==> exists p :: IsLeaf(e, p) && Has(t, p)
    decreases e
  {
    if Clashes(t, e) {
      var p := ClashWitness(t, e);
    }
    forall p | IsLeaf(e, p) && Has(t, p) ensures Clashes(t, e) {
      LeafMeets(t, e, p);
    }
  }

  lemma {:induction false} ClashWitness(t: Node, e: Node) returns (p: Path)
    requires Clashes(t, e)
    ensures IsLeaf(e, p) && Has(t, p)
    decreases e
  {
    var k :| k in Children(e) && k in Children(t) &&
      (Children(e)[k].typ == OBJECT ==> Clashes(Children(t)[k], Children(e)[k]));
    if Children(e)[k].typ == OBJECT {
      var q := ClashWitness(Children(t)[k], Children(e)[k]);
      p := [k] + q;
      assert p[1..] == q;
    } else {
      p := [k];
    }
  }

  lemma {:induction false} LeafMeets(t: Node, e: Node, p: Path)
    requires IsLeaf(e, p) && Has(t, p)
    ensures Clashes(t, e)
    decreases p
  {
    if Children(e)[p[0]].typ == OBJECT {
      LeafMeets(Children(t)[p[0]], Children(e)[p[0]], p[1..]);
    }
  }

  /** A merge without a clash adds the extension's paths and keeps every existing one as it was. */
  lemma {:induction false} MergeAt(t: Node, e: Node, p: Path)
    requires !Clashes(t, e)
    ensures At(Merge(t, e), p) == if Has(t, p) then At(t, p) else At(e, p)
    decreases p
  {
    if p != [] {
      var k := p[0];
      if k in Children(t) && k in Children(e) {
        assert Children(e)[k].typ == OBJECT && !Clashes(Children(t)[k], Children(e)[k]);
        MergeAt(Children(t)[k], Children(e)[k], p[1..]);
      }
    }
  }

  /** A merge of some of the extension's properties, none of them clashing. */
  lemma {:induction false} MergeOfAt(t: Node, e: Node, done: set<string>, p: Path)
    requires done <= Children(e).Keys && forall k :: k in done ==> !ClashesIn(t, e, k)
    ensures At(MergeOf(t, e, done), p) ==
      if Has(t, p) then At(t, p) else if p != [] && p[0] in done then At(e, p) else None
  {
    if p != [] && p[0] in Children(t) && p[0] in done {
      assert !ClashesIn(t, e, p[0]);
      MergeAt(Children(t)[p[0]], Children(e)[p[0]], p[1..]);
    }
  }

  /** A failed merge never touches an existing path and invents nothing. */
  lemma {:induction false} FailureAt(t: Node, e: Node, t': Node, p: Path)
    requires FailsWith(t, e, t')
    ensures Has(t, p) ==> At(t', p) == At(t, p)
    ensures !Has(t, p) && Has(t', p) ==> At(t', p) == At(e, p)
    decreases p
  {
    var done: set<string>, name :| FailsAt(t, e, done, name, t');
    MergeOfAt(t, e, done, p);
    if Children(e)[name].typ == OBJECT {
      var inner :|
        FailsWith(Children(t)[name], Children(e)[name], inner) && t' == SetChild(MergeOf(t, e, done), name, inner);
      if p != [] && p[0] == name {
        FailureAt(Children(t)[name], Children(e)[name], inner, p[1..]);
      }
    }
  }

  /** Trimming deletes what the extension's leaves cover and nothing else. */
  lemma {:induction false} TrimAt(t: Node, e: Node, p: Path)
    ensures At(Trim(t, e), p) == if Covered(e, p) then None else At(t, p)
    decreases p
  {
    if p != [] && p[0] in Children(t) && p[0] in Children(e) {
      TrimAt(Children(t)[p[0]], Children(e)[p[0]], p[1..]);
    }
  }

  lemma {:induction false} PruneAt(t: Node, p: Path)
    ensures At(Prune(t), p) ==
      if p != [] && p[0] in Children(t) && IsEmptyObject(Children(t)[p[0]]) then None else At(t, p)
  {
  }

  /** A root property is pruned exactly when it is an object that kept no property. */
  ghost predicate PrunedKey(t: Node, e: Node, k: string) {
    && Has(t, [k]) && !Covered(e, [k]) && At(t, [k]).value.typ == OBJECT
    && forall c :: Has(t, [k, c]) ==> Covered(e, [k, c])
  }

  lemma {:induction false} EmptyObjectAt(t: Node, k: string)
    ensures (k in Children(t) && IsEmptyObject(Children(t)[k])) <==>
      (Has(t, [k]) && At(t, [k]).value.typ == OBJECT && forall c :: !Has(t, [k, c]))
  {
    AtCons(t, k, []);
    assert [k] + [] == [k];
    forall c ensures At(t, [k, c]) == if k in Children(t) then At(Children(t)[k], [c]) else None {
      AtCons(t, k, [c]);
      assert [k] + [c] == [k, c];
    }
    if k in Children(t) {
      if Children(Children(t)[k]) != map[] {
        var c :| c in Children(Children(t)[k]);
        assert Has(Children(t)[k], [c]);
        assert Has(t, [k, c]);
      } else {
        forall c ensures !Has(Children(t)[k], [c]) { }
      }
    }
  }

  /** What `Remove` leaves at every path. */
  lemma {:induction false} WithoutAt(t: Node, e: Node, p: Path)
    requires e.properties.Entries?
    ensures At(Without(t, e), p) ==
      if Covered(e, p) || (p != [] && PrunedKey(t, e, p[0])) then None else At(t, p)
  {
    var r := Trim(t, e);
    PruneAt(r, p);
    TrimAt(t, e, p);
    if p != [] {
      var k := p[0];
      EmptyObjectAt(r, k);
      TrimAt(t, e, [k]);
      forall c ensures At(r, [k, c]) == if Covered(e, [k, c]) then None else At(t, [k, c]) {
        TrimAt(t, e, [k, c]);
      }
      assert (k in Children(r) && IsEmptyObject(Children(r)[k])) <==> PrunedKey(t, e, k);
    }
  }

  lemma {:induction false} WithoutNilAt(t: Node, e: Node, p: Path)
    requires e.properties.NilMap?
    ensures Without(t, e) == t && !Covered(e, p)
  {
  }

  // ---------------------------------------------------------------- add, then remove

  /** The extension was merged without a clash and then taken out again. */
  function RoundTrip(t: Node, e: Node): Node {
    Without(Merge(t, e), e)
  }

  /** No path of the schema is covered by a leaf of an extension that merges cleanly. */
  lemma {:induction false} CleanMergeUncovered(t: Node, e: Node, p: Path)
    requires !Clashes(t, e) && Has(t, p)
    ensures !Covered(e, p)
  {
    if Covered(e, p) {
      CoveredByLeaf(e, p);
      var i :| 0 <= i <= |p| && IsLeaf(e, p[..i]);
      assert p == p[..i] + p[i..];
      PrefixPresent(t, p[..i], p[i..]);
      LeafMeets(t, e, p[..i]);
    }
  }

  /** Before pruning, what stays is the old tree and the objects the extension brought. */
  lemma {:induction false} RoundTripTrimAt(t: Node, e: Node, p: Path)
    requires !Clashes(t, e)
    ensures At(Trim(Merge(t, e), e), p) ==
      if Has(t, p) then At(t, p) else if IsObjectPath(e, p) then At(e, p) else None
  {
    TrimAt(Merge(t, e), e, p);
    MergeAt(t, e, p);
    UncoveredIsObjectPath(e, p);
    if Has(t, p) {
      CleanMergeUncovered(t, e, p);
    }
  }

  lemma {:induction false} RoundTripAt(t: Node, e: Node, p: Path)
    requires !Clashes(t, e) && e.properties.Entries?
    ensures At(RoundTrip(t, e), p) ==
      if p != [] && EmptyRootAfter(t, e, p[0]) then None
      else if Has(t, p) then At(t, p) else if IsObjectPath(e, p) then At(e, p) else None
  {
    var r := Trim(Merge(t, e), e);
    PruneAt(r, p);
    RoundTripTrimAt(t, e, p);
    if p != [] {
      EmptyObjectAt(r, p[0]);
      RoundTripTrimAt(t, e, [p[0]]);
      forall c ensures Has(r, [p[0], c]) <==> Has(t, [p[0], c]) || IsObjectPath(e, [p[0], c]) {
        RoundTripTrimAt(t, e, [p[0], c]);
        UncoveredIsObjectPath(e, [p[0], c]);
      }
      ObjectKeyLabel(e, p[0]);
    }
  }

  lemma ObjectKeyLabel(e: Node, k: string)
    ensures IsObjectPath(e, [k]) <==> Has(e, [k]) && At(e, [k]).value.typ == OBJECT
  {
    assert [k][1..] == [];
    if k in Children(e) {
      assert At(e, [k]) == At(Children(e)[k], []) && IsObjectPath(Children(e)[k], []);
    }
  }

  /** After adding and trimming, root key `k` is an object without properties. */
  ghost predicate EmptyRootAfter(t: Node, e: Node, k: string) {
    && (if Has(t, [k]) then At(t, [k]).value.typ == OBJECT else IsObjectPath(e, [k]))
    && forall c :: !Has(t, [k, c]) && !IsObjectPath(e, [k, c])
  }

  /** Adding any extension and removing it again restores the leaf fields exactly. */
  lemma {:induction false} AddRemoveRestoresLeaves(t: Node, e: Node, p: Path)
    requires !Clashes(t, e)
    ensures IsLeaf(RoundTrip(t, e), p) <==> IsLeaf(t, p)
    ensures IsLeaf(t, p) ==> At(RoundTrip(t, e), p) == At(t, p)
  {
    var r := RoundTrip(t, e);
    if e.properties.NilMap? {
      return;
    }
    LeafByPrefixes(t, p);
    LeafByPrefixes(r, p);
    forall q: Path { RoundTripAt(t, e, q); }
    if IsLeaf(t, p) {
      NotEmptyRoot(t, e, p);
      forall i | 0 < i < |p| ensures At(r, p[..i]) == At(t, p[..i]) { }
    }
    if IsLeaf(r, p) {
      assert Has(t, p) by {
        if !Has(t, p) { ObjectPathPresent(e, p); }
      }
      forall i | 0 < i < |p| ensures At(r, p[..i]) == At(t, p[..i]) {
        assert p == p[..i] + p[i..];
        PrefixPresent(t, p[..i], p[i..]);
      }
    }
  }

  lemma {:induction false} NotEmptyRoot(t: Node, e: Node, p: Path)
    requires IsLeaf(t, p)
    ensures !EmptyRootAfter(t, e, p[0])
  {
    LeafPresent(t, p);
    if |p| == 1 {
      assert p == [p[0]];
    } else {
      assert p == [p[0], p[1]] + p[2..];
      PrefixPresent(t, [p[0], p[1]], p[2..]);
    }
  }

  /**
   * Adding and removing restores the whole tree exactly when the removal prunes nothing that was
   * empty before and every object the extension introduced is a root object.
   */
  lemma {:induction false} AddRemoveRestoresTreeIff(t: Node, e: Node)
    requires !Clashes(t, e)
    ensures SameTree(RoundTrip(t, e), t) <==>
      && (e.properties.Entries? ==> forall k :: k in Children(t) ==> !IsEmptyObject(Children(t)[k]))
      && forall p :: IsObjectPath(e, p) && !Has(t, p) ==> |p| == 1
  {
    if e.properties.NilMap? {
      return;
    }
    forall q: Path { RoundTripAt(t, e, q); }
    forall k { EmptyObjectAt(t, k); }
    if SameTree(RoundTrip(t, e), t) {
      TreeRestoredOnlyIf(t, e);
    }
    if && (forall k :: k in Children(t) ==> !IsEmptyObject(Children(t)[k]))
       && (forall p :: IsObjectPath(e, p) && !Has(t, p) ==> |p| == 1) {
      forall p: Path ensures At(RoundTrip(t, e), p) == At(t, p) {
        TreeRestoredAt(t, e, p);
      }
    }
  }

  lemma {:induction false} TreeRestoredOnlyIf(t: Node, e: Node)
    requires !Clashes(t, e) && e.properties.Entries? && SameTree(RoundTrip(t, e), t)
    ensures forall k :: k in Children(t) ==> !IsEmptyObject(Children(t)[k])
    ensures forall p :: IsObjectPath(e, p) && !Has(t, p) ==> |p| == 1
  {
    forall p | IsObjectPath(e, p) && !Has(t, p) ensures |p| == 1 {
      RoundTripAt(t, e, p);
      ObjectPathPresent(e, p);
      assert At(RoundTrip(t, e), p) == At(t, p);
      assert EmptyRootAfter(t, e, p[0]);
      if |p| > 1 {
        assert p == [p[0], p[1]] + p[2..];
        ObjectPathPrefix(e, [p[0], p[1]], p[2..]);
      }
    }
    forall k | k in Children(t) ensures !IsEmptyObject(Children(t)[k]) {
      EmptyObjectAt(t, k);
      RoundTripAt(t, e, [k]);
    }
  }

  lemma {:induction false} TreeRestoredAt(t: Node, e: Node, p: Path)
    requires !Clashes(t, e) && e.properties.Entries?
    requires forall k :: k in Children(t) ==> !IsEmptyObject(Children(t)[k])
    requires forall q :: IsObjectPath(e, q) && !Has(t, q) ==> |q| == 1
    ensures At(RoundTrip(t, e), p) == At(t, p)
  {
    RoundTripAt(t, e, p);
    if p != [] {
      var k := p[0];
      EmptyObjectAt(t, k);
      if Has(t, p) {
        assert p == [k] + p[1..];
        PrefixPresent(t, [k], p[1..]);
        assert !EmptyRootAfter(t, e, k);
      } else if IsObjectPath(e, p) {
        assert p == [k];
        forall c ensures !Has(t, [k, c]) && !IsObjectPath(e, [k, c]) {
          assert [k, c] == [k] + [c];
          if Has(t, [k, c]) { PrefixPresent(t, [k], [c]); }
          assert |[k, c]| == 2;
        }
        assert EmptyRootAfter(t, e, k);
      }
    }
  }

  /** A base object without properties does not survive an unrelated extension's coming and going. */
  lemma EmptyBaseObjectIsPruned()
    ensures
      var base := Node("", OBJECT, Entries(map["limits" := Node("", OBJECT, NilMap)]));
      var ext := Node("", OBJECT, Entries(map["x" := Node("", "string", NilMap)]));
      !Clashes(base, ext) && Has(base, ["limits"]) && !Has(RoundTrip(base, ext), ["limits"])
  {
    var base := Node("", OBJECT, Entries(map["limits" := Node("", OBJECT, NilMap)]));
    var ext := Node("", OBJECT, Entries(map["x" := Node("", "string", NilMap)]));
    assert ["limits"][1..] == [];
    RoundTripAt(base, ext, ["limits"]);
    forall c ensures !Has(base, ["limits", c]) && !IsObjectPath(ext, ["limits", c]) {
      assert ["limits", c][1..] == [c];
    }
    assert EmptyRootAfter(base, ext, "limits");
  }
}
