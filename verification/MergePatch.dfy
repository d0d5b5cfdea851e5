/** JSON merge patches (RFC 7396, section 2) and folding several of them into one. */
module MergePatch {

  datatype Json =
    | Null
    | Scalar(text: string)
    | Arr(items: seq<Json>)
    | Obj(m: map<string, Json>)

  function Fields(j: Json): map<string, Json> {
    if j.Obj? then j.m else map[]
  }

  function Field(j: Json, k: string): Json {
    if k in Fields(j) then Fields(j)[k] else Null
  }

  /** MergePatch(Target, Patch) of RFC 7396; an absent target is `Null`. */
  function Apply(target: Json, patch: Json): (r: Json)
    ensures r.Obj? <==> patch.Obj?
    decreases patch
  {
    if !patch.Obj? then patch
    else
      Obj(map k | k in Fields(target).Keys + patch.m.Keys && (k in patch.m ==> patch.m[k] != Null) ::
        if k in patch.m then Apply(Field(target, k), patch.m[k]) else Fields(target)[k])
  }

  /** Two patches folded into one, the later one winning and its nulls kept. */
  function Combine(first: Json, second: Json): Json
    decreases second
  {
    if !first.Obj? || !second.Obj? then second
    else
      Obj(map k | k in first.m.Keys + second.m.Keys ::
        if k !in second.m then first.m[k]
        else if k in first.m then Combine(first.m[k], second.m[k])
        else second.m[k])
  }

  /** The second patch holds no object where the first holds null or another non-object. */
  predicate Mergeable(first: Json, second: Json)
    decreases second
  {
    second.Obj? ==>
      && first.Obj?
      && forall k :: k in first.m && k in second.m ==> Mergeable(first.m[k], second.m[k])
  }

  // ---------------------------------------------------------------- two patches

  lemma {:induction false} CombineApplies(d: Json, a: Json, b: Json)
    requires Mergeable(a, b)
    ensures Apply(d, Combine(a, b)) == Apply(Apply(d, a), b)
    decreases b
  {
    if b.Obj? {
      var left, right := Apply(d, Combine(a, b)), Apply(Apply(d, a), b);
      forall k ensures (k in left.m <==> k in right.m) && (k in left.m ==> left.m[k] == right.m[k]) {
        CombineAppliesAt(d, a, b, k);
      }
      assert left.m == right.m;
    }
  }

  lemma {:induction false} CombineAppliesAt(d: Json, a: Json, b: Json, k: string)
    requires b.Obj? && Mergeable(a, b)
    ensures
      var left, right := Apply(d, Combine(a, b)).m, Apply(Apply(d, a), b).m;
      (k in left <==> k in right) && (k in left ==> left[k] == right[k])
    decreases b, 0
  {
    if k in b.m && k in a.m {
      CombineNull(a.m[k], b.m[k]);
      if b.m[k] != Null && a.m[k] != Null {
        CombineApplies(Field(d, k), a.m[k], b.m[k]);
      }
    }
  }

  lemma CombineNull(a: Json, b: Json)
    ensures Combine(a, b) == Null <==> b == Null
  {
  }

  lemma {:induction false} FreshKey(s: set<string>) returns (k: string)
    ensures k !in s
  {
    var n: nat := 0;
    var rest := s;
    while rest != {}
      invariant rest <= s
      invariant forall x :: x in s && x !in rest ==> |x| < n
    {
      var x :| x in rest;
      n := n + |x| + 1;
      rest := rest - {x};
    }
    k := seq(n, _ => 'x');
  }

  /** Where the second patch builds an object on a non-object, no single patch has the same effect. */
  lemma {:induction false} NoSinglePatch(a: Json, b: Json, c: Json) returns (d: Json)
    requires !Mergeable(a, b)
    ensures Apply(d, c) != Apply(Apply(d, a), b)
    decreases b
  {
    d := Obj(map[]);
    if !c.Obj? {
      return;
    }
    if !a.Obj? {
      var r := Apply(a, b);
      var k := FreshKey(c.m.Keys + r.m.Keys);
      d := Obj(map[k := Scalar("")]);
      assert k in Apply(d, c).m;
      assert Apply(d, a) == a;
      return;
    }
    var k :| k in a.m && k in b.m && !Mergeable(a.m[k], b.m[k]);
    assert k in Apply(Apply(d, a), b).m;
    if k in c.m && c.m[k] != Null {
      var inner := NoSinglePatch(a.m[k], b.m[k], c.m[k]);
      d := Obj(map[k := inner]);
      assert Apply(d, c).m[k] == Apply(inner, c.m[k]);
      assert Apply(Apply(d, a), b).m[k] == Apply(Apply(inner, a.m[k]), b.m[k]) by {
        assert Field(Apply(d, a), k) == if a.m[k] == Null then Null else Apply(inner, a.m[k]);
      }
    }
  }

  /** Patch `c` does to every document what `a` and then `b` do. */
  ghost predicate ActsAs(c: Json, a: Json, b: Json) {
    forall d :: Apply(d, c) == Apply(Apply(d, a), b)
  }

  /** The folded patch does what the two do one after the other: exactly on mergeable pairs. */
  lemma {:induction false} CombineCorrectIff(a: Json, b: Json)
    ensures Mergeable(a, b) <==> ActsAs(Combine(a, b), a, b)
  {
    if Mergeable(a, b) {
      forall d ensures Apply(d, Combine(a, b)) == Apply(Apply(d, a), b) {
        CombineApplies(d, a, b);
      }
    } else {
      var d := NoSinglePatch(a, b, Combine(a, b));
    }
  }

  /** And on the other pairs no patch whatever would do. */
  lemma {:induction false} SinglePatchExistsIff(a: Json, b: Json)
    ensures Mergeable(a, b) <==> exists c :: ActsAs(c, a, b)
  {
    CombineCorrectIff(a, b);
    if !Mergeable(a, b) {
      forall c ensures !ActsAs(c, a, b) {
        var d := NoSinglePatch(a, b, c);
      }
    }
  }

  // ---------------------------------------------------------------- regrouping

  lemma {:induction false} MergeableRegroup(a: Json, b: Json, c: Json)
    requires Mergeable(a, b) && Mergeable(Combine(a, b), c)
    ensures Mergeable(b, c) && Mergeable(a, Combine(b, c))
    decreases c
  {
    if c.Obj? {
      assert b.Obj? && a.Obj?;
      forall k | k in b.m && k in c.m
        ensures Mergeable(b.m[k], c.m[k])
      {
        if k in a.m {
          MergeableRegroup(a.m[k], b.m[k], c.m[k]);
        } else {
          assert Combine(a, b).m[k] == b.m[k];
        }
      }
      forall k | k in a.m && k in Combine(b, c).m
        ensures Mergeable(a.m[k], Combine(b, c).m[k])
      {
        if k in b.m && k in c.m {
          MergeableRegroup(a.m[k], b.m[k], c.m[k]);
        } else if k in c.m {
          assert Combine(a, b).m[k] == a.m[k];
        }
      }
    }
  }

  lemma {:induction false} CombineAssociative(a: Json, b: Json, c: Json)
    requires Mergeable(Combine(a, b), c)
    ensures Combine(Combine(a, b), c) == Combine(a, Combine(b, c))
    decreases c
  {
    if c.Obj? && a.Obj? && b.Obj? {
      var left, right := Combine(Combine(a, b), c), Combine(a, Combine(b, c));
      forall k | k in left.m ensures left.m[k] == right.m[k] {
        if k in a.m && k in b.m && k in c.m {
          CombineAssociative(a.m[k], b.m[k], c.m[k]);
        }
      }
      assert left.m == right.m;
    }
  }

  // ---------------------------------------------------------------- lists of patches

  /** The patch accumulated from a nonempty list, in arrival order. */
  function Fold(ps: seq<Json>): Json
    requires ps != []
  {
    if |ps| == 1 then ps[0] else Combine(Fold(ps[..|ps| - 1]), ps[|ps| - 1])
  }

  function ApplyAll(d: Json, ps: seq<Json>): Json {
    if ps == [] then d else Apply(ApplyAll(d, ps[..|ps| - 1]), ps[|ps| - 1])
  }

  /** Each patch is mergeable with what came before it. */
  predicate Chain(ps: seq<Json>) {
    |ps| > 1 ==> Chain(ps[..|ps| - 1]) && Mergeable(Fold(ps[..|ps| - 1]), ps[|ps| - 1])
  }

  /** Folding any list of mergeable patches and applying once equals applying them in turn. */
  lemma {:induction false} FoldApplies(d: Json, ps: seq<Json>)
    requires ps != [] && Chain(ps)
    ensures Apply(d, Fold(ps)) == ApplyAll(d, ps)
    decreases |ps|
  {
    var front, last := ps[..|ps| - 1], ps[|ps| - 1];
    if |ps| == 1 {
      assert front == [];
    } else {
      FoldApplies(d, front);
      CombineApplies(d, Fold(front), last);
    }
  }

  /** A list may be folded in any grouping. */
  lemma {:induction false} FoldSplits(ps: seq<Json>, qs: seq<Json>)
    requires ps != [] && qs != [] && Chain(ps + qs)
    ensures Chain(ps) && Chain(qs) && Mergeable(Fold(ps), Fold(qs))
    ensures Fold(ps + qs) == Combine(Fold(ps), Fold(qs))
    decreases |qs|
  {
    var n := |qs| - 1;
    assert (ps + qs)[..|ps + qs| - 1] == ps + qs[..n];
    if n == 0 {
      assert ps + qs[..n] == ps;
    } else {
      FoldSplits(ps, qs[..n]);
      MergeableRegroup(Fold(ps), Fold(qs[..n]), qs[n]);
      CombineAssociative(Fold(ps), Fold(qs[..n]), qs[n]);
    }
  }

  // ---------------------------------------------------------------- exactly which lists fold

  /** What a list of patches comes to: replacing a value outright (by nothing if null), or patching it. */
  datatype Effect = Put(value: Json) | Patch(fields: map<string, Effect>)

  function Act(d: Json, e: Effect): (r: Json)
    ensures e.Patch? ==> r.Obj?
    decreases e
  {
    match e
    case Put(j) => j
    case Patch(m) =>
      Obj(map k | k in Fields(d).Keys + m.Keys && (k in m ==> Act(Field(d, k), m[k]) != Null) ::
        if k in m then Act(Field(d, k), m[k]) else Fields(d)[k])
  }

  function EffectOf(p: Json): Effect {
    if p.Obj? then Patch(map k | k in p.m :: EffectOf(p.m[k])) else Put(p)
  }

  /** The effect followed by one more patch. */
  function Then(e: Effect, p: Json): Effect
    decreases p
  {
    if !p.Obj? then Put(p)
    else
      match e
      case Put(j) => Put(Apply(j, p))
      case Patch(m) =>
        Patch(map k | k in m.Keys + p.m.Keys ::
          if k !in p.m then m[k] else if k in m then Then(m[k], p.m[k]) else EffectOf(p.m[k]))
  }

  function EffectAll(ps: seq<Json>): Effect
    requires ps != []
  {
    if |ps| == 1 then EffectOf(ps[0]) else Then(EffectAll(ps[..|ps| - 1]), ps[|ps| - 1])
  }

  lemma {:induction false} ActEffectOf(d: Json, p: Json)
    ensures Act(d, EffectOf(p)) == Apply(d, p)
    decreases p, 1
  {
    if p.Obj? {
      var left, right := Act(d, EffectOf(p)), Apply(d, p);
      forall k ensures (k in left.m <==> k in right.m) && (k in left.m ==> left.m[k] == right.m[k]) {
        ActEffectOfAt(d, p, k);
      }
      assert left.m == right.m;
    }
  }

  lemma {:induction false} ActEffectOfAt(d: Json, p: Json, k: string)
    requires p.Obj?
    ensures
      var left, right := Act(d, EffectOf(p)).m, Apply(d, p).m;
      (k in left <==> k in right) && (k in left ==> left[k] == right[k])
    decreases p, 0
  {
    if k in p.m {
      ActEffectOf(Field(d, k), p.m[k]);
      assert Apply(Field(d, k), p.m[k]) == Null <==> p.m[k] == Null;
    }
  }

  lemma {:induction false} ActThen(d: Json, e: Effect, p: Json)
    ensures Act(d, Then(e, p)) == Apply(Act(d, e), p)
    decreases p, 1
  {
    if p.Obj? && e.Patch? {
      var left, right := Act(d, Then(e, p)), Apply(Act(d, e), p);
      forall k ensures (k in left.m <==> k in right.m) && (k in left.m ==> left.m[k] == right.m[k]) {
        ActThenAt(d, e, p, k);
      }
      assert left.m == right.m;
    }
  }

  lemma {:induction false} ActThenAt(d: Json, e: Effect, p: Json, k: string)
    requires p.Obj? && e.Patch?
    ensures
      var left, right := Act(d, Then(e, p)).m, Apply(Act(d, e), p).m;
      (k in left <==> k in right) && (k in left ==> left[k] == right[k])
    decreases p, 0
  {
    if k in p.m {
      var here := Field(d, k);
      if k in e.fields {
        ActThen(here, e.fields[k], p.m[k]);
        assert Field(Act(d, e), k) == Act(here, e.fields[k]);
      } else {
        ActEffectOf(here, p.m[k]);
        assert Field(Act(d, e), k) == here;
      }
      assert Apply(Field(Act(d, e), k), p.m[k]) == Null <==> p.m[k] == Null;
    }
  }

  /** `EffectAll` is what applying the patches in turn does to every document. */
  lemma {:induction false} ActAll(d: Json, ps: seq<Json>)
    requires ps != []
    ensures Act(d, EffectAll(ps)) == ApplyAll(d, ps)
    decreases |ps|
  {
    var front, last := ps[..|ps| - 1], ps[|ps| - 1];
    if |ps| == 1 {
      assert front == [];
      ActEffectOf(d, last);
    } else {
      ActAll(d, front);
      ActThen(d, EffectAll(front), last);
    }
  }

  /** Nowhere is an object put in place outright; a merge patch cannot say that. */
  predicate Representable(e: Effect) {
    match e
    case Put(j) => !j.Obj?
    case Patch(m) => forall k :: k in m ==> Representable(m[k])
  }

  /** The patch says what the effect does wherever a patch can. */
  predicate Agrees(c: Json, e: Effect)
    decreases e
  {
    match e
    case Put(j) => j.Obj? || c == j
    case Patch(m) => c.Obj? && c.m.Keys == m.Keys && forall k :: k in m ==> Agrees(c.m[k], m[k])
  }

  lemma {:induction false} PatchAgrees(p: Json)
    ensures Agrees(p, EffectOf(p))
  {
    if p.Obj? {
      forall k | k in p.m ensures Agrees(p.m[k], EffectOf(p.m[k])) {
        PatchAgrees(p.m[k]);
      }
    }
  }

  lemma {:induction false} CombineAgrees(c: Json, e: Effect, p: Json)
    requires Agrees(c, e)
    ensures Agrees(Combine(c, p), Then(e, p))
    decreases p
  {
    if p.Obj? && e.Patch? {
      forall k | k in Then(e, p).fields ensures Agrees(Combine(c, p).m[k], Then(e, p).fields[k]) {
        if k in p.m && k in e.fields {
          CombineAgrees(c.m[k], e.fields[k], p.m[k]);
        } else if k in p.m {
          PatchAgrees(p.m[k]);
        }
      }
    }
  }

  lemma {:induction false} FoldAgrees(ps: seq<Json>)
    requires ps != []
    ensures Agrees(Fold(ps), EffectAll(ps))
    decreases |ps|
  {
    if |ps| == 1 {
      PatchAgrees(ps[0]);
    } else {
      FoldAgrees(ps[..|ps| - 1]);
      CombineAgrees(Fold(ps[..|ps| - 1]), EffectAll(ps[..|ps| - 1]), ps[|ps| - 1]);
    }
  }

  lemma {:induction false} AgreeingPatchActs(d: Json, c: Json, e: Effect)
    requires Agrees(c, e) && Representable(e)
    ensures Apply(d, c) == Act(d, e)
    decreases e, 1
  {
    if e.Patch? {
      var left, right := Apply(d, c), Act(d, e);
      forall k ensures (k in left.m <==> k in right.m) && (k in left.m ==> left.m[k] == right.m[k]) {
        AgreeingPatchActsAt(d, c, e, k);
      }
      assert left.m == right.m;
    }
  }

  lemma {:induction false} AgreeingPatchActsAt(d: Json, c: Json, e: Effect, k: string)
    requires Agrees(c, e) && Representable(e) && e.Patch?
    ensures
      var left, right := Apply(d, c).m, Act(d, e).m;
      (k in left <==> k in right) && (k in left ==> left[k] == right[k])
    decreases e, 0
  {
    if k in e.fields {
      AgreeingPatchActs(Field(d, k), c.m[k], e.fields[k]);
      assert Apply(Field(d, k), c.m[k]) == Null <==> c.m[k] == Null;
    }
  }

  /** No patch whatever has an effect that puts an object in place. */
  lemma {:induction false} NoPatchActs(e: Effect, c: Json) returns (d: Json)
    requires !Representable(e)
    ensures Apply(d, c) != Act(d, e)
    decreases e
  {
    d := Obj(map[]);
    if !c.Obj? {
      return;
    }
    match e {
      case Put(j) =>
        var k := FreshKey(c.m.Keys + j.m.Keys);
        d := Obj(map[k := Scalar("")]);
        assert k in Apply(d, c).m;
      case Patch(m) =>
        var k :| k in m && !Representable(m[k]);
        assert k in Act(d, e).m;
        if k in c.m && c.m[k] != Null {
          var inner := NoPatchActs(m[k], c.m[k]);
          d := Obj(map[k := inner]);
          assert Apply(d, c).m[k] == Apply(inner, c.m[k]);
          assert Act(d, e).m[k] == Act(inner, m[k]);
        }
    }
  }

  ghost predicate ActsAsAll(c: Json, ps: seq<Json>) {
    forall d :: Apply(d, c) == ApplyAll(d, ps)
  }

  /**
   * Folding a list of patches, of any length, does what applying them in turn does exactly when the
   * list puts no object in place outright; and no other patch would do on the remaining lists.
   */
  lemma {:induction false} FoldCorrectIff(ps: seq<Json>)
    requires ps != []
    ensures ActsAsAll(Fold(ps), ps) <==> Representable(EffectAll(ps))
    ensures (exists c :: ActsAsAll(c, ps)) <==> Representable(EffectAll(ps))
  {
    forall d ensures Act(d, EffectAll(ps)) == ApplyAll(d, ps) {
      ActAll(d, ps);
    }
    if Representable(EffectAll(ps)) {
      FoldAgrees(ps);
      forall d ensures Apply(d, Fold(ps)) == ApplyAll(d, ps) {
        AgreeingPatchActs(d, Fold(ps), EffectAll(ps));
      }
    } else {
      forall c ensures !ActsAsAll(c, ps) {
        var d := NoPatchActs(EffectAll(ps), c);
      }
    }
  }

  // ---------------------------------------------------------------- decoding what was patched

  lemma {:induction false} CombineSelf(a: Json)
    ensures Combine(a, a) == a
  {
    if a.Obj? {
      forall k | k in a.m ensures Combine(a.m[k], a.m[k]) == a.m[k] {
        CombineSelf(a.m[k]);
      }
      assert Combine(a, a).m == a.m;
    }
  }

  /** The patch holds a null where the document holds something. */
  predicate Deletes(d: Json, p: Json)
    decreases p
  {
    d.Obj? && p.Obj? && exists k :: k in p.m && k in d.m && (p.m[k] == Null || Deletes(d.m[k], p.m[k]))
  }

  /**
   * Laying the patched document over the original, which keeps fields that are absent from it, gives
   * the patched document back exactly when the patch deletes nothing.
   */
  lemma {:induction false} OverlayIff(d: Json, p: Json)
    ensures Combine(d, Apply(d, p)) == Apply(d, p) <==> !Deletes(d, p)
    decreases p, 1
  {
    if d.Obj? && p.Obj? {
      var over, out := Combine(d, Apply(d, p)).m, Apply(d, p).m;
      forall k ensures k in over && !(k in out && over[k] == out[k]) <==>
        k in p.m && k in d.m && (p.m[k] == Null || Deletes(d.m[k], p.m[k]))
      {
        OverlayAt(d, p, k);
      }
      if !Deletes(d, p) {
        assert over == out;
      } else {
        var k :| k in p.m && k in d.m && (p.m[k] == Null || Deletes(d.m[k], p.m[k]));
        assert k in over && !(k in out && over[k] == out[k]);
      }
    }
  }

  lemma {:induction false} OverlayAt(d: Json, p: Json, k: string)
    requires d.Obj? && p.Obj?
    ensures
      var over, out := Combine(d, Apply(d, p)).m, Apply(d, p).m;
      && (k in out ==> k in over)
      && (k in over && !(k in out && over[k] == out[k]) <==>
          k in p.m && k in d.m && (p.m[k] == Null || Deletes(d.m[k], p.m[k])))
    decreases p, 0
  {
    if k in d.m {
      if k in p.m {
        OverlayIff(d.m[k], p.m[k]);
      } else {
        CombineSelf(d.m[k]);
      }
    }
  }

  // ---------------------------------------------------------------- the order of two patches

  /** Where both patches say something, it is the same or both are objects. */
  predicate Settles(a: Json, b: Json)
    decreases b
  {
    a == b || (a.Obj? && b.Obj? && forall k :: k in a.m && k in b.m ==> Settles(a.m[k], b.m[k]))
  }

  /** Two patches may be folded in either order, onto any other, exactly when they settle. */
  lemma {:induction false} SwapIff(f: Json, a: Json, b: Json)
    ensures Combine(Combine(f, a), b) == Combine(Combine(f, b), a) <==> Settles(a, b)
    decreases b, 1
  {
    if a.Obj? && b.Obj? && a != b {
      var left, right := Combine(Combine(f, a), b).m, Combine(Combine(f, b), a).m;
      forall k ensures
        && (k in left <==> k in right)
        && (k in left ==> (left[k] == right[k] <==> (k in a.m && k in b.m ==> Settles(a.m[k], b.m[k]))))
      {
        SwapAt(f, a, b, k);
      }
      if Settles(a, b) {
        assert left == right;
      }
    } else if a == b {
    } else {
      assert !Settles(a, b);
      SwapKinds(f, a, b);
    }
  }

  lemma SwapKinds(f: Json, a: Json, b: Json)
    requires a != b && !(a.Obj? && b.Obj?)
    ensures Combine(Combine(f, a), b) != Combine(Combine(f, b), a)
  {
  }

  lemma {:induction false} SwapAt(f: Json, a: Json, b: Json, k: string)
    requires a.Obj? && b.Obj?
    ensures
      var left, right := Combine(Combine(f, a), b).m, Combine(Combine(f, b), a).m;
      && (k in left <==> k in right)
      && (k in left ==> (left[k] == right[k] <==> (k in a.m && k in b.m ==> Settles(a.m[k], b.m[k]))))
    decreases b, 0
  {
    if k in a.m && k in b.m {
      if f.Obj? && k in f.m {
        SwapIff(f.m[k], a.m[k], b.m[k]);
      } else {
        CommuteIff(a.m[k], b.m[k]);
      }
    }
  }

  lemma {:induction false} CommuteIff(a: Json, b: Json)
    ensures Combine(a, b) == Combine(b, a) <==> Settles(a, b)
    decreases b
  {
    if a.Obj? && b.Obj? && a != b {
      var left, right := Combine(a, b).m, Combine(b, a).m;
      forall k | k in a.m && k in b.m ensures left[k] == right[k] <==> Settles(a.m[k], b.m[k]) {
        CommuteIff(a.m[k], b.m[k]);
      }
      if Settles(a, b) {
        assert left == right;
      }
    } else if a == b {
    } else {
      assert Combine(a, b) == b && Combine(b, a) == a;
    }
  }
}
