/** Merge patches and decoding, read off path by path. */
module DocPaths {
  import opened Collections
  import opened MergePatch

  type Path = seq<string>

  /** What a document holds at a path through its objects. */
  function Look(j: Json, q: Path): Option<Json> {
    if q == [] then Some(j)
    else if j.Obj? && q[0] in j.m then Look(j.m[q[0]], q[1..])
    else None
  }

  /** The text at a path, if there is one. */
  function TextAt(j: Json, q: Path): Option<string> {
    match Look(j, q)
    case Some(Scalar(text)) => Some(text)
    case _ => None
  }

  /**
   * What a patch has to say about a path: a value for it, that it is to go, that it is an object,
   * that something above it is no longer an object, or nothing.
   */
  datatype Word = Sets(value: Json) | Drops | Opens | Cuts | Silent

  function Says(p: Json, q: Path): Word {
    match p
    case Null => Drops
    case Obj(m) => if q == [] then Opens else if q[0] in m then Says(m[q[0]], q[1..]) else Silent
    case _ => if q == [] then Sets(p) else Cuts
  }

  predicate IsObject(j: Option<Json>) {
    j.Some? && j.value.Obj?
  }

  /** What a value that replaces outright, or patches nothing, leaves at a path. */
  lemma SaidPlainly(p: Json, q: Path)
    requires !p.Obj? && p != Null
    ensures if q == [] then Says(p, q) == Sets(p) && Look(p, q) == Some(p) else Says(p, q) == Cuts && Look(p, q) == None
  {
  }

  /** Applying a patch does what it says, and leaves alone what it says nothing about. */
  lemma {:induction false} ApplyAt(d: Json, p: Json, q: Path)
    requires p.Obj?
    ensures
      var r := Look(Apply(d, p), q);
      match Says(p, q)
      case Sets(v) => r == Some(v)
      case Drops => r == None
      case Opens => IsObject(r)
      case Cuts => r == None
      case Silent => r == Look(d, q)
    decreases q
  {
    if q != [] && q[0] in p.m && p.m[q[0]] == Null {
      assert Says(p.m[q[0]], q[1..]) == Drops;
    } else if q != [] && q[0] in p.m {
      var inner := Field(d, q[0]);
      assert Look(Apply(d, p), q) == Look(Apply(inner, p.m[q[0]]), q[1..]);
      if p.m[q[0]].Obj? {
        ApplyAt(inner, p.m[q[0]], q[1..]);
        assert q[1..] != [] ==> Look(inner, q[1..]) == Look(d, q);
      } else {
        SaidPlainly(p.m[q[0]], q[1..]);
      }
    }
  }

  /** Laying the result over the original does too, except that what is to go stays. */
  lemma {:induction false} OverlayLook(d: Json, p: Json, q: Path)
    requires p.Obj?
    ensures
      var r := Look(Combine(d, Apply(d, p)), q);
      match Says(p, q)
      case Sets(v) => r == Some(v)
      case Drops => r == Look(d, q)
      case Opens => IsObject(r)
      case Cuts => r == None
      case Silent => r == Look(d, q)
    decreases q
  {
    if !d.Obj? {
      ApplyAt(d, p, q);
    } else if q != [] {
      var k := q[0];
      if k !in p.m {
        if k in d.m { CombineSelf(d.m[k]); }
      } else if p.m[k] == Null {
        assert Says(p.m[k], q[1..]) == Drops;
      } else {
        OverlayLookIn(d, p, q);
      }
    }
  }

  lemma {:induction false} OverlayLookIn(d: Json, p: Json, q: Path)
    requires d.Obj? && p.Obj? && q != [] && q[0] in p.m && p.m[q[0]] != Null
    ensures
      var r := Look(Combine(d, Apply(d, p)), q);
      match Says(p, q)
      case Sets(v) => r == Some(v)
      case Drops => r == Look(d, q)
      case Opens => IsObject(r)
      case Cuts => r == None
      case Silent => r == Look(d, q)
    decreases q, 0
  {
    var k := q[0];
    var rest := q[1..];
    if !p.m[k].Obj? {
      SaidPlainly(p.m[k], rest);
      assert Look(Combine(d, Apply(d, p)), q) == Look(p.m[k], rest);
    } else if k in d.m {
      OverlayLook(d.m[k], p.m[k], rest);
      assert Look(Combine(d, Apply(d, p)), q) == Look(Combine(d.m[k], Apply(d.m[k], p.m[k])), rest);
    } else {
      ApplyAt(Null, p.m[k], rest);
      assert Look(Combine(d, Apply(d, p)), q) == Look(Apply(Null, p.m[k]), rest);
    }
  }
}
