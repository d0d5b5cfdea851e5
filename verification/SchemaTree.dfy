/** Property trees of a custom resource schema, addressed by path. */
module SchemaTree {

  import opened Collections

  /** A schema node: everything that is not `type` or `properties` is kept in `attrs`. */
  datatype Node = Node(attrs: string, typ: string, properties: Properties)

  /** A Go map is nil until something allocates it; a failed `Add` tells the two apart. */
  datatype Properties = NilMap | Entries(m: map<string, Node>)

  datatype Label = Label(attrs: string, typ: string)

  type Path = seq<string>

  const OBJECT := "object"

  function Children(n: Node): map<string, Node> {
    match n.properties
    case NilMap => map[]
    case Entries(m) => m
  }

  /** Assigning to `schema.Properties[name]`, allocating the map when it is nil. */
  function SetChild(n: Node, name: string, child: Node): Node {
    n.(properties := Entries(Children(n)[name := child]))
  }

  /** What the tree holds at a path, if anything. */
  function At(n: Node, p: Path): Option<Label> {
    if p == [] then Some(Label(n.attrs, n.typ))
    else if p[0] in Children(n) then At(Children(n)[p[0]], p[1..])
    else None
  }

  ghost predicate Has(n: Node, p: Path) {
    At(n, p).Some?
  }

  /** Two trees that render alike: nil and empty property maps are both omitted. */
  ghost predicate SameTree(a: Node, b: Node) {
    forall p: Path :: At(a, p) == At(b, p)
  }

  /** `p` leads through objects to a property that is not an object. */
  predicate IsLeaf(n: Node, p: Path) {
    p != [] && p[0] in Children(n) &&
    if Children(n)[p[0]].typ == OBJECT then IsLeaf(Children(n)[p[0]], p[1..]) else |p| == 1
  }

  /** `p` leads through objects to an object. */
  predicate IsObjectPath(n: Node, p: Path) {
    p != [] ==>
      p[0] in Children(n) && Children(n)[p[0]].typ == OBJECT && IsObjectPath(Children(n)[p[0]], p[1..])
  }

  /** Some prefix of `p` is a leaf of the tree. */
  predicate Covered(n: Node, p: Path) {
    p != [] && p[0] in Children(n) &&
    (Children(n)[p[0]].typ == OBJECT ==> Covered(Children(n)[p[0]], p[1..]))
  }

  // ---------------------------------------------------------------- basic facts about paths

  lemma {:induction false} PrefixPresent(n: Node, p: Path, q: Path)
    requires Has(n, p + q)
    ensures Has(n, p)
  {
    if p != [] {
      assert (p + q)[1..] == p[1..] + q;
      PrefixPresent(Children(n)[p[0]], p[1..], q);
    }
  }

  lemma {:induction false} ObjectPathPrefix(n: Node, p: Path, q: Path)
    requires IsObjectPath(n, p + q)
    ensures IsObjectPath(n, p)
  {
    if p != [] {
      assert (p + q)[1..] == p[1..] + q;
      ObjectPathPrefix(Children(n)[p[0]], p[1..], q);
    }
  }

  lemma {:induction false} LeafPresent(n: Node, p: Path)
    requires IsLeaf(n, p)
    ensures p != [] && Has(n, p) && At(n, p).value.typ != OBJECT
  {
    if Children(n)[p[0]].typ == OBJECT {
      LeafPresent(Children(n)[p[0]], p[1..]);
    } else {
      assert p[1..] == [];
    }
  }

  lemma {:induction false} ObjectPathPresent(n: Node, p: Path)
    requires IsObjectPath(n, p)
    ensures Has(n, p) && (p != [] ==> At(n, p).value.typ == OBJECT)
  {
    if p != [] {
      ObjectPathPresent(Children(n)[p[0]], p[1..]);
    }
  }

  /** `Covered` means what its comment says. */
  lemma {:induction false} CoveredByLeaf(n: Node, p: Path)
    ensures Covered(n, p) <==> exists i :: 0 <= i <= |p| && IsLeaf(n, p[..i])
  {
    if p != [] && p[0] in Children(n) {
      var c := Children(n)[p[0]];
      CoveredByLeaf(c, p[1..]);
      if c.typ == OBJECT {
        forall i | 0 < i <= |p|
          ensures IsLeaf(n, p[..i]) <==> IsLeaf(c, p[1..][..i - 1])
        {
          assert p[..i][1..] == p[1..][..i - 1];
        }
        if Covered(c, p[1..]) {
          var j :| 0 <= j <= |p[1..]| && IsLeaf(c, p[1..][..j]);
          assert IsLeaf(n, p[..j + 1]);
        }
        if exists i :: 0 <= i <= |p| && IsLeaf(n, p[..i]) {
          var i :| 0 <= i <= |p| && IsLeaf(n, p[..i]);
          assert i > 0;
          assert IsLeaf(c, p[1..][..i - 1]);
        }
      } else {
        assert IsLeaf(n, p[..1]);
      }
    } else {
      forall i | 0 <= i <= |p| ensures !IsLeaf(n, p[..i]) { }
    }
  }

  lemma {:induction false} LeafIsCovered(n: Node, p: Path, q: Path)
    requires IsLeaf(n, p)
    ensures Covered(n, p + q)
  {
    if Children(n)[p[0]].typ == OBJECT {
      assert (p + q)[1..] == p[1..] + q;
      LeafIsCovered(Children(n)[p[0]], p[1..], q);
    }
  }

  /** A path of the tree that no leaf covers is one of its objects, and the other way round. */
  lemma {:induction false} UncoveredIsObjectPath(n: Node, p: Path)
    ensures Has(n, p) && !Covered(n, p) <==> IsObjectPath(n, p)
  {
    if p != [] && p[0] in Children(n) {
      UncoveredIsObjectPath(Children(n)[p[0]], p[1..]);
    }
  }

  lemma {:induction false} AtCons(n: Node, k: string, p: Path)
    ensures At(n, [k] + p) == if k in Children(n) then At(Children(n)[k], p) else None
  {
    assert ([k] + p)[1..] == p;
  }

  /** The recursive definition of a leaf agrees with reading off the labels of its prefixes. */
  lemma {:induction false} LeafByPrefixes(n: Node, p: Path)
    ensures IsLeaf(n, p) <==>
      p != [] && Has(n, p) && At(n, p).value.typ != OBJECT &&
      forall i :: 0 < i < |p| ==> Has(n, p[..i]) && At(n, p[..i]).value.typ == OBJECT
  {
    if p != [] && p[0] in Children(n) {
      var c := Children(n)[p[0]];
      LeafByPrefixes(c, p[1..]);
      if |p| > 1 {
        assert p[..1][1..] == [];
        assert At(n, p[..1]) == At(c, []);
        forall i | 1 <= i < |p|
          ensures At(n, p[..i]) == At(c, p[1..][..i - 1])
        {
          assert p[..i][1..] == p[1..][..i - 1];
        }
        forall j | 0 < j < |p[1..]|
          ensures At(c, p[1..][..j]) == At(n, p[..j + 1])
        {
          assert p[..j + 1][1..] == p[1..][..j];
        }
      } else {
        assert p[1..] == [];
        assert At(n, p) == At(c, []) && !IsLeaf(c, []);
      }
    }
  }
}
