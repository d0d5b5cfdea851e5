/** The schema generator: merging extension properties into a base schema and taking them out again. */
module SpecGen {
  import opened SchemaTree

  // ---------------------------------------------------------------- what add and remove compute

  /** The tree after every property of `e` went in. */
  function Merge(t: Node, e: Node): Node
    decreases e
  {
    if Children(e) == map[] then t
    else
      t.(properties := Entries(
        map k | k in Children(t).Keys + Children(e).Keys ::
          if k !in Children(t) then Children(e)[k]
          else if k in Children(e) && Children(e)[k].typ == OBJECT then Merge(Children(t)[k], Children(e)[k])
          else Children(t)[k]))
  }

  /** Some property of `e` that is not an object meets an existing one. */
  predicate Clashes(t: Node, e: Node)
    decreases e
  {
    exists k :: k in Children(e) && k in Children(t) &&
      (Children(e)[k].typ == OBJECT ==> Clashes(Children(t)[k], Children(e)[k]))
  }

  /** The tree without the leaves of `e`. */
  function Trim(t: Node, e: Node): Node
    decreases e
  {
    if t.properties.NilMap? then t
    else
      t.(properties := Entries(
        map k | k in Children(t) && (k in Children(e) ==> Children(e)[k].typ == OBJECT) ::
          if k in Children(e) then Trim(Children(t)[k], Children(e)[k]) else Children(t)[k]))
  }

  predicate IsEmptyObject(n: Node) {
    n.typ == OBJECT && Children(n) == map[]
  }

  function Prune(t: Node): Node {
    if t.properties.NilMap? then t
    else t.(properties := Entries(map k | k in Children(t) && !IsEmptyObject(Children(t)[k]) :: Children(t)[k]))
  }

  /** Taking an extension out: its leaves go, then every root object left without properties. */
  function Without(t: Node, e: Node): Node {
    if e.properties.NilMap? then t else Prune(Trim(t, e))
  }

  // ---------------------------------------------------------------- the loops over property maps

  /** The tree once the names in `done` have been merged without a clash. */
  function MergeOf(t: Node, e: Node, done: set<string>): Node
    requires done <= Children(e).Keys
  {
    if done == {} then t
    else
      t.(properties := Entries(
        map k | k in Children(t).Keys + done ::
          if k !in Children(t) then Children(e)[k]
          else if k in done && Children(e)[k].typ == OBJECT then Merge(Children(t)[k], Children(e)[k])
          else Children(t)[k]))
  }

  predicate ClashesIn(t: Node, e: Node, k: string) {
    k in Children(e) && k in Children(t) &&
    (Children(e)[k].typ == OBJECT ==> Clashes(Children(t)[k], Children(e)[k]))
  }

  /**
   * What a failed merge leaves behind: property maps are shared by reference, so the properties in
   * `done`, those visited before the clash at `name`, stay; and if the clash is further down, so does
   * what the failed merge of that object left there. Any order of iteration may occur.
   */
  ghost predicate FailsWith(t: Node, e: Node, t': Node)
    decreases e, 1
  {
    exists done: set<string>, name :: FailsAt(t, e, done, name, t')
  }

  ghost predicate FailsAt(t: Node, e: Node, done: set<string>, name: string, t': Node)
    decreases e, 0
  {
    && done <= Children(e).Keys && name !in done && ClashesIn(t, e, name)
    && (forall k :: k in done ==> !ClashesIn(t, e, k))
    && if Children(e)[name].typ != OBJECT then t' == MergeOf(t, e, done)
       else
         exists inner ::
           FailsWith(Children(t)[name], Children(e)[name], inner) && t' == SetChild(MergeOf(t, e, done), name, inner)
  }

  lemma MergeOfStep(t: Node, e: Node, done: set<string>, name: string)
    requires done <= Children(e).Keys && name in Children(e) && name !in done
    requires name in Children(t) ==> Children(e)[name].typ == OBJECT
    ensures MergeOf(t, e, done + {name}) ==
      SetChild(MergeOf(t, e, done), name,
        if name in Children(t) then Merge(Children(t)[name], Children(e)[name]) else Children(e)[name])
  {
    assert Children(MergeOf(t, e, done + {name})) ==
      Children(MergeOf(t, e, done))[name :=
        if name in Children(t) then Merge(Children(t)[name], Children(e)[name]) else Children(e)[name]];
  }

  lemma MergeOfAll(t: Node, e: Node)
    ensures MergeOf(t, e, Children(e).Keys) == Merge(t, e)
  {
    if Children(e).Keys != {} {
      assert Children(e) != map[];
      assert Children(MergeOf(t, e, Children(e).Keys)) == Children(Merge(t, e));
    }
  }

  /**
   * `add`: one pass over the extension's properties in arbitrary order. A nested property map that
   * exists is shared with the parent's entry, so what a failing recursive call wrote there is kept;
   * a map the call had to allocate itself is lost with its local copy of the node.
   */
  method AddProperties(schema: Node, ext: Node) returns (result: Node, ok: bool)
    ensures ok <==> !Clashes(schema, ext)
    ensures ok ==> result == Merge(schema, ext)
    ensures !ok ==> FailsWith(schema, ext, result)
    decreases ext
  {
    result := schema;
    var todo := Children(ext).Keys;
    ghost var done: set<string> := {};
    while todo != {}
      invariant todo + done == Children(ext).Keys && todo !! done
      invariant result == MergeOf(schema, ext, done)
      invariant forall k :: k in done ==> !ClashesIn(schema, ext, k)
    {
      var name :| name in todo;
      var val := Children(ext)[name];
      if name in Children(result) {
        if val.typ != OBJECT {
          assert FailsAt(schema, ext, done, name, result);
          return result, false;
        }
        var inner, innerOk := AddProperties(Children(result)[name], val);
        if !innerOk {
          if Children(result)[name].properties.Entries? {
            result := SetChild(result, name, inner);
          }
          assert FailsAt(schema, ext, done, name, result);
          return result, false;
        }
        MergeOfStep(schema, ext, done, name);
        result := SetChild(result, name, inner);
      } else {
        MergeOfStep(schema, ext, done, name);
        result := SetChild(result, name, val);
      }
      todo, done := todo - {name}, done + {name};
    }
    MergeOfAll(schema, ext);
    assert done == Children(ext).Keys;
    ok := true;
  }

  /** `remove` below the root; `PruneRoot` is the part that runs only at the root. */
  method RemoveProperties(schema: Node, ext: Node) returns (result: Node)
    ensures result == Trim(schema, ext)
    decreases ext
  {
    result := schema;
    if ext.properties.NilMap? {
      assert schema.properties.Entries? ==> Children(Trim(schema, ext)) == Children(schema);
      return;
    }
    var todo := Children(ext).Keys;
    while todo != {}
      invariant todo <= Children(ext).Keys
      invariant result.attrs == schema.attrs && result.typ == schema.typ
      invariant result.properties.NilMap? <==> schema.properties.NilMap?
      invariant forall k :: k in Children(result) <==>
        k in Children(schema) && (k in Children(ext) && k !in todo ==> Children(ext)[k].typ == OBJECT)
      invariant forall k :: k in Children(result) ==>
        Children(result)[k] ==
          if k in Children(ext) && k !in todo then Trim(Children(schema)[k], Children(ext)[k])
          else Children(schema)[k]
    {
      var name :| name in todo;
      var val := Children(ext)[name];
      if name in Children(result) {
        if val.typ == OBJECT {
          var inner := RemoveProperties(Children(result)[name], val);
          result := SetChild(result, name, inner);
        } else {
          result := result.(properties := Entries(Children(result) - {name}));
        }
      }
      todo := todo - {name};
    }
    if schema.properties.Entries? {
      assert Children(result) == Children(Trim(schema, ext));
    }
  }

  method PruneRoot(schema: Node) returns (result: Node)
    ensures result == Prune(schema)
  {
    result := schema;
    var todo := Children(schema).Keys;
    while todo != {}
      invariant todo <= Children(schema).Keys
      invariant result.attrs == schema.attrs && result.typ == schema.typ
      invariant result.properties.NilMap? <==> schema.properties.NilMap?
      invariant forall k :: k in Children(result) <==>
        k in Children(schema) && (k !in todo ==> !IsEmptyObject(Children(schema)[k]))
      invariant forall k :: k in Children(result) ==> Children(result)[k] == Children(schema)[k]
    {
      var name :| name in todo;
      if IsEmptyObject(Children(schema)[name]) {
        result := result.(properties := Entries(Children(result) - {name}));
      }
      todo := todo - {name};
    }
    if schema.properties.Entries? {
      assert Children(result) == Children(Prune(schema));
    }
  }
}
