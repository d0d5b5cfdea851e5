/** Filing parsed pages into categories and groups. */
module DocsFiling {
  import opened Collections
  import opened Docs

  /** How group fields are read (name and weight) and how slugs are made. */
  datatype Reading = Reading(group: string -> (string, int), slug: string -> string)

  predicate BelongsTo(r: Reading, p: Page, category: string, group: string) {
    p.category == category && r.group(p.group).0 == group
  }

  /** The pages that name this category and group, in order. */
  function Filter(r: Reading, ps: seq<Page>, category: string, group: string): seq<Page> {
    if ps == [] then []
    else
      var n := |ps| - 1;
      Filter(r, ps[..n], category, group) + if BelongsTo(r, ps[n], category, group) then [ps[n]] else []
  }

  predicate DistinctGroups(gs: seq<GroupValue>) {
    forall i, j :: 0 <= i < j < |gs| ==> gs[i].name != gs[j].name
  }

  /** The group has the weight its first page gives it. */
  predicate Weighted(r: Reading, g: GroupValue, pages: seq<Page>) {
    pages != [] && g.weight == r.group(pages[0].group).1
  }

  /** The groups of a category hold the pages that name them, the first of which made the group. */
  predicate Filed(r: Reading, category: string, gs: seq<GroupValue>, ps: seq<Page>) {
    && DistinctGroups(gs)
    && forall i :: 0 <= i < |gs| ==>
      && gs[i].pages == Filter(r, ps, category, gs[i].name)
      && Weighted(r, gs[i], gs[i].pages) && gs[i].slug == ""
  }

  predicate HasGroup(gs: seq<GroupValue>, name: string) {
    exists i :: 0 <= i < |gs| && gs[i].name == name
  }

  predicate HasPlace(r: Reading, ms: seq<CategoryValue>, p: Page) {
    exists k :: 0 <= k < |ms| && ms[k].name == p.category && HasGroup(ms[k].groups, r.group(p.group).0)
  }

  predicate NoneEmpty(ms: seq<CategoryValue>) {
    forall k :: 0 <= k < |ms| ==> ms[k].groups != []
  }

  predicate DistinctValues(ms: seq<CategoryValue>) {
    forall i, j :: 0 <= i < j < |ms| ==> ms[i].name != ms[j].name
  }

  /** Every group holds the pages that name it, and every page names a group that is there. */
  predicate FiledAll(r: Reading, ms: seq<CategoryValue>, ps: seq<Page>) {
    && (forall k :: 0 <= k < |ms| ==> Filed(r, ms[k].name, ms[k].groups, ps))
    && (forall p :: p in ps ==> HasPlace(r, ms, p))
  }

  lemma FilterAppend(r: Reading, ps: seq<Page>, p: Page, category: string, group: string)
    ensures Filter(r, ps + [p], category, group) ==
      Filter(r, ps, category, group) + if BelongsTo(r, p, category, group) then [p] else []
  {
    assert (ps + [p])[..|ps|] == ps;
  }

  lemma {:induction false} FilterNone(r: Reading, ps: seq<Page>, category: string, group: string)
    requires forall p :: p in ps ==> !BelongsTo(r, p, category, group)
    ensures Filter(r, ps, category, group) == []
  {
    if ps != [] {
      FilterNone(r, ps[..|ps| - 1], category, group);
      assert ps[|ps| - 1] in ps;
    }
  }

  // ---------------------------------------------------------------- one page

  lemma {:induction false} GroupMade(r: Reading, category: string, gs: seq<GroupValue>, ps: seq<Page>, p: Page,
                                     name: string, weight: int)
    requires Filed(r, category, gs, ps) && p.category == category && r.group(p.group) == (name, weight)
    requires !HasGroup(gs, name) && Filter(r, ps, category, name) == []
    ensures Filed(r, category, gs + [GroupValue(name, weight, "", [p])], ps + [p])
  {
    var hs := gs + [GroupValue(name, weight, "", [p])];
    forall k | 0 <= k < |hs| ensures hs[k].pages == Filter(r, ps + [p], category, hs[k].name) {
      FilterAppend(r, ps, p, category, hs[k].name);
    }
  }

  lemma {:induction false} GroupExtended(r: Reading, category: string, gs: seq<GroupValue>, ps: seq<Page>, p: Page,
                                         i: nat)
    requires Filed(r, category, gs, ps) && p.category == category
    requires i < |gs| && r.group(p.group).0 == gs[i].name
    ensures Filed(r, category, gs[i := gs[i].(pages := gs[i].pages + [p])], ps + [p])
  {
    var hs := gs[i := gs[i].(pages := gs[i].pages + [p])];
    forall k | 0 <= k < |hs| ensures hs[k].pages == Filter(r, ps + [p], category, hs[k].name) {
      FilterAppend(r, ps, p, category, gs[k].name);
    }
  }

  lemma KeepsGroups(gs: seq<GroupValue>, hs: seq<GroupValue>)
    requires |gs| <= |hs| && forall j :: 0 <= j < |gs| ==> hs[j].name == gs[j].name
    ensures forall n :: HasGroup(gs, n) ==> HasGroup(hs, n)
  {
    forall n | HasGroup(gs, n) ensures HasGroup(hs, n) {
      var j :| 0 <= j < |gs| && gs[j].name == n;
      assert hs[j].name == n;
    }
  }

  /** Groups and lists of pages made for the category, and each for one group of it. */
  ghost predicate Tagged(c: Category)
    reads c
  {
    forall k :: 0 <= k < |c.groups| ==>
      && c.groups[k].category == c.name && c.groups[k].pages.category == c.name
      && c.groups[k].pages.group == c.groups[k].name
  }

  /** The page goes to the group of its name, which is made if there is none. */
  method AddPage(r: Reading, c: Category, p: Page, ghost ps: seq<Page>, ghost v: CategoryValue,
                 ghost rep: set<object>)
      returns (ghost w: CategoryValue, ghost more: set<object>)
    requires HoldCategory(c, v, rep) && Tagged(c) && c !in rep
    requires Filed(r, c.name, v.groups, ps) && p.category == c.name
    requires !HasGroup(v.groups, r.group(p.group).0) ==> Filter(r, ps, c.name, r.group(p.group).0) == []
    modifies c, PagesOf(c.groups)
    ensures HoldCategory(c, w, rep + more) && Tagged(c) && fresh(more) && NoCategories(more) && c.slug == old(c.slug)
    ensures Filed(r, c.name, w.groups, ps + [p]) && HasGroup(w.groups, r.group(p.group).0)
    ensures forall n :: HasGroup(v.groups, n) ==> HasGroup(w.groups, n)
  {
    var (name, weight) := r.group(p.group);
    var i := 0;
    while i < |c.groups| && c.groups[i].name != name
      invariant i <= |c.groups| && forall j :: 0 <= j < i ==> v.groups[j].name != name
    {
      i := i + 1;
    }
    if i == |c.groups| {
      GroupMade(r, c.name, v.groups, ps, p, name, weight);
      more := Found(c, name, weight, p, v, rep);
      w := v.(groups := v.groups + [GroupValue(name, weight, "", [p])]);
    } else {
      GroupExtended(r, c.name, v.groups, ps, p, i);
      Extend(c, i, p, v, rep);
      w, more := v.(groups := v.groups[i := v.groups[i].(pages := v.groups[i].pages + [p])]), {};
    }
    assert w.groups[i].name == name;
    KeepsGroups(v.groups, w.groups);
  }

  /** A new group with its first page. */
  method Found(c: Category, name: string, weight: int, p: Page, ghost v: CategoryValue, ghost rep: set<object>)
      returns (ghost more: set<object>)
    requires HoldCategory(c, v, rep) && Tagged(c) && c !in rep
    modifies c
    ensures HoldCategory(c, v.(groups := v.groups + [GroupValue(name, weight, "", [p])]), rep + more) && Tagged(c)
    ensures fresh(more) && NoCategories(more) && c.slug == old(c.slug)
  {
    var g := new Group(c.name, name, weight);
    g.pages.items := [p];
    c.groups := c.groups + [g];
    more := {g, g.pages};
  }

  /** Appending in place to the pages of the `i`-th group; the lists of the others are other ones. */
  method Extend(c: Category, i: nat, p: Page, ghost v: CategoryValue, ghost rep: set<object>)
    requires HoldCategory(c, v, rep) && Tagged(c) && DistinctGroups(v.groups) && i < |c.groups|
    modifies c.groups[i].pages
    ensures HoldCategory(c, v.(groups := v.groups[i := v.groups[i].(pages := v.groups[i].pages + [p])]), rep)
  {
    assert forall k :: 0 <= k < |c.groups| ==> v.groups[k].name == c.groups[k].name;
    assert forall k :: 0 <= k < |c.groups| && k != i ==> c.groups[k].pages.group != c.groups[i].pages.group;
    c.groups[i].pages.items := c.groups[i].pages.items + [p];
  }

  /** The other categories are not concerned by the page. */
  lemma {:induction false} OtherCategory(r: Reading, category: string, gs: seq<GroupValue>, ps: seq<Page>, p: Page)
    requires Filed(r, category, gs, ps) && p.category != category
    ensures Filed(r, category, gs, ps + [p])
  {
    forall k | 0 <= k < |gs| ensures gs[k].pages == Filter(r, ps + [p], category, gs[k].name) {
      FilterAppend(r, ps, p, category, gs[k].name);
    }
  }

  lemma {:induction false} NewGroupIsEmpty(r: Reading, ms: seq<CategoryValue>, j: nat, ps: seq<Page>, name: string)
    requires DistinctValues(ms) && j < |ms| && FiledAll(r, ms, ps) && !HasGroup(ms[j].groups, name)
    ensures Filter(r, ps, ms[j].name, name) == []
  {
    forall p | p in ps ensures !BelongsTo(r, p, ms[j].name, name) {
      assert HasPlace(r, ms, p);
    }
    FilterNone(r, ps, ms[j].name, name);
  }

  lemma {:induction false} NewCategory(r: Reading, ms: seq<CategoryValue>, name: string, ps: seq<Page>)
    requires FiledAll(r, ms, ps)
    ensures FiledAll(r, ms + [CategoryValue(name, [])], ps)
  {
    var ns := ms + [CategoryValue(name, [])];
    forall p | p in ps ensures HasPlace(r, ns, p) {
      assert HasPlace(r, ms, p);
      var k :| 0 <= k < |ms| && ms[k].name == p.category && HasGroup(ms[k].groups, r.group(p.group).0);
      assert ns[k] == ms[k];
    }
  }

  lemma {:induction false} FiledNext(r: Reading, ms: seq<CategoryValue>, j: nat, hs: seq<GroupValue>, ps: seq<Page>,
                                     p: Page)
    requires DistinctValues(ms) && j < |ms| && ms[j].name == p.category && FiledAll(r, ms, ps)
    requires Filed(r, p.category, hs, ps + [p]) && HasGroup(hs, r.group(p.group).0)
    requires forall n :: HasGroup(ms[j].groups, n) ==> HasGroup(hs, n)
    ensures FiledAll(r, ms[j := ms[j].(groups := hs)], ps + [p])
  {
    var ns := ms[j := ms[j].(groups := hs)];
    forall k | 0 <= k < |ns| ensures Filed(r, ns[k].name, ns[k].groups, ps + [p]) {
      if k != j {
        assert ms[k].name != ms[j].name;
        OtherCategory(r, ms[k].name, ms[k].groups, ps, p);
      }
    }
    assert ns[j].name == p.category && HasPlace(r, ns, p);
    forall q | q in ps ensures HasPlace(r, ns, q) {
      assert HasPlace(r, ms, q);
      var k :| 0 <= k < |ms| && ms[k].name == q.category && HasGroup(ms[k].groups, r.group(q.group).0);
      assert ns[k].name == q.category && HasGroup(ns[k].groups, r.group(q.group).0);
    }
  }

  predicate Slugless(cs: seq<Category>)
    reads cs
  {
    forall k :: 0 <= k < |cs| ==> cs[k].slug == ""
  }

  /** The categories hold what is said, in groups and lists of pages of their own. */
  ghost predicate Owns(cs: seq<Category>, ms: seq<CategoryValue>, rep: set<object>)
    reads cs, rep
  {
    DistinctNames(cs) && Hold(cs, ms, rep) && forall k :: 0 <= k < |cs| ==> Tagged(cs[k])
  }

  /** No list of pages, and no group, is in two categories. */
  lemma OwnApart(cs: seq<Category>, ms: seq<CategoryValue>, rep: set<object>, j: nat)
    requires Owns(cs, ms, rep) && j < |cs|
    ensures forall k, l :: 0 <= k < |cs| && k != j && 0 <= l < |cs[k].groups| ==>
      cs[k].groups[l] !in cs[j].groups && cs[k].groups[l].pages !in PagesOf(cs[j].groups)
    ensures forall k :: 0 <= k < |cs| && k != j ==> cs[k] != cs[j]
  {
  }

  /** A new category without groups. */
  lemma OwnsMore(cs: seq<Category>, ms: seq<CategoryValue>, rep: set<object>, cat: Category)
    requires Owns(cs, ms, rep) && cat.groups == [] && Tagged(cat) && cat !in rep
    requires forall k :: 0 <= k < |cs| ==> cs[k].name != cat.name
    ensures Owns(cs + [cat], ms + [CategoryValue(cat.name, [])], rep)
  {
    var ds, ns := cs + [cat], ms + [CategoryValue(cat.name, [])];
    assert HoldCategory(cat, CategoryValue(cat.name, []), rep);
    forall k | 0 <= k < |ds| ensures HoldCategory(ds[k], ns[k], rep) && Tagged(ds[k]) {
      assert k < |cs| ==> HoldCategory(cs[k], ms[k], rep);
    }
  }

  lemma OwnedDistinct(cs: seq<Category>, ms: seq<CategoryValue>, rep: set<object>)
    requires Owns(cs, ms, rep)
    ensures DistinctValues(ms) && forall k :: 0 <= k < |cs| ==> ms[k].name == cs[k].name
  {
    forall k | 0 <= k < |cs| ensures ms[k].name == cs[k].name {
      assert HoldCategory(cs[k], ms[k], rep);
    }
  }

  lemma NoneEmptyNext(ms: seq<CategoryValue>, j: nat, hs: seq<GroupValue>, name: string)
    requires j < |ms| && HasGroup(hs, name) && forall k :: 0 <= k < |ms| && k != j ==> ms[k].groups != []
    ensures NoneEmpty(ms[j := ms[j].(groups := hs)])
  {
  }

  /** The category of that name, made if there is none. */
  method Categorize(r: Reading, cs: seq<Category>, ghost ps: seq<Page>, name: string, ghost ms: seq<CategoryValue>,
                    ghost rep: set<object>)
      returns (ds: seq<Category>, j: nat, ghost ns: seq<CategoryValue>)
    requires Owns(cs, ms, rep) && FiledAll(r, ms, ps) && NoneEmpty(ms) && Slugless(cs)
    ensures Owns(ds, ns, rep) && FiledAll(r, ns, ps) && Slugless(ds)
    ensures ds == cs || (|ds| == |cs| + 1 && ds[..|cs|] == cs && fresh(ds[|cs|]))
    ensures j < |ds| && ds[j].name == name && forall k :: 0 <= k < |ns| && k != j ==> ns[k].groups != []
  {
    ds, ns := cs, ms;
    j := Find(cs, name);
    if j == |cs| {
      var cat := new Category(name);
      NewCategory(r, ms, name, ps);
      OwnsMore(cs, ms, rep, cat);
      ds, ns := cs + [cat], ms + [CategoryValue(name, [])];
    }
  }

  /** Filing one page. */
  method File(r: Reading, cs: seq<Category>, ghost ps: seq<Page>, p: Page, ghost ms: seq<CategoryValue>,
              ghost rep: set<object>)
      returns (ds: seq<Category>, ghost ns: seq<CategoryValue>, ghost more: set<object>)
    requires Owns(cs, ms, rep) && FiledAll(r, ms, ps) && NoneEmpty(ms) && Slugless(cs)
    modifies cs, rep
    ensures Owns(ds, ns, rep + more) && FiledAll(r, ns, ps + [p]) && NoneEmpty(ns) && Slugless(ds) && fresh(more)
    ensures ds == cs || (|ds| == |cs| + 1 && ds[..|cs|] == cs && fresh(ds[|cs|]))
  {
    var j;
    ds, j, ns := Categorize(r, cs, ps, p.category, ms, rep);
    ns, more := Fill(r, ds, j, ps, p, ns, rep);
  }

  /** The page goes into the `j`-th category. */
  method Fill(r: Reading, ds: seq<Category>, j: nat, ghost ps: seq<Page>, p: Page, ghost ms: seq<CategoryValue>,
              ghost rep: set<object>)
      returns (ghost ns: seq<CategoryValue>, ghost more: set<object>)
    requires Owns(ds, ms, rep) && FiledAll(r, ms, ps) && j < |ds| && ds[j].name == p.category && Slugless(ds)
    requires forall k :: 0 <= k < |ms| && k != j ==> ms[k].groups != []
    modifies ds[j], rep
    ensures Owns(ds, ns, rep + more) && FiledAll(r, ns, ps + [p]) && NoneEmpty(ns) && Slugless(ds) && fresh(more)
  {
    OwnedDistinct(ds, ms, rep);
    if !HasGroup(ms[j].groups, r.group(p.group).0) {
      NewGroupIsEmpty(r, ms, j, ps, r.group(p.group).0);
    }
    ghost var w;
    w, more := AddPageTo(r, ds, j, p, ps, ms, rep);
    FiledNext(r, ms, j, w.groups, ps, p);
    NoneEmptyNext(ms, j, w.groups, r.group(p.group).0);
    ns := ms[j := ms[j].(groups := w.groups)];
  }

  /** What adding to the `j`-th category makes of all of them. */
  method AddPageTo(r: Reading, ds: seq<Category>, j: nat, p: Page, ghost ps: seq<Page>, ghost ms: seq<CategoryValue>,
                   ghost rep: set<object>)
      returns (ghost w: CategoryValue, ghost more: set<object>)
    requires Owns(ds, ms, rep) && j < |ds| && Slugless(ds)
    requires Filed(r, ms[j].name, ms[j].groups, ps) && p.category == ms[j].name
    requires !HasGroup(ms[j].groups, r.group(p.group).0) ==> Filter(r, ps, ms[j].name, r.group(p.group).0) == []
    modifies ds[j], rep
    ensures Owns(ds, ms[j := ms[j].(groups := w.groups)], rep + more) && Slugless(ds) && fresh(more)
    ensures Filed(r, ms[j].name, w.groups, ps + [p]) && HasGroup(w.groups, r.group(p.group).0)
    ensures forall n :: HasGroup(ms[j].groups, n) ==> HasGroup(w.groups, n)
  {
    assert HoldCategory(ds[j], ms[j], rep);
    OwnApart(ds, ms, rep, j);
    w, more := AddPage(r, ds[j], p, ps, ms[j], rep);
    forall k | 0 <= k < |ds| && k != j ensures HoldCategory(ds[k], ms[k], rep + more) {
      assert old(HoldCategory(ds[k], ms[k], rep));
    }
  }

  // ---------------------------------------------------------------- slugs and order

  function Slugged(r: Reading, p: Page): Page {
    if p.slug == "" then p.(slug := r.slug(p.title)) else p
  }

  /** `qs` is `sorted` with missing slugs filled in. */
  predicate SluggedFrom(r: Reading, qs: seq<Page>, sorted: seq<Page>) {
    |qs| == |sorted| && forall i :: 0 <= i < |qs| ==> qs[i] == Slugged(r, sorted[i])
  }

  /** `qs` is `ps` in order of weight, with missing slugs filled in. */
  ghost predicate Arranged(r: Reading, qs: seq<Page>, ps: seq<Page>) {
    exists sorted :: SluggedFrom(r, qs, sorted) && SortedPages(sorted) && multiset(sorted) == multiset(ps)
  }

  /** The groups hold what names them, arranged, under the weight of the first page filed. */
  ghost predicate Shelved(r: Reading, category: string, gs: seq<GroupValue>, ps: seq<Page>) {
    && DistinctGroups(gs)
    && forall i :: 0 <= i < |gs| ==> ShelvedGroup(r, gs[i], Filter(r, ps, category, gs[i].name))
  }

  ghost predicate ShelvedGroup(r: Reading, g: GroupValue, pages: seq<Page>) {
    Arranged(r, g.pages, pages) && Weighted(r, g, pages) && g.slug == r.slug(g.name)
  }

  ghost predicate ShelvedAll(r: Reading, ms: seq<CategoryValue>, ps: seq<Page>) {
    && (forall k :: 0 <= k < |ms| ==> Shelved(r, ms[k].name, ms[k].groups, ps))
    && (forall p :: p in ps ==> HasPlace(r, ms, p))
  }

  /** Sorting a group's pages and filling in slugs, in place. */
  method Finish(r: Reading, g: Group)
    modifies g, g.pages
    ensures Arranged(r, g.pages.items, old(g.pages.items))
    ensures g.slug == if old(g.slug) == "" then r.slug(g.name) else old(g.slug)
  {
    if g.slug == "" {
      g.slug := r.slug(g.name);
    }
    g.pages.Sort();
    ghost var sorted := g.pages.items;
    for i := 0 to |g.pages.items|
      invariant g.slug == (if old(g.slug) == "" then r.slug(g.name) else old(g.slug)) && |g.pages.items| == |sorted|
      invariant forall k :: 0 <= k < |sorted| ==> g.pages.items[k] == if k < i then Slugged(r, sorted[k]) else sorted[k]
    {
      if g.pages.items[i].slug == "" {
        g.pages.items := g.pages.items[i := g.pages.items[i].(slug := r.slug(g.pages.items[i].title))];
      }
    }
    assert SluggedFrom(r, g.pages.items, sorted);
  }

  /** Up to `i`, the groups are done; the others are as they were filed. */
  ghost predicate HalfShelved(r: Reading, category: string, ws: seq<GroupValue>, vs: seq<GroupValue>, ps: seq<Page>,
                              i: nat)
    requires i <= |vs|
  {
    && |ws| == |vs| && (forall k :: 0 <= k < |vs| ==> ws[k].name == vs[k].name)
    && (forall k :: i <= k < |vs| ==> ws[k] == vs[k])
    && forall k :: 0 <= k < i ==> ShelvedGroup(r, ws[k], Filter(r, ps, category, vs[k].name))
  }

  method FinishGroups(r: Reading, c: Category, ghost ps: seq<Page>, ghost v: CategoryValue, ghost rep: set<object>)
      returns (ghost w: CategoryValue)
    requires HoldCategory(c, v, rep) && Tagged(c) && Filed(r, c.name, v.groups, ps) && c !in rep
    modifies c.groups, PagesOf(c.groups)
    ensures HoldCategory(c, w, rep) && Shelved(r, c.name, w.groups, ps)
    ensures |w.groups| == |v.groups| && forall k :: 0 <= k < |v.groups| ==> w.groups[k].name == v.groups[k].name
  {
    w := v;
    for i := 0 to |c.groups|
      invariant HoldCategory(c, w, rep) && HalfShelved(r, c.name, w.groups, v.groups, ps, i)
    {
      HalfDistinct(r, c.name, w.groups, v.groups, ps, i);
      ghost var u := FinishOne(r, c, i, w, rep);
      HalfShelvedNext(r, c.name, w.groups, u.groups, v.groups, ps, i);
      w := u;
    }
    HalfDistinct(r, c.name, w.groups, v.groups, ps, |v.groups|);
  }

  lemma HalfDistinct(r: Reading, category: string, ws: seq<GroupValue>, vs: seq<GroupValue>, ps: seq<Page>, i: nat)
    requires i <= |vs| && DistinctGroups(vs) && HalfShelved(r, category, ws, vs, ps, i)
    ensures DistinctGroups(ws)
  {
  }

  /** `h` is `g` finished. */
  ghost predicate Finished(r: Reading, h: GroupValue, g: GroupValue) {
    && h.name == g.name && h.weight == g.weight && h.slug == (if g.slug == "" then r.slug(g.name) else g.slug)
    && Arranged(r, h.pages, g.pages)
  }

  lemma HalfShelvedNext(r: Reading, category: string, ws: seq<GroupValue>, us: seq<GroupValue>, vs: seq<GroupValue>,
                        ps: seq<Page>, i: nat)
    requires i < |vs| && Filed(r, category, vs, ps) && HalfShelved(r, category, ws, vs, ps, i)
    requires |us| == |ws| && (forall k :: 0 <= k < |ws| && k != i ==> us[k] == ws[k]) && Finished(r, us[i], ws[i])
    ensures HalfShelved(r, category, us, vs, ps, i + 1)
  {
    assert ws[i] == vs[i] && ShelvedGroup(r, us[i], Filter(r, ps, category, vs[i].name));
  }

  /** One group; the others and their lists of pages are other ones. */
  method FinishOne(r: Reading, c: Category, i: nat, ghost v: CategoryValue, ghost rep: set<object>)
      returns (ghost w: CategoryValue)
    requires HoldCategory(c, v, rep) && Tagged(c) && DistinctGroups(v.groups) && i < |c.groups|
    modifies c.groups[i], c.groups[i].pages
    ensures HoldCategory(c, w, rep) && |w.groups| == |v.groups|
    ensures forall k :: 0 <= k < |v.groups| && k != i ==> w.groups[k] == v.groups[k]
    ensures Finished(r, w.groups[i], v.groups[i])
  {
    assert forall k :: 0 <= k < |c.groups| ==> v.groups[k].name == c.groups[k].name;
    assert forall k :: 0 <= k < |c.groups| && k != i ==> c.groups[k].pages.group != c.groups[i].pages.group;
    Finish(r, c.groups[i]);
    w := v.(groups := v.groups[i := ValueOf(c.groups[i])]);
  }

  lemma {:induction false} PlacesKept(r: Reading, ms: seq<CategoryValue>, i: nat, hs: seq<GroupValue>, ps: seq<Page>)
    requires i < |ms| && |hs| == |ms[i].groups|
    requires forall k :: 0 <= k < |hs| ==> hs[k].name == ms[i].groups[k].name
    requires forall p :: p in ps ==> HasPlace(r, ms, p)
    ensures forall p :: p in ps ==> HasPlace(r, ms[i := ms[i].(groups := hs)], p)
  {
    var ns := ms[i := ms[i].(groups := hs)];
    forall p | p in ps ensures HasPlace(r, ns, p) {
      assert HasPlace(r, ms, p);
      var k :| 0 <= k < |ms| && ms[k].name == p.category && HasGroup(ms[k].groups, r.group(p.group).0);
      var l :| 0 <= l < |ms[k].groups| && ms[k].groups[l].name == r.group(p.group).0;
      assert ns[k].name == p.category && ns[k].groups[l].name == r.group(p.group).0;
    }
  }

  // ---------------------------------------------------------------- Parse

  /** The first loop: filing all pages, up to one that could not be parsed. */
  method FileAll(r: Reading, pages: seq<Option<Page>>)
      returns (ok: bool, res: seq<Category>, ps: seq<Page>, ghost ms: seq<CategoryValue>, ghost rep: set<object>)
    ensures ok <==> None !in pages
    ensures fresh(res) && fresh(rep) && Owns(res, ms, rep) && FiledAll(r, ms, ps) && NoneEmpty(ms) && Slugless(res)
    ensures ok ==> |ps| == |pages| && forall k :: 0 <= k < |ps| ==> pages[k] == Some(ps[k])
  {
    res, ps, ms, rep := [], [], [], {};
    for i := 0 to |pages|
      invariant fresh(res) && fresh(rep) && Owns(res, ms, rep) && FiledAll(r, ms, ps)
      invariant NoneEmpty(ms) && Slugless(res)
      invariant |ps| == i && forall k :: 0 <= k < i ==> pages[k] == Some(ps[k])
    {
      if pages[i].None? {
        return false, res, ps, ms, rep;
      }
      ghost var before := res;
      ghost var more;
      res, ms, more := File(r, res, ps, pages[i].value, ms, rep);
      assert forall k :: 0 <= k < |before| ==> res[k] == before[k];
      ps, rep := ps + [pages[i].value], rep + more;
    }
    ok := true;
  }

  predicate SluggedNames(r: Reading, cs: seq<Category>, n: nat)
    requires n <= |cs|
    reads cs
  {
    forall k :: 0 <= k < n ==> cs[k].slug == r.slug(cs[k].name)
  }

  /** The first `n` categories are done and the others are still as they were filed. */
  ghost predicate Progress(r: Reading, ns: seq<CategoryValue>, ps: seq<Page>, n: nat)
    requires n <= |ns|
  {
    && (forall k :: n <= k < |ns| ==> Filed(r, ns[k].name, ns[k].groups, ps))
    && (forall k :: 0 <= k < n ==> Shelved(r, ns[k].name, ns[k].groups, ps))
    && (forall p :: p in ps ==> HasPlace(r, ns, p))
    && NoneEmpty(ns)
  }

  /** One category: its groups, and its own slug. */
  method FinishCategory(r: Reading, res: seq<Category>, i: nat, ghost ps: seq<Page>, ghost ms: seq<CategoryValue>,
                        ghost rep: set<object>)
      returns (ghost ns: seq<CategoryValue>)
    requires i < |res| && Owns(res, ms, rep) && Progress(r, ms, ps, i) && res[i].slug == ""
    modifies res[i], rep
    ensures Owns(res, ns, rep) && Progress(r, ns, ps, i + 1) && res[i].slug == r.slug(res[i].name)
  {
    assert Filed(r, ms[i].name, ms[i].groups, ps) && HoldCategory(res[i], ms[i], rep);
    ghost var w := FinishGroupsOf(r, res, i, ps, ms, rep);
    PlacesKept(r, ms, i, w.groups, ps);
    ns := ms[i := ms[i].(groups := w.groups)];
    if res[i].slug == "" {
      res[i].slug := r.slug(res[i].name);
    }
  }

  /** What finishing the groups of the `i`-th category makes of all of them. */
  method FinishGroupsOf(r: Reading, res: seq<Category>, i: nat, ghost ps: seq<Page>, ghost ms: seq<CategoryValue>,
                        ghost rep: set<object>)
      returns (ghost w: CategoryValue)
    requires i < |res| && Owns(res, ms, rep) && Filed(r, ms[i].name, ms[i].groups, ps)
    modifies rep
    ensures Owns(res, ms[i := ms[i].(groups := w.groups)], rep) && Shelved(r, ms[i].name, w.groups, ps)
    ensures |w.groups| == |ms[i].groups|
    ensures forall k :: 0 <= k < |w.groups| ==> w.groups[k].name == ms[i].groups[k].name
  {
    assert HoldCategory(res[i], ms[i], rep);
    OwnApart(res, ms, rep, i);
    w := FinishGroups(r, res[i], ps, ms[i], rep);
    forall k | 0 <= k < |res| && k != i ensures HoldCategory(res[k], ms[k], rep) {
      assert old(HoldCategory(res[k], ms[k], rep));
    }
  }

  /** The second loop: slugs and the order of pages. */
  method FinishAll(r: Reading, res: seq<Category>, ghost ps: seq<Page>, ghost ms: seq<CategoryValue>,
                   ghost rep: set<object>)
      returns (ghost ns: seq<CategoryValue>)
    requires Owns(res, ms, rep) && FiledAll(r, ms, ps) && NoneEmpty(ms) && Slugless(res)
    modifies res, rep
    ensures Owns(res, ns, rep) && ShelvedAll(r, ns, ps) && NoneEmpty(ns) && SluggedNames(r, res, |res|)
  {
    ns := ms;
    for i := 0 to |res|
      invariant Owns(res, ns, rep) && Progress(r, ns, ps, i)
      invariant SluggedNames(r, res, i) && Slugless(res[i..])
    {
      ns := FinishCategory(r, res, i, ps, ns, rep);
    }
  }

  /**
   * `Parse` for one source. A page that cannot be parsed makes it fail with nothing stored.
   * Otherwise category names are unique, group names are unique within a category, each group holds
   * exactly the pages whose fields name it, by weight, and every page names a group that is there.
   * No category or group is empty, a group has the weight its first page gave it, and all are slugged.
   */
  method Parse(c: Controller, source: string, r: Reading, pages: seq<Option<Page>>)
      returns (ok: bool, ghost ps: seq<Page>, ghost ms: seq<CategoryValue>)
    requires c.Valid()
    modifies c
    ensures c.Valid() && (ok <==> None !in pages)
    ensures !ok ==> c.docs == old(c.docs)
    ensures ok ==> |ps| == |pages| && forall k :: 0 <= k < |ps| ==> pages[k] == Some(ps[k])
    ensures ok ==> source in c.docs && c.docs == old(c.docs)[source := c.docs[source]] && fresh(c.docs[source])
    ensures ok ==> Hold(c.docs[source], ms, c.rep) && DistinctNames(c.docs[source]) && ShelvedAll(r, ms, ps)
    ensures ok ==> NoneEmpty(ms) && SluggedNames(r, c.docs[source], |c.docs[source]|)
  {
    var res, filed;
    ghost var rep;
    ok, res, filed, ms, rep := FileAll(r, pages);
    ps := filed;
    if ok {
      ms := FinishAll(r, res, ps, ms, rep);
      assert forall k :: 0 <= k < |res| ==> HoldCategory(res[k], ms[k], rep);
      c.Store(source, res, rep);
      HoldMore(res, ms, rep, c.rep);
    }
  }
}
