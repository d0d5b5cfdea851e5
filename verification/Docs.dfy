/** The documentation of all extensions: filing pages into categories and groups, and merging them. */
module Docs {

  import opened Collections

  // ---------------------------------------------------------------- pages, groups, categories

  /** A page; `group` is the raw group field, which may carry a weight. */
  datatype Page = Page(category: string, group: string, title: string, weight: int, slug: string, document: string)

  /** The array behind a group's slice of pages, with the category and group it was made for. */
  class Pages {
    ghost const category: string
    ghost const group: string
    var items: seq<Page>

    constructor (ghost category: string, ghost group: string)
      ensures this.category == category && this.group == group && items == []
    {
      this.category, this.group := category, group;
      items := [];
    }

    method Copy() returns (c: Pages)
      ensures fresh(c) && c.category == category && c.group == group && c.items == items
    {
      c := new Pages(category, group);
      for i := 0 to |items|
        invariant c.items == items[..i]
      {
        c.items := c.items + [items[i]];
      }
    }

    /** Sorting by weight, in place. */
    method Sort()
      modifies this
      ensures SortedPages(items) && multiset(items) == multiset(old(items))
    {
      items := SortPages(items);
    }
  }

  class Group {
    ghost const category: string
    const name: string
    const weight: int
    var slug: string
    const pages: Pages

    constructor (ghost category: string, name: string, weight: int)
      ensures this.category == category && this.name == name && this.weight == weight && slug == ""
      ensures fresh(pages) && pages.category == category && pages.group == name && pages.items == []
    {
      this.category, this.name, this.weight, slug := category, name, weight, "";
      pages := new Pages(category, name);
    }

    /** A group in a given state. */
    constructor Of(ghost category: string, name: string, weight: int, slug: string, pages: Pages)
      ensures this.category == category && this.name == name && this.weight == weight && this.slug == slug
      ensures this.pages == pages
    {
      this.category, this.name, this.weight, this.slug, this.pages := category, name, weight, slug, pages;
    }

    /** Another group with its own list of the same pages. */
    method Copy() returns (g: Group)
      ensures fresh(g) && fresh(g.pages)
      ensures g.category == category && g.pages.category == pages.category && g.pages.group == pages.group
      ensures ValueOf(g) == ValueOf(this)
    {
      var copied := pages.Copy();
      g := new Group.Of(category, name, weight, slug, copied);
    }
  }

  class Category {
    const name: string
    var slug: string
    var groups: seq<Group>

    constructor (name: string)
      ensures this.name == name && slug == "" && groups == []
    {
      this.name := name;
      slug, groups := "", [];
    }

    /** Another category with its own groups, each with its own pages, of the same contents. */
    method Copy(ghost rep: set<object>) returns (c: Category, ghost v: CategoryValue, ghost copies: set<object>)
      requires Within(groups, rep) && NoCategories(rep)
      ensures fresh(c) && fresh(copies)
      ensures NoCategories(copies)
      ensures c.slug == slug && HoldCategory(c, v, copies) && HoldCategory(this, v, rep)
    {
      var gs; ghost var vs;
      gs, vs, copies := CopyGroups(groups, rep);
      c := new Category(name);
      c.slug, c.groups := slug, gs;
      v := CategoryValue(name, vs);
    }
  }

  /** New groups of the same contents. */
  method CopyGroups(gs: seq<Group>, ghost rep: set<object>)
      returns (hs: seq<Group>, ghost vs: seq<GroupValue>, ghost copies: set<object>)
    requires Within(gs, rep)
    ensures fresh(copies) && NoCategories(copies)
    ensures HoldGroups(hs, vs, copies) && HoldGroups(gs, vs, rep)
  {
    hs, vs, copies := [], [], {};
    for i := 0 to |gs|
      invariant fresh(copies) && NoCategories(copies)
      invariant HoldGroups(hs, vs, copies) && HoldGroups(gs[..i], vs, rep)
    {
      var g := gs[i].Copy();
      hs, vs, copies := hs + [g], vs + [ValueOf(g)], copies + {g, g.pages};
    }
    assert gs[..|gs|] == gs;
  }

  // ---------------------------------------------------------------- what they hold

  datatype GroupValue = GroupValue(name: string, weight: int, slug: string, pages: seq<Page>)

  datatype CategoryValue = CategoryValue(name: string, groups: seq<GroupValue>)

  function ValueOf(g: Group): GroupValue
    reads g, g.pages
  {
    GroupValue(g.name, g.weight, g.slug, g.pages.items)
  }

  function PagesOf(gs: seq<Group>): set<Pages> {
    set g | g in gs :: g.pages
  }

  /** The groups and their lists of pages are among these objects. */
  ghost predicate Within(gs: seq<Group>, rep: set<object>) {
    forall k :: 0 <= k < |gs| ==> gs[k] in rep && gs[k].pages in rep
  }

  /** `vs` is what the groups hold at present. */
  ghost predicate HoldGroups(gs: seq<Group>, vs: seq<GroupValue>, rep: set<object>)
    reads rep
  {
    Within(gs, rep) && |vs| == |gs| && forall k :: 0 <= k < |gs| ==> vs[k] == ValueOf(gs[k])
  }

  ghost predicate HoldCategory(c: Category, v: CategoryValue, rep: set<object>)
    reads c, rep
  {
    v.name == c.name && HoldGroups(c.groups, v.groups, rep)
  }

  predicate NoCategories(rep: set<object>) {
    forall o :: o in rep ==> !(o is Category)
  }

  /** `vs` is what the categories hold at present, in groups and lists of pages out of `rep`. */
  ghost predicate Hold(cs: seq<Category>, vs: seq<CategoryValue>, rep: set<object>)
    reads cs, rep
  {
    && NoCategories(rep) && |vs| == |cs| && forall i :: 0 <= i < |cs| ==> HoldCategory(cs[i], vs[i], rep)
  }

  lemma HoldMore(cs: seq<Category>, vs: seq<CategoryValue>, rep: set<object>, more: set<object>)
    requires Hold(cs, vs, rep) && rep <= more && NoCategories(more)
    ensures Hold(cs, vs, more)
  {
    forall i | 0 <= i < |cs| ensures HoldCategory(cs[i], vs[i], more) {
      assert HoldCategory(cs[i], vs[i], rep);
    }
  }

  // ---------------------------------------------------------------- contents, whatever their order

  /** A group up to the order of its pages, as an entry of a category of that name. */
  datatype Entry = Entry(category: string, name: string, weight: int, slug: string, pages: multiset<Page>)

  function EntryOf(category: string, g: GroupValue): Entry {
    Entry(category, g.name, g.weight, g.slug, multiset(g.pages))
  }

  function Entries(category: string, gs: seq<GroupValue>): multiset<Entry> {
    if gs == [] then multiset{}
    else Entries(category, gs[..|gs| - 1]) + multiset{EntryOf(category, gs[|gs| - 1])}
  }

  function Total(vs: seq<CategoryValue>): multiset<Entry> {
    if vs == [] then multiset{}
    else Total(vs[..|vs| - 1]) + Entries(vs[|vs| - 1].name, vs[|vs| - 1].groups)
  }

  lemma {:induction false} EntriesConcat(category: string, gs: seq<GroupValue>, hs: seq<GroupValue>)
    ensures Entries(category, gs + hs) == Entries(category, gs) + Entries(category, hs)
    decreases |hs|
  {
    if hs == [] {
      assert gs + hs == gs;
    } else {
      assert (gs + hs)[..|gs + hs| - 1] == gs + hs[..|hs| - 1];
      EntriesConcat(category, gs, hs[..|hs| - 1]);
    }
  }

  lemma {:induction false} EntriesDrop(category: string, gs: seq<GroupValue>, k: nat)
    requires k < |gs|
    ensures Entries(category, gs) == Entries(category, gs[..k] + gs[k + 1..]) + multiset{EntryOf(category, gs[k])}
  {
    assert gs == gs[..k] + [gs[k]] + gs[k + 1..];
    assert [gs[k]][..0] == [];
    EntriesConcat(category, gs[..k] + [gs[k]], gs[k + 1..]);
    EntriesConcat(category, gs[..k], [gs[k]]);
    EntriesConcat(category, gs[..k], gs[k + 1..]);
  }

  lemma {:induction false} TotalConcat(vs: seq<CategoryValue>, ws: seq<CategoryValue>)
    ensures Total(vs + ws) == Total(vs) + Total(ws)
    decreases |ws|
  {
    if ws == [] {
      assert vs + ws == vs;
    } else {
      assert (vs + ws)[..|vs + ws| - 1] == vs + ws[..|ws| - 1];
      TotalConcat(vs, ws[..|ws| - 1]);
    }
  }

  lemma TotalOne(v: CategoryValue)
    ensures Total([v]) == Entries(v.name, v.groups)
  {
    assert [v][..0] == [];
  }

  /** The total is what one category holds and what the others hold. */
  lemma {:induction false} TotalSplit(vs: seq<CategoryValue>, i: nat)
    requires i < |vs|
    ensures Total(vs) == Total(vs[..i]) + Entries(vs[i].name, vs[i].groups) + Total(vs[i + 1..])
  {
    assert vs == vs[..i] + [vs[i]] + vs[i + 1..];
    TotalConcat(vs[..i] + [vs[i]], vs[i + 1..]);
    TotalConcat(vs[..i], [vs[i]]);
    TotalOne(vs[i]);
  }

  lemma {:induction false} TotalReplace(vs: seq<CategoryValue>, i: nat, gs: seq<GroupValue>)
    requires i < |vs|
    ensures Total(vs[i := vs[i].(groups := gs)]) ==
      Total(vs[..i]) + Entries(vs[i].name, gs) + Total(vs[i + 1..])
  {
    var ws := vs[i := vs[i].(groups := gs)];
    TotalSplit(ws, i);
    assert ws[..i] == vs[..i] && ws[i + 1..] == vs[i + 1..];
  }

  /** Reordering the groups of a category does not change its entries. */
  lemma {:induction false} EntriesPermute(category: string, gs: seq<GroupValue>, hs: seq<GroupValue>)
    requires multiset(gs) == multiset(hs)
    ensures Entries(category, gs) == Entries(category, hs)
    decreases |gs|
  {
    assert |gs| == |multiset(gs)| == |hs|;
    if gs != [] {
      var n := |gs| - 1;
      var k := Position(gs, hs, n);
      EntriesPermute(category, gs[..n], hs[..k] + hs[k + 1..]);
      EntriesDrop(category, hs, k);
    }
  }

  lemma Position<T>(gs: seq<T>, hs: seq<T>, n: nat) returns (k: nat)
    requires n < |gs| && n == |gs| - 1 && multiset(gs) == multiset(hs)
    ensures k < |hs| && hs[k] == gs[n]
    ensures multiset(gs[..n]) == multiset(hs[..k] + hs[k + 1..])
  {
    assert gs[n] in multiset(hs);
    k :| 0 <= k < |hs| && hs[k] == gs[n];
    DropContents(hs, k);
    DropContents(gs, n);
    assert gs[..n] + gs[n + 1..] == gs[..n];
  }

  lemma DropContents<T>(s: seq<T>, k: nat)
    requires k < |s|
    ensures multiset(s[..k] + s[k + 1..]) == multiset(s) - multiset{s[k]}
  {
    assert s == s[..k] + [s[k]] + s[k + 1..];
  }

  /** The same group up to the order of its pages. */
  predicate Like(g: GroupValue, h: GroupValue) {
    g.name == h.name && g.weight == h.weight && g.slug == h.slug && multiset(g.pages) == multiset(h.pages)
  }

  predicate AllLike(gs: seq<GroupValue>, hs: seq<GroupValue>) {
    |gs| == |hs| && forall k :: 0 <= k < |gs| ==> Like(gs[k], hs[k])
  }

  /** Reordering pages does not either. */
  lemma {:induction false} EntriesLike(category: string, gs: seq<GroupValue>, hs: seq<GroupValue>)
    requires AllLike(gs, hs)
    ensures Entries(category, gs) == Entries(category, hs)
    decreases |gs|
  {
    if gs != [] {
      EntriesLike(category, gs[..|gs| - 1], hs[..|hs| - 1]);
    }
  }

  // ---------------------------------------------------------------- sorting

  predicate SortedPages(ps: seq<Page>) {
    forall i, j :: 0 <= i < j < |ps| ==> ps[i].weight <= ps[j].weight
  }

  predicate SortedGroups(gs: seq<GroupValue>) {
    forall i, j :: 0 <= i < j < |gs| ==> gs[i].weight <= gs[j].weight
  }

  lemma InsertContents<T>(r: seq<T>, k: nat, x: T)
    requires k <= |r|
    ensures multiset(r[..k] + [x] + r[k..]) == multiset(r) + multiset{x}
  {
    assert r == r[..k] + r[k..];
  }

  /** Sorting by weight; of its result only order and contents are used. */
  method SortPages(ps: seq<Page>) returns (r: seq<Page>)
    ensures SortedPages(r) && multiset(r) == multiset(ps)
  {
    r := [];
    for n := 0 to |ps|
      invariant SortedPages(r) && multiset(r) == multiset(ps[..n])
    {
      assert ps[..n + 1] == ps[..n] + [ps[n]];
      r := InsertPage(r, ps[n]);
    }
    assert ps[..|ps|] == ps;
  }

  method InsertPage(s: seq<Page>, x: Page) returns (r: seq<Page>)
    requires SortedPages(s)
    ensures SortedPages(r) && multiset(r) == multiset(s) + multiset{x}
  {
    var k := 0;
    while k < |s| && s[k].weight <= x.weight
      invariant 0 <= k <= |s| && forall i :: 0 <= i < k ==> s[i].weight <= x.weight
    {
      k := k + 1;
    }
    InsertContents(s, k, x);
    r := s[..k] + [x] + s[k..];
  }

  /** Sorting groups by weight, along with what they hold. */
  method SortGroups(gs: seq<Group>, ghost vs: seq<GroupValue>, ghost rep: set<object>)
      returns (hs: seq<Group>, ghost ws: seq<GroupValue>)
    requires HoldGroups(gs, vs, rep)
    ensures HoldGroups(hs, ws, rep) && SortedGroups(ws) && multiset(ws) == multiset(vs)
    ensures forall h :: h in hs ==> h in gs
  {
    hs, ws := [], [];
    for n := 0 to |gs|
      invariant HoldGroups(hs, ws, rep) && SortedGroups(ws) && multiset(ws) == multiset(vs[..n])
      invariant forall h :: h in hs ==> h in gs
    {
      assert vs[..n + 1] == vs[..n] + [vs[n]];
      hs, ws := InsertGroup(hs, ws, gs[n], vs[n], rep);
    }
    assert vs[..|vs|] == vs;
  }

  method InsertGroup(gs: seq<Group>, ghost vs: seq<GroupValue>, g: Group, ghost v: GroupValue, ghost rep: set<object>)
      returns (hs: seq<Group>, ghost ws: seq<GroupValue>)
    requires HoldGroups(gs, vs, rep) && SortedGroups(vs) && v == ValueOf(g) && g in rep && g.pages in rep
    ensures HoldGroups(hs, ws, rep) && SortedGroups(ws) && multiset(ws) == multiset(vs) + multiset{v}
    ensures forall h :: h in hs ==> h in gs || h == g
  {
    var k := 0;
    while k < |gs| && gs[k].weight <= g.weight
      invariant 0 <= k <= |gs| && forall i :: 0 <= i < k ==> vs[i].weight <= v.weight
    {
      k := k + 1;
    }
    InsertContents(vs, k, v);
    hs, ws := gs[..k] + [g] + gs[k..], vs[..k] + [v] + vs[k..];
  }

  predicate Ordered(gs: seq<GroupValue>) {
    SortedGroups(gs) && forall i :: 0 <= i < |gs| ==> SortedPages(gs[i].pages)
  }

  /** Sorting the pages of every group in place. Lists of pages keep what they hold, and if sorted stay so. */
  method SortPagesOf(gs: seq<Group>)
    modifies PagesOf(gs)
    ensures forall g :: g in gs ==> SortedPages(g.pages.items)
    ensures forall p :: p in PagesOf(gs) ==> PagesLike(p)
  {
    for i := 0 to |gs|
      invariant forall k :: 0 <= k < i ==> SortedPages(gs[k].pages.items)
      invariant forall p :: p in PagesOf(gs) ==> PagesLike(p)
    {
      assert gs[i] in gs;
      gs[i].pages.Sort();
    }
  }

  /** The pages are the same ones, and if they were in order they still are. */
  twostate predicate PagesLike(p: Pages)
    reads p
  {
    multiset(p.items) == multiset(old(p.items)) && (SortedPages(old(p.items)) ==> SortedPages(p.items))
  }

  // ---------------------------------------------------------------- merging all documentation

  /** The stored categories, source after source. */
  function Flat(docs: map<string, seq<Category>>, order: seq<string>): seq<Category>
    requires forall n :: n in order ==> n in docs
  {
    if order == [] then [] else Flat(docs, order[..|order| - 1]) + docs[order[|order| - 1]]
  }

  predicate DistinctNames(cs: seq<Category>) {
    forall i, j :: 0 <= i < j < |cs| ==> cs[i].name != cs[j].name
  }

  ghost predicate Distinct(cs: seq<Category>) {
    forall i, j :: 0 <= i < j < |cs| ==> cs[i] != cs[j]
  }

  class Controller {
    var docs: map<string, seq<Category>>
    /** The groups and lists of pages of what is stored. */
    ghost var rep: set<object>

    function Stored(): set<Category>
      reads this
    {
      set name, c | name in docs && c in docs[name] :: c
    }

    ghost predicate Valid()
      reads this, Stored()
    {
      NoCategories(rep) && forall c :: c in Stored() ==> Within(c.groups, rep)
    }

    constructor ()
      ensures Valid() && docs == map[]
    {
      docs, rep := map[], {};
    }

    method Store(name: string, pages: seq<Category>, ghost more: set<object>)
      requires Valid() && NoCategories(more) && forall c :: c in pages ==> Within(c.groups, more)
      modifies this
      ensures Valid() && docs == old(docs)[name := pages] && rep == old(rep) + more
    {
      docs, rep := docs[name := pages], rep + more;
    }

    method Remove(name: string)
      requires Valid()
      modifies this
      ensures Valid() && docs == old(docs) - {name}
    {
      docs := docs - {name};
    }

    /** Copies of all stored categories, in the arbitrary order the sources are visited in. */
    method Copy() returns (res: seq<Category>, ghost order: seq<string>, ghost stored: seq<Category>,
                           ghost vs: seq<CategoryValue>, ghost copies: set<object>)
      requires Valid()
      ensures Enumerates(order, docs.Keys) && stored == Flat(docs, order) && forall c :: c in stored ==> c in Stored()
      ensures Distinct(res) && fresh(res) && fresh(copies)
      ensures Hold(res, vs, copies) && Hold(stored, vs, rep)
    {
      res, order, stored, vs, copies := [], [], [], [], {};
      var todo := docs.Keys;
      while todo != {}
        invariant todo <= docs.Keys && Enumerates(order, docs.Keys - todo) && stored == Flat(docs, order)
        invariant forall c :: c in stored ==> c in Stored()
        invariant Distinct(res) && fresh(res) && fresh(copies)
        invariant Hold(res, vs, copies) && Hold(stored, vs, rep)
      {
        var name :| name in todo;
        var cs, ws, more := CopyAll(docs[name], rep);
        assert (order + [name])[..|order|] == order;
        HoldConcat(res, vs, copies, cs, ws, more);
        HoldConcat(stored, vs, rep, docs[name], ws, rep);
        res, vs, stored, copies := res + cs, vs + ws, stored + docs[name], copies + more;
        order := order + [name];
        todo := todo - {name};
      }
    }

    /**
     * All documentation merged: each category name once, with the groups and pages of all sources,
     * sorted by weight. Merging appends to lists of groups, and sorting reorders lists of pages in
     * place; all that is new, and no stored category, group or list of pages is changed.
     */
    method GetAll() returns (categories: seq<Category>, ghost order: seq<string>, ghost stored: seq<Category>,
                             ghost vs: seq<CategoryValue>, ghost ms: seq<CategoryValue>, ghost copies: set<object>)
      requires Valid()
      ensures Valid() && Enumerates(order, docs.Keys) && stored == Flat(docs, order) && Hold(stored, vs, rep)
      ensures fresh(categories) && fresh(copies) && Hold(categories, ms, copies)
      ensures DistinctNames(categories)
      ensures SameHoldings(ms, vs)
      ensures AllOrdered(ms, |ms|)
    {
      var unprocessed;
      unprocessed, order, stored, vs, copies := Copy();
      categories, ms := MergeAndSort(unprocessed, vs, copies);
    }
  }

  /** What `GetAll` holds, group by group: what the sources hold is all there, nothing else is, in order of weight. */
  lemma {:induction false} MergedAndSorted(vs: seq<CategoryValue>, ms: seq<CategoryValue>)
    requires SameHoldings(ms, vs) && AllOrdered(ms, |ms|)
    ensures FoundIn(vs, ms) && FoundIn(ms, vs) && ByWeight(ms)
  {
    NothingLost(vs, ms);
    NothingLost(ms, vs);
    OrderedThroughout(ms);
  }

  /** In every category the groups are in order of weight, and in every group the pages. */
  predicate ByWeight(ms: seq<CategoryValue>) {
    && (forall k, i, j :: 0 <= k < |ms| && 0 <= i < j < |ms[k].groups| ==>
          ms[k].groups[i].weight <= ms[k].groups[j].weight)
    && forall k, l, i, j ::
      0 <= k < |ms| && 0 <= l < |ms[k].groups| && 0 <= i < j < |ms[k].groups[l].pages| ==>
        ms[k].groups[l].pages[i].weight <= ms[k].groups[l].pages[j].weight
  }

  lemma OrderedThroughout(ms: seq<CategoryValue>)
    requires AllOrdered(ms, |ms|)
    ensures ByWeight(ms)
  {
    forall k, l, i, j | 0 <= k < |ms| && 0 <= l < |ms[k].groups| && 0 <= i < j < |ms[k].groups[l].pages|
      ensures ms[k].groups[l].pages[i].weight <= ms[k].groups[l].pages[j].weight
    {
      assert Ordered(ms[k].groups) && SortedPages(ms[k].groups[l].pages);
    }
    forall k, i, j | 0 <= k < |ms| && 0 <= i < j < |ms[k].groups|
      ensures ms[k].groups[i].weight <= ms[k].groups[j].weight
    {
      assert Ordered(ms[k].groups);
    }
  }

  /** The group is in a category of that name, with the same pages in some order. */
  predicate IsIn(name: string, g: GroupValue, ms: seq<CategoryValue>) {
    exists k, i :: 0 <= k < |ms| && 0 <= i < |ms[k].groups| && ms[k].name == name &&
      var h := ms[k].groups[i];
      h.name == g.name && h.weight == g.weight && h.slug == g.slug && multiset(h.pages) == multiset(g.pages)
  }

  /** Every group is found again, and every category. */
  predicate FoundIn(vs: seq<CategoryValue>, ms: seq<CategoryValue>) {
    && (forall k, i :: 0 <= k < |vs| && 0 <= i < |vs[k].groups| ==> IsIn(vs[k].name, vs[k].groups[i], ms))
    && forall k :: 0 <= k < |vs| ==> exists l :: 0 <= l < |ms| && ms[l].name == vs[k].name
  }

  predicate EntryIs(e: Entry, g: GroupValue) {
    g.name == e.name && g.weight == e.weight && g.slug == e.slug && multiset(g.pages) == e.pages
  }

  lemma {:induction false} EntryHeld(category: string, gs: seq<GroupValue>, e: Entry)
    ensures e in Entries(category, gs) <==>
      e.category == category &&
      exists i :: 0 <= i < |gs| && EntryIs(e, gs[i])
  {
    if gs != [] {
      EntryHeld(category, gs[..|gs| - 1], e);
    }
  }

  lemma {:induction false} TotalHeld(vs: seq<CategoryValue>, e: Entry)
    ensures e in Total(vs) <==> exists k :: 0 <= k < |vs| && e in Entries(vs[k].name, vs[k].groups)
  {
    if vs != [] {
      TotalHeld(vs[..|vs| - 1], e);
    }
  }

  lemma {:induction false} GroupNotLost(vs: seq<CategoryValue>, ms: seq<CategoryValue>, k: nat, i: nat)
    requires Total(ms) == Total(vs) && k < |vs| && i < |vs[k].groups|
    ensures IsIn(vs[k].name, vs[k].groups[i], ms)
  {
    var e := EntryOf(vs[k].name, vs[k].groups[i]);
    EntryHeld(vs[k].name, vs[k].groups, e);
    TotalHeld(vs, e);
    TotalHeld(ms, e);
    var l :| 0 <= l < |ms| && e in Entries(ms[l].name, ms[l].groups);
    EntryHeld(ms[l].name, ms[l].groups, e);
  }

  lemma {:induction false} NothingLost(vs: seq<CategoryValue>, ms: seq<CategoryValue>)
    requires SameHoldings(ms, vs) || SameHoldings(vs, ms)
    ensures FoundIn(vs, ms)
  {
    forall k, i | 0 <= k < |vs| && 0 <= i < |vs[k].groups| ensures IsIn(vs[k].name, vs[k].groups[i], ms) {
      GroupNotLost(vs, ms, k, i);
    }
    forall k | 0 <= k < |vs| ensures exists l :: 0 <= l < |ms| && ms[l].name == vs[k].name {
      assert vs[k].name in NamesOf(vs);
      assert vs[k].name in NamesOf(ms);
    }
  }

  method MergeAndSort(unprocessed: seq<Category>, ghost vs: seq<CategoryValue>, ghost rep: set<object>)
      returns (categories: seq<Category>, ghost ms: seq<CategoryValue>)
    requires Distinct(unprocessed) && Hold(unprocessed, vs, rep)
    modifies unprocessed, rep
    ensures forall k :: 0 <= k < |categories| ==> categories[k] in unprocessed
    ensures Hold(categories, ms, rep) && DistinctNames(categories)
    ensures SameHoldings(ms, vs) && AllOrdered(ms, |ms|)
  {
    categories, ms := MergeAll(unprocessed, vs, rep);
    ms := SortCategories(categories, ms, rep);
  }

  /** Giving one of the categories other groups. */
  method SetGroups(cs: seq<Category>, i: nat, gs: seq<Group>, ghost ws: seq<GroupValue>, ghost ms: seq<CategoryValue>,
                   ghost rep: set<object>)
    requires i < |cs| && DistinctNames(cs) && Hold(cs, ms, rep) && HoldGroups(gs, ws, rep)
    modifies cs[i]
    ensures Hold(cs, ms[i := ms[i].(groups := ws)], rep)
    ensures cs[i].slug == old(cs[i].slug) && cs[i].groups == gs
  {
    cs[i].groups := gs;
  }

  predicate AllOrdered(ms: seq<CategoryValue>, n: nat)
    requires n <= |ms|
  {
    forall k :: 0 <= k < n ==> Ordered(ms[k].groups)
  }

  predicate AllLikeIn(ns: seq<CategoryValue>, ms: seq<CategoryValue>) {
    |ns| == |ms| && forall k :: 0 <= k < |ns| ==> ns[k].name == ms[k].name && AllLike(ns[k].groups, ms[k].groups)
  }

  lemma {:induction false} LikeHoldings(ns: seq<CategoryValue>, ms: seq<CategoryValue>)
    requires AllLikeIn(ns, ms)
    ensures SameHoldings(ns, ms)
  {
    TotalLike(ns, ms);
    forall n ensures n in NamesOf(ns) <==> n in NamesOf(ms) {
      if n in NamesOf(ns) {
        var k :| 0 <= k < |ns| && ns[k].name == n;
        assert ms[k] in ms && ms[k].name == n;
      }
      if n in NamesOf(ms) {
        var k :| 0 <= k < |ms| && ms[k].name == n;
        assert ns[k] in ns && ns[k].name == n;
      }
    }
  }

  lemma {:induction false} TotalLike(ns: seq<CategoryValue>, ms: seq<CategoryValue>)
    requires AllLikeIn(ns, ms)
    ensures Total(ns) == Total(ms)
    decreases |ns|
  {
    if ns != [] {
      var n := |ns| - 1;
      TotalLike(ns[..n], ms[..n]);
      EntriesLike(ns[n].name, ns[n].groups, ms[n].groups);
    }
  }

  /** Sorting one category: its groups, then the pages of each, in place. */
  method SortCategory(cs: seq<Category>, i: nat, ghost ms: seq<CategoryValue>, ghost rep: set<object>)
      returns (ghost ns: seq<CategoryValue>)
    requires i < |cs| && DistinctNames(cs) && Hold(cs, ms, rep) && AllOrdered(ms, i)
    modifies cs[i], PagesOf(cs[i].groups)
    ensures Hold(cs, ns, rep) && SameHoldings(ns, ms) && AllOrdered(ns, i + 1)
  {
    assert HoldCategory(cs[i], ms[i], rep);
    var hs, ws := SortGroups(cs[i].groups, ms[i].groups, rep);
    EntriesPermute(ms[i].name, ws, ms[i].groups);
    SortStep(ms, i, ws);
    SetGroups(cs, i, hs, ws, ms, rep);
    assert PagesOf(hs) <= old(PagesOf(cs[i].groups));
    ns := SortPagesIn(cs, i, ms[i := ms[i].(groups := ws)], rep);
  }

  /** Sorting the pages of every group of a category, with what that makes of all categories. */
  method SortPagesIn(cs: seq<Category>, i: nat, ghost ms: seq<CategoryValue>, ghost rep: set<object>)
      returns (ghost ns: seq<CategoryValue>)
    requires i < |cs| && Hold(cs, ms, rep) && AllOrdered(ms, i) && SortedGroups(ms[i].groups)
    modifies PagesOf(cs[i].groups)
    ensures Hold(cs, ns, rep) && SameHoldings(ns, ms) && AllOrdered(ns, i + 1)
  {
    SortPagesOf(cs[i].groups);
    assert forall k :: 0 <= k < |cs| ==> old(HoldCategory(cs[k], ms[k], rep));
    ns := seq(|cs|, k requires 0 <= k < |cs| reads cs, rep =>
      if Within(cs[k].groups, rep) then CategoryValue(cs[k].name, ValuesOf(cs[k].groups, rep)) else ms[k]);
    forall k | 0 <= k < |cs|
      ensures HoldCategory(cs[k], ns[k], rep) && ns[k].name == ms[k].name
      ensures AllLike(ns[k].groups, ms[k].groups) && StillSorted(ms[k].groups, ns[k].groups)
    {
      forall l | 0 <= l < |cs[k].groups|
        ensures Like(ns[k].groups[l], ms[k].groups[l])
        ensures SortedPages(ms[k].groups[l].pages) ==> SortedPages(ns[k].groups[l].pages)
      {
        var p := cs[k].groups[l].pages;
        if p in PagesOf(cs[i].groups) { assert PagesLike(p); }
      }
    }
    LikeHoldings(ns, ms);
    OrderedNow(cs, i, ms, ns, rep);
  }

  /** What the groups hold at present. */
  ghost function ValuesOf(gs: seq<Group>, rep: set<object>): (vs: seq<GroupValue>)
    requires Within(gs, rep)
    reads rep
    ensures HoldGroups(gs, vs, rep)
  {
    seq(|gs|, k requires 0 <= k < |gs| && Within(gs, rep) reads rep => ValueOf(gs[k]))
  }

  predicate StillSorted(gs: seq<GroupValue>, hs: seq<GroupValue>)
    requires |gs| == |hs|
  {
    forall l :: 0 <= l < |gs| && SortedPages(gs[l].pages) ==> SortedPages(hs[l].pages)
  }

  lemma OrderedNow(cs: seq<Category>, i: nat, ms: seq<CategoryValue>, ns: seq<CategoryValue>, rep: set<object>)
    requires i < |cs| && Hold(cs, ns, rep) && AllLikeIn(ns, ms) && AllOrdered(ms, i) && SortedGroups(ms[i].groups)
    requires forall k :: 0 <= k < |ms| ==> StillSorted(ms[k].groups, ns[k].groups)
    requires forall g :: g in cs[i].groups ==> SortedPages(g.pages.items)
    ensures AllOrdered(ns, i + 1)
  {
    forall k | 0 <= k <= i ensures Ordered(ns[k].groups) {
      assert AllLike(ns[k].groups, ms[k].groups) && HoldCategory(cs[k], ns[k], rep);
      if k < i {
        assert Ordered(ms[k].groups);
      } else {
        forall l | 0 <= l < |ns[k].groups| ensures SortedPages(ns[k].groups[l].pages) {
          assert cs[k].groups[l] in cs[k].groups && ns[k].groups[l] == ValueOf(cs[k].groups[l]);
        }
      }
    }
  }

  /** Sorting every category in place. */
  method SortCategories(cs: seq<Category>, ghost ms: seq<CategoryValue>, ghost rep: set<object>)
      returns (ghost ns: seq<CategoryValue>)
    requires DistinctNames(cs) && Hold(cs, ms, rep)
    modifies cs, rep
    ensures Hold(cs, ns, rep) && SameHoldings(ns, ms) && AllOrdered(ns, |ns|)
  {
    ns := ms;
    for i := 0 to |cs|
      invariant Hold(cs, ns, rep) && SameHoldings(ns, ms) && AllOrdered(ns, i)
    {
      assert HoldCategory(cs[i], ns[i], rep);
      ns := SortCategory(cs, i, ns, rep);
    }
  }

  function NamesOf(vs: seq<CategoryValue>): set<string> {
    set v | v in vs :: v.name
  }

  lemma NamesReplace(vs: seq<CategoryValue>, i: nat, gs: seq<GroupValue>)
    requires i < |vs|
    ensures NamesOf(vs[i := vs[i].(groups := gs)]) == NamesOf(vs)
  {
    var ws := vs[i := vs[i].(groups := gs)];
    assert forall k :: 0 <= k < |vs| ==> ws[k].name == vs[k].name && ws[k] in ws && vs[k] in vs;
    forall n | n in NamesOf(vs) ensures n in NamesOf(ws) {
      var k :| 0 <= k < |vs| && vs[k].name == n;
      assert ws[k].name == n;
    }
    forall n | n in NamesOf(ws) ensures n in NamesOf(vs) {
      var k :| 0 <= k < |ws| && ws[k].name == n;
      assert vs[k].name == n;
    }
  }

  lemma NamesAppend(vs: seq<CategoryValue>, v: CategoryValue)
    ensures NamesOf(vs + [v]) == NamesOf(vs) + {v.name}
  {
    forall n | n in NamesOf(vs) + {v.name} ensures n in NamesOf(vs + [v]) {
      assert v in vs + [v] && forall w :: w in vs ==> w in vs + [v];
    }
  }

  /** The first category of a name, if there is one. */
  method Find(categories: seq<Category>, name: string) returns (j: nat)
    ensures j <= |categories| && (j < |categories| ==> categories[j].name == name)
    ensures j == |categories| ==> forall k :: 0 <= k < |categories| ==> categories[k].name != name
  {
    j := 0;
    while j < |categories| && categories[j].name != name
      invariant j <= |categories| && forall k :: 0 <= k < j ==> categories[k].name != name
    {
      j := j + 1;
    }
  }

  /** `cs` are some of the first `i` of `us`, and the later ones still hold what they held. */
  ghost predicate TakenFrom(cs: seq<Category>, us: seq<Category>, vs: seq<CategoryValue>, i: nat, rep: set<object>)
    requires i <= |us| == |vs|
    reads us, rep
  {
    && (forall k :: 0 <= k < |cs| ==> cs[k] in us[..i])
    && forall k :: i <= k < |us| ==> HoldCategory(us[k], vs[k], rep)
  }

  /** The first category of each name takes in the groups of the later ones. */
  method MergeAll(unprocessed: seq<Category>, ghost vs: seq<CategoryValue>, ghost rep: set<object>)
      returns (categories: seq<Category>, ghost ms: seq<CategoryValue>)
    requires Distinct(unprocessed) && Hold(unprocessed, vs, rep)
    modifies unprocessed
    ensures forall k :: 0 <= k < |categories| ==> categories[k] in unprocessed
    ensures Hold(categories, ms, rep) && DistinctNames(categories)
    ensures SameHoldings(ms, vs)
  {
    categories, ms := [], [];
    for i := 0 to |unprocessed|
      invariant TakenFrom(categories, unprocessed, vs, i, rep)
      invariant Hold(categories, ms, rep) && DistinctNames(categories)
      invariant SameHoldings(ms, vs[..i])
    {
      TakenAreStored(categories, unprocessed, vs, i, rep);
      categories, ms := MergeOne(categories, ms, unprocessed, vs, i, rep);
    }
    assert vs[..|vs|] == vs && unprocessed[..|unprocessed|] == unprocessed;
  }

  lemma TakenAreStored(cs: seq<Category>, us: seq<Category>, vs: seq<CategoryValue>, i: nat, rep: set<object>)
    requires i <= |us| == |vs| && TakenFrom(cs, us, vs, i, rep)
    ensures forall k :: 0 <= k < |cs| ==> cs[k] in us
  {
  }

  /** The `i`-th category joins the one of its name, or is the first of it. */
  method MergeOne(categories: seq<Category>, ghost ms: seq<CategoryValue>,
                  unprocessed: seq<Category>, ghost vs: seq<CategoryValue>, i: nat, ghost rep: set<object>)
      returns (cs: seq<Category>, ghost ns: seq<CategoryValue>)
    requires i < |unprocessed| == |vs| && Distinct(unprocessed)
    requires TakenFrom(categories, unprocessed, vs, i, rep) && Hold(categories, ms, rep) && DistinctNames(categories)
    requires SameHoldings(ms, vs[..i])
    modifies categories
    ensures TakenFrom(cs, unprocessed, vs, i + 1, rep) && Hold(cs, ns, rep) && DistinctNames(cs)
    ensures SameHoldings(ns, vs[..i + 1])
  {
    var doc := unprocessed[i];
    var j := Find(categories, doc.name);
    if j == |categories| {
      AppendStep(ms, vs, i);
      AppendTaken(categories, ms, unprocessed, vs, i, rep);
      cs, ns := categories + [doc], ms + [vs[i]];
    } else {
      JoinStep(ms, vs, i, j);
      Join(categories, j, ms, unprocessed, vs, i, rep);
      cs, ns := categories, ms[j := ms[j].(groups := ms[j].groups + vs[i].groups)];
    }
  }

  lemma AppendTaken(cs: seq<Category>, ms: seq<CategoryValue>, us: seq<Category>, vs: seq<CategoryValue>, i: nat,
                    rep: set<object>)
    requires i < |us| == |vs| && TakenFrom(cs, us, vs, i, rep) && Hold(cs, ms, rep) && DistinctNames(cs)
    requires forall k :: 0 <= k < |cs| ==> cs[k].name != us[i].name
    ensures TakenFrom(cs + [us[i]], us, vs, i + 1, rep) && Hold(cs + [us[i]], ms + [vs[i]], rep)
    ensures DistinctNames(cs + [us[i]])
  {
    assert us[..i + 1] == us[..i] + [us[i]];
  }

  /** The groups of the `i`-th category go to the one of the same name. */
  method Join(cs: seq<Category>, j: nat, ghost ms: seq<CategoryValue>, us: seq<Category>, ghost vs: seq<CategoryValue>,
              i: nat, ghost rep: set<object>)
    requires i < |us| == |vs| && j < |cs| && Distinct(us)
    requires TakenFrom(cs, us, vs, i, rep) && Hold(cs, ms, rep) && DistinctNames(cs)
    modifies cs[j]
    ensures TakenFrom(cs, us, vs, i + 1, rep)
    ensures Hold(cs, ms[j := ms[j].(groups := ms[j].groups + vs[i].groups)], rep)
  {
    assert us[..i + 1] == us[..i] + [us[i]];
    EarlierIsOther(cs[j], us, i);
    assert HoldCategory(cs[j], ms[j], rep) && HoldCategory(us[i], vs[i], rep);
    SetGroups(cs, j, cs[j].groups + us[i].groups, ms[j].groups + vs[i].groups, ms, rep);
  }

  lemma EarlierIsOther(c: Category, us: seq<Category>, i: nat)
    requires i <= |us| && Distinct(us) && c in us[..i]
    ensures forall k :: i <= k < |us| ==> us[k] != c
    ensures c in us
  {
    var j :| 0 <= j < i && us[j] == c;
  }

  predicate SameHoldings(ms: seq<CategoryValue>, vs: seq<CategoryValue>) {
    NamesOf(ms) == NamesOf(vs) && Total(ms) == Total(vs)
  }

  lemma AppendStep(ms: seq<CategoryValue>, vs: seq<CategoryValue>, i: nat)
    requires i < |vs| && SameHoldings(ms, vs[..i])
    ensures SameHoldings(ms + [vs[i]], vs[..i + 1])
  {
    assert vs[..i + 1] == vs[..i] + [vs[i]];
    NamesAppend(vs[..i], vs[i]);
    NamesAppend(ms, vs[i]);
    TotalConcat(vs[..i], [vs[i]]);
    TotalConcat(ms, [vs[i]]);
  }

  lemma JoinStep(ms: seq<CategoryValue>, vs: seq<CategoryValue>, i: nat, j: nat)
    requires i < |vs| && j < |ms| && ms[j].name == vs[i].name && SameHoldings(ms, vs[..i])
    ensures SameHoldings(ms[j := ms[j].(groups := ms[j].groups + vs[i].groups)], vs[..i + 1])
  {
    assert vs[..i + 1] == vs[..i] + [vs[i]];
    NamesAppend(vs[..i], vs[i]);
    NamesReplace(ms, j, ms[j].groups + vs[i].groups);
    assert ms[j] in ms && ms[j].name in NamesOf(ms);
    TotalConcat(vs[..i], [vs[i]]);
    TotalOne(vs[i]);
    TotalExtend(ms, j, vs[i].groups);
  }

  lemma TotalExtend(ms: seq<CategoryValue>, j: nat, more: seq<GroupValue>)
    requires j < |ms|
    ensures Total(ms[j := ms[j].(groups := ms[j].groups + more)]) == Total(ms) + Entries(ms[j].name, more)
  {
    TotalSplit(ms, j);
    TotalReplace(ms, j, ms[j].groups + more);
    EntriesConcat(ms[j].name, ms[j].groups, more);
  }

  lemma SortStep(ms: seq<CategoryValue>, i: nat, gs: seq<GroupValue>)
    requires i < |ms| && Entries(ms[i].name, gs) == Entries(ms[i].name, ms[i].groups)
    ensures SameHoldings(ms[i := ms[i].(groups := gs)], ms)
  {
    TotalSplit(ms, i);
    TotalReplace(ms, i, gs);
    NamesReplace(ms, i, gs);
  }

  lemma HoldConcat(cs: seq<Category>, vs: seq<CategoryValue>, rep: set<object>,
                   ds: seq<Category>, ws: seq<CategoryValue>, more: set<object>)
    requires Hold(cs, vs, rep) && Hold(ds, ws, more)
    ensures Hold(cs + ds, vs + ws, rep + more)
  {
    HoldMore(cs, vs, rep, rep + more);
    HoldMore(ds, ws, more, rep + more);
  }

  lemma HoldAppend(cs: seq<Category>, vs: seq<CategoryValue>, rep: set<object>,
                   c: Category, v: CategoryValue, more: set<object>)
    requires Hold(cs, vs, rep) && HoldCategory(c, v, more) && NoCategories(more)
    ensures Hold(cs + [c], vs + [v], rep + more)
  {
    HoldMore(cs, vs, rep, rep + more);
  }

  method CopyAll(doc: seq<Category>, ghost rep: set<object>)
      returns (cs: seq<Category>, ghost vs: seq<CategoryValue>, ghost copies: set<object>)
    requires NoCategories(rep) && forall c :: c in doc ==> Within(c.groups, rep)
    ensures Distinct(cs) && fresh(cs) && fresh(copies)
    ensures Hold(cs, vs, copies) && Hold(doc, vs, rep)
  {
    cs, vs, copies := [], [], {};
    for i := 0 to |doc|
      invariant Distinct(cs) && fresh(cs) && fresh(copies)
      invariant Hold(cs, vs, copies) && Hold(doc[..i], vs, rep)
    {
      var c, v, more := doc[i].Copy(rep);
      HoldAppend(cs, vs, copies, c, v, more);
      cs, vs, copies := cs + [c], vs + [v], copies + more;
    }
    assert doc[..|doc|] == doc;
  }
}
