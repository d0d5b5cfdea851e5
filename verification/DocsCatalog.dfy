/** The catalogue made of parsed pages, in terms of what the pages themselves say. */
module DocsCatalog {
  import opened Collections
  import opened Docs
  import opened DocsFiling
  import opened DocsNames
  import opened DocsSlugs

  /** How the documentation controller reads group fields and makes slugs. */
  function ControllerReading(): Reading {
    Reading(ParseGroupName, Sluggify)
  }

  ghost predicate HasWeight(gn: string) {
    exists name, digits :: Splits(gn, name, digits)
  }

  /** What a group field says, whichever way it is read off. */
  ghost predicate Says(gn: string, group: string, weight: int) {
    if HasWeight(gn) then
      exists name, digits ::
        Splits(gn, name, digits) && group == TrimRight(TrimLeft(name)) && weight == Clamped(Value(digits))
    else group == gn && weight == -1
  }

  lemma {:induction false} ReadsWhatIsSaid(gn: string, group: string, weight: int)
    ensures Says(gn, group, weight) <==> ParseGroupName(gn) == (group, weight)
  {
    WeightIffSplits(gn);
    if HasWeight(gn) {
      forall name, digits | Splits(gn, name, digits)
        ensures ParseGroupName(gn) == (TrimRight(TrimLeft(name)), Clamped(Value(digits)))
      {
        WeightIsRead(gn, name, digits);
      }
    }
  }

  // ---------------------------------------------------------------- what the catalogue is

  ghost predicate SlugFor(slug: string, s: string) {
    exists at, to :: SlugOf(s, slug, at, to)
  }

  /** The page as it is kept: a slug of its own is left alone, another is made from the title. */
  ghost predicate Kept(q: Page, p: Page) {
    q == p.(slug := q.slug) && if p.slug == "" then SlugFor(q.slug, p.title) else q.slug == p.slug
  }

  ghost predicate PutUnder(p: Page, category: string, group: string) {
    p.category == category && exists weight :: Says(p.group, group, weight)
  }

  /** The pages kept are the `own` ones of those parsed, each once: all that name the group, and no others. */
  ghost predicate Owns(category: string, group: string, kept: seq<Page>, ps: seq<Page>, own: seq<nat>) {
    && NoDuplicates(own) && |own| == |kept|
    && (forall i: nat :: i in own <==> i < |ps| && PutUnder(ps[i], category, group))
    && forall j :: 0 <= j < |own| ==> own[j] < |ps| && Kept(kept[j], ps[own[j]])
  }

  /** The group has the weight that the first page parsed for it says. */
  ghost predicate WeightOfFirst(g: GroupValue, ps: seq<Page>, own: seq<nat>) {
    exists i: nat :: i in own && i < |ps| && (forall j :: j in own ==> i <= j) && Says(ps[i].group, g.name, g.weight)
  }

  ghost predicate WellMade(category: string, g: GroupValue, ps: seq<Page>) {
    && SlugFor(g.slug, g.name)
    && (forall i, j :: 0 <= i < j < |g.pages| ==> g.pages[i].weight <= g.pages[j].weight)
    && exists own :: Owns(category, g.name, g.pages, ps, own) && WeightOfFirst(g, ps, own)
  }

  /** Every group is well made, no name is there twice, and every page has a group it names. */
  ghost predicate Catalogued(ms: seq<CategoryValue>, ps: seq<Page>) {
    && (forall k, i :: 0 <= k < |ms| && 0 <= i < |ms[k].groups| ==> WellMade(ms[k].name, ms[k].groups[i], ps))
    && (forall k, i, j :: 0 <= k < |ms| && 0 <= i < j < |ms[k].groups| ==>
          ms[k].groups[i].name != ms[k].groups[j].name)
    && forall p :: p in ps ==> IsPlaced(ms, p)
  }

  ghost predicate IsPlaced(ms: seq<CategoryValue>, p: Page) {
    exists k, i :: 0 <= k < |ms| && 0 <= i < |ms[k].groups| && PutUnder(p, ms[k].name, ms[k].groups[i].name)
  }

  // ---------------------------------------------------------------- where the pages of a group come from

  /** Where in `ps` the pages are that name the group. */
  predicate PlacesOf(r: Reading, ps: seq<Page>, category: string, group: string, at: seq<nat>) {
    && Rising(at) && |at| == |Filter(r, ps, category, group)|
    && (forall j :: 0 <= j < |at| ==> at[j] < |ps| && ps[at[j]] == Filter(r, ps, category, group)[j])
    && (forall i :: i in at ==> i < |ps|)
    && forall i: nat | i < |ps| :: i in at <==> BelongsTo(r, ps[i], category, group)
  }

  lemma {:induction false} FilterPlaces(r: Reading, ps: seq<Page>, category: string, group: string)
      returns (at: seq<nat>)
    ensures PlacesOf(r, ps, category, group, at)
    decreases |ps|
  {
    at := [];
    if ps != [] {
      var n := |ps| - 1;
      var front := FilterPlaces(r, ps[..n], category, group);
      at := if BelongsTo(r, ps[n], category, group) then front + [n] else front;
      PlacesMore(r, ps, category, group, front, at);
    }
  }

  lemma PlacesMore(r: Reading, ps: seq<Page>, category: string, group: string, front: seq<nat>, at: seq<nat>)
    requires ps != [] && PlacesOf(r, ps[..|ps| - 1], category, group, front)
    requires at == if BelongsTo(r, ps[|ps| - 1], category, group) then front + [|ps| - 1] else front
    ensures PlacesOf(r, ps, category, group, at)
  {
    var n := |ps| - 1;
    assert forall j :: 0 <= j < |front| ==> front[j] in front;
    forall i: nat | i < |ps| ensures i in at <==> BelongsTo(r, ps[i], category, group) {
      assert i in at <==> i in front || (i == n && BelongsTo(r, ps[n], category, group));
      if i < n { assert ps[..n][i] == ps[i]; }
    }
  }

  /** `perm` says where in `t` the elements of `s` are. */
  predicate Permutes<T(==)>(s: seq<T>, t: seq<T>, perm: seq<nat>) {
    && NoDuplicates(perm) && |perm| == |s|
    && (forall j :: 0 <= j < |perm| ==> perm[j] < |t| && s[j] == t[perm[j]])
    && forall i: nat | i < |t| :: i in perm
  }

  lemma {:induction false} PermutationExists<T>(s: seq<T>, t: seq<T>) returns (perm: seq<nat>)
    requires multiset(s) == multiset(t)
    ensures Permutes(s, t, perm)
    decreases |s|
  {
    assert |s| == |multiset(s)| == |t|;
    perm := [];
    if s != [] {
      var n := |s| - 1;
      var k := Position(s, t, n);
      var rest := PermutationExists(s[..n], t[..k] + t[k + 1..]);
      perm := seq(n, j requires 0 <= j < n => if rest[j] < k then rest[j] else rest[j] + 1) + [k];
      PermutesMore(s, t, k, rest, perm);
    }
  }

  lemma PermutesMore<T>(s: seq<T>, t: seq<T>, k: nat, rest: seq<nat>, perm: seq<nat>)
    requires s != [] && k < |t| && t[k] == s[|s| - 1] && Permutes(s[..|s| - 1], t[..k] + t[k + 1..], rest)
    requires |perm| == |s| && perm[|s| - 1] == k
    requires forall j :: 0 <= j < |s| - 1 ==> perm[j] == if rest[j] < k then rest[j] else rest[j] + 1
    ensures Permutes(s, t, perm)
  {
    var n := |s| - 1;
    forall i: nat | i < |t| ensures i in perm {
      if i == k {
        assert perm[n] == i;
      } else {
        var l := if i < k then i else i - 1;
        assert l in rest;
        var j :| 0 <= j < |rest| && rest[j] == l;
        assert perm[j] == i;
      }
    }
    forall j | 0 <= j < n ensures perm[j] < |t| && s[j] == t[perm[j]] {
      assert s[..n][j] == (t[..k] + t[k + 1..])[rest[j]];
    }
  }

  // ---------------------------------------------------------------- from the program's terms

  lemma SaidOf(p: Page, category: string, group: string)
    ensures BelongsTo(ControllerReading(), p, category, group) <==> PutUnder(p, category, group)
    ensures PutUnder(p, category, group) ==> Says(p.group, group, ParseGroupName(p.group).1)
  {
    ReadsWhatIsSaid(p.group, group, ParseGroupName(p.group).1);
    forall weight | Says(p.group, group, weight) ensures ParseGroupName(p.group) == (group, weight) {
      ReadsWhatIsSaid(p.group, group, weight);
    }
  }

  lemma SlugIsFor(s: string)
    ensures SlugFor(Sluggify(s), s)
  {
    var at, to := SluggifyKeepsSurvivors(s);
  }

  /** The pages of a group, through its sorted list back to the pages parsed. */
  lemma {:induction false} ArrangedOwns(category: string, group: string, kept: seq<Page>, ps: seq<Page>, at: seq<nat>)
      returns (own: seq<nat>)
    requires PlacesOf(ControllerReading(), ps, category, group, at)
    requires Arranged(ControllerReading(), kept, Filter(ControllerReading(), ps, category, group))
    ensures Owns(category, group, kept, ps, own)
    ensures forall i :: i in own <==> i in at
    ensures forall i, j :: 0 <= i < j < |kept| ==> kept[i].weight <= kept[j].weight
  {
    var r := ControllerReading();
    var pages := Filter(r, ps, category, group);
    var sorted: seq<Page> :| SluggedFrom(r, kept, sorted) && SortedPages(sorted) && multiset(sorted) == multiset(pages);
    var perm := PermutationExists(sorted, pages);
    assert |pages| == |multiset(pages)| == |multiset(sorted)| == |sorted|;
    own := PlacesPermuted(at, perm);
    forall i: nat ensures i in own <==> i < |ps| && PutUnder(ps[i], category, group) {
      if i < |ps| { SaidOf(ps[i], category, group); }
    }
    forall j | 0 <= j < |own| ensures own[j] < |ps| && Kept(kept[j], ps[own[j]]) {
      assert sorted[j] == pages[perm[j]] == ps[own[j]];
      SlugIsFor(sorted[j].title);
    }
  }

  lemma PlacesPermuted(at: seq<nat>, perm: seq<nat>) returns (own: seq<nat>)
    requires Rising(at) && NoDuplicates(perm) && |perm| == |at|
    requires forall j :: 0 <= j < |perm| ==> perm[j] < |at|
    requires forall i: nat | i < |at| :: i in perm
    ensures |own| == |perm| && forall j :: 0 <= j < |perm| ==> own[j] == at[perm[j]]
    ensures NoDuplicates(own) && forall i :: i in own <==> i in at
  {
    own := seq(|perm|, j requires 0 <= j < |perm| => at[perm[j]]);
    forall i | i in at ensures i in own {
      var l: nat :| l < |at| && at[l] == i;
      assert l in perm;
      var j :| 0 <= j < |perm| && perm[j] == l;
      assert own[j] == i;
    }
    forall i, j | 0 <= i < j < |own| ensures own[i] != own[j] {
      assert perm[i] != perm[j];
      assert at[perm[i]] != at[perm[j]];
    }
  }

  lemma {:induction false} ShelvedIsWellMade(category: string, g: GroupValue, ps: seq<Page>)
    requires ShelvedGroup(ControllerReading(), g, Filter(ControllerReading(), ps, category, g.name))
    ensures WellMade(category, g, ps)
  {
    var r := ControllerReading();
    var at := FilterPlaces(r, ps, category, g.name);
    var own := ArrangedOwns(category, g.name, g.pages, ps, at);
    SlugIsFor(g.name);
    assert at[0] in at;
    SaidOf(ps[at[0]], category, g.name);
    forall j | j in own ensures at[0] <= j {
      var l :| 0 <= l < |at| && at[l] == j;
    }
    assert WeightOfFirst(g, ps, own);
  }

  lemma {:induction false} ShelvedIsCatalogued(ms: seq<CategoryValue>, ps: seq<Page>)
    requires ShelvedAll(ControllerReading(), ms, ps)
    ensures Catalogued(ms, ps)
  {
    var r := ControllerReading();
    forall k, i | 0 <= k < |ms| && 0 <= i < |ms[k].groups| ensures WellMade(ms[k].name, ms[k].groups[i], ps) {
      assert Shelved(r, ms[k].name, ms[k].groups, ps);
      ShelvedIsWellMade(ms[k].name, ms[k].groups[i], ps);
    }
    forall k, i, j | 0 <= k < |ms| && 0 <= i < j < |ms[k].groups|
      ensures ms[k].groups[i].name != ms[k].groups[j].name
    {
      assert Shelved(r, ms[k].name, ms[k].groups, ps);
    }
    forall p | p in ps ensures IsPlaced(ms, p) {
      PlaceIsSaid(ms, p);
    }
  }

  lemma {:induction false} PlaceIsSaid(ms: seq<CategoryValue>, p: Page)
    requires HasPlace(ControllerReading(), ms, p)
    ensures IsPlaced(ms, p)
  {
    var group := ControllerReading().group(p.group).0;
    var k :| 0 <= k < |ms| && ms[k].name == p.category && HasGroup(ms[k].groups, group);
    var i :| 0 <= i < |ms[k].groups| && ms[k].groups[i].name == group;
    SaidOf(p, ms[k].name, group);
  }

  /**
   * `Parse` as the controller reads: every page parsed is in the one group its fields name, each once
   * and by weight; and categories, groups and pages without a slug of their own get one.
   */
  method ParseSource(c: Controller, source: string, pages: seq<Option<Page>>)
      returns (ok: bool, ghost ps: seq<Page>, ghost ms: seq<CategoryValue>)
    requires c.Valid()
    modifies c
    ensures c.Valid() && (ok <==> None !in pages)
    ensures !ok ==> c.docs == old(c.docs)
    ensures ok ==> |ps| == |pages| && forall k :: 0 <= k < |ps| ==> pages[k] == Some(ps[k])
    ensures ok ==> source in c.docs && c.docs == old(c.docs)[source := c.docs[source]] && fresh(c.docs[source])
    ensures ok ==> Hold(c.docs[source], ms, c.rep) && DistinctNames(c.docs[source]) && Catalogued(ms, ps)
    ensures ok ==> forall k :: 0 <= k < |c.docs[source]| ==> SlugFor(c.docs[source][k].slug, c.docs[source][k].name)
  {
    ok, ps, ms := Parse(c, source, ControllerReading(), pages);
    if ok {
      ShelvedIsCatalogued(ms, ps);
      forall k | 0 <= k < |c.docs[source]| ensures SlugFor(c.docs[source][k].slug, c.docs[source][k].name) {
        SlugIsFor(c.docs[source][k].name);
      }
    }
  }
}
