/** What a changeset has gathered from a sequence of responses, and what of it reaches the object. */
module ChangesetRuns {
  import opened Collections
  import opened Interleavings
  import opened Changesets
  import MP = MergePatch
  import DP = DocPaths

  // ---------------------------------------------------------------- what is gathered

  /** `at` is where in the responses those are that `f` selects, and `us` what it makes of them. */
  ghost predicate Places<U>(f: Response -> Option<U>, rs: seq<Response>, at: seq<nat>, us: seq<U>) {
    && Rising(at) && |at| == |us|
    && (forall i: nat :: i in at <==> i < |rs| && f(rs[i]).Some?)
    && forall j :: 0 <= j < |at| ==> at[j] < |rs| && f(rs[at[j]]) == Some(us[j])
  }

  lemma PlacesMore<U>(f: Response -> Option<U>, rs: seq<Response>, r: Response, at: seq<nat>, us: seq<U>)
    requires Places(f, rs, at, us)
    ensures
      if f(r).Some? then Places(f, rs + [r], at + [|rs|], us + [f(r).value]) else Places(f, rs + [r], at, us)
  {
    assert forall j :: 0 <= j < |at| ==> at[j] in at;
    var at' := if f(r).Some? then at + [|rs|] else at;
    forall i: nat ensures i in at' <==> i < |rs + [r]| && f((rs + [r])[i]).Some? {
      assert i in at' <==> i in at || (f(r).Some? && i == |rs|);
    }
  }

  lemma {:induction false} SelectedAt<U>(f: Response -> Option<U>, rs: seq<Response>) returns (at: seq<nat>)
    ensures Places(f, rs, at, Select(f, rs))
    decreases |rs|
  {
    at := [];
    if rs != [] {
      var n := |rs| - 1;
      at := SelectedAt(f, rs[..n]);
      PlacesMore(f, rs[..n], rs[n], at, Select(f, rs[..n]));
      assert rs == rs[..n] + [rs[n]];
      if f(rs[n]).Some? {
        at := at + [n];
      }
    }
  }

  /** The environment is the variables that came, in the order in which they came. */
  lemma {:induction false} EnvironmentGathered(rs: seq<Response>) returns (at: seq<nat>)
    ensures Rising(at) && |at| == |Feed(rs).environment|
    ensures forall i: nat :: i in at <==> i < |rs| && rs[i].Env?
    ensures forall j :: 0 <= j < |at| ==>
      at[j] < |rs| && rs[at[j]] == Env(Feed(rs).environment[j].0, Feed(rs).environment[j].1)
  {
    FeedCollects(rs);
    at := SelectedAt(EnvOf, rs);
  }

  /** So are the containers and init containers, */
  lemma {:induction false} ContainersGathered(rs: seq<Response>) returns (at: seq<nat>, inits: seq<nat>)
    ensures Rising(at) && |at| == |Feed(rs).sidecars| && Rising(inits) && |inits| == |Feed(rs).initContainers|
    ensures forall i: nat :: i in at <==> i < |rs| && rs[i].Container?
    ensures forall i: nat :: i in inits <==> i < |rs| && rs[i].InitContainer?
    ensures forall j :: 0 <= j < |at| ==> at[j] < |rs| && rs[at[j]] == Container(Feed(rs).sidecars[j])
    ensures forall j :: 0 <= j < |inits| ==>
      inits[j] < |rs| && rs[inits[j]] == InitContainer(Feed(rs).initContainers[j])
  {
    FeedCollects(rs);
    at := SelectedAt(SidecarOf, rs);
    inits := SelectedAt(InitContainerOf, rs);
  }

  /** and the references to secrets and config maps. */
  lemma {:induction false} ReferencesGathered(rs: seq<Response>) returns (at: seq<nat>)
    ensures Rising(at) && |at| == |Feed(rs).envFrom|
    ensures forall i: nat :: i in at <==> i < |rs| && rs[i].EnvFrom? && rs[i].typ != Unknown
    ensures forall j :: 0 <= j < |at| ==>
      at[j] < |rs| && rs[at[j]].EnvFrom? &&
      if rs[at[j]].typ == Secret then Feed(rs).envFrom[j] == SecretRef(rs[at[j]].ref, rs[at[j]].optional)
      else Feed(rs).envFrom[j] == ConfigMapRef(rs[at[j]].ref, rs[at[j]].optional)
  {
    FeedCollects(rs);
    at := SelectedAt(EnvFromOf, rs);
  }

  // ---------------------------------------------------------------- labels and annotations, end to end

  /** The response at `i` is the last that writes label `k`. */
  predicate LastLabel(rs: seq<Response>, i: nat, k: string) {
    i < |rs| && rs[i].Label? && rs[i].name == k && forall j :: i < j < |rs| ==> !(rs[j].Label? && rs[j].name == k)
  }

  predicate LastAnnotation(rs: seq<Response>, i: nat, k: string) {
    i < |rs| && rs[i].Annotation? && rs[i].name == k &&
    forall j :: i < j < |rs| ==> !(rs[j].Annotation? && rs[j].name == k)
  }

  lemma {:induction false} LabelGathered(rs: seq<Response>, k: string)
    ensures k in Feed(rs).labels <==> exists i: nat :: LastLabel(rs, i, k)
    ensures forall i: nat :: LastLabel(rs, i, k) ==> k in Feed(rs).labels && Feed(rs).labels[k] == rs[i].value
  {
    if rs != [] {
      var n := |rs| - 1;
      LabelGathered(rs[..n], k);
      if rs[n].Label? && rs[n].name == k {
        assert LastLabel(rs, n, k);
      } else {
        forall i: nat ensures LastLabel(rs, i, k) <==> LastLabel(rs[..n], i, k) { }
      }
    }
  }

  lemma {:induction false} AnnotationGathered(rs: seq<Response>, k: string)
    ensures k in Feed(rs).annotations <==> exists i: nat :: LastAnnotation(rs, i, k)
    ensures forall i: nat :: LastAnnotation(rs, i, k) ==>
      k in Feed(rs).annotations && Feed(rs).annotations[k] == rs[i].value
  {
    if rs != [] {
      var n := |rs| - 1;
      AnnotationGathered(rs[..n], k);
      if rs[n].Annotation? && rs[n].name == k {
        assert LastAnnotation(rs, n, k);
      } else {
        forall i: nat ensures LastAnnotation(rs, i, k) <==> LastAnnotation(rs[..n], i, k) { }
      }
    }
  }

  /**
   * From the responses to the object: with a patch that leaves metadata alone, or none, a label of the
   * object is the last one written to its key, or what it was if none was written; and annotations
   * likewise.
   */
  lemma {:induction false} LastWriteReachesObject(
      d: MP.Json, rs: seq<Response>, whole: set<string>, e: MP.Json, k: string)
    requires Rewritten(d, Feed(rs), whole, e)
    requires Feed(rs).mergePatch.Doc? ==> "metadata" !in MP.Fields(Feed(rs).mergePatch.json)
    ensures forall i: nat :: LastLabel(rs, i, k) ==> DP.TextAt(e, ["metadata", "labels", k]) == Some(rs[i].value)
    ensures (forall i: nat :: !LastLabel(rs, i, k)) ==>
      DP.TextAt(e, ["metadata", "labels", k]) == DP.TextAt(d, ["metadata", "labels", k])
    ensures forall i: nat :: LastAnnotation(rs, i, k) ==>
      DP.TextAt(e, ["metadata", "annotations", k]) == Some(rs[i].value)
    ensures (forall i: nat :: !LastAnnotation(rs, i, k)) ==>
      DP.TextAt(e, ["metadata", "annotations", k]) == DP.TextAt(d, ["metadata", "annotations", k])
  {
    LabelGathered(rs, k);
    AnnotationGathered(rs, k);
    GatheredReachObject(d, Feed(rs), whole, e, k);
  }

  lemma {:induction false} GatheredReachObject(d: MP.Json, c: Contents, whole: set<string>, e: MP.Json, k: string)
    requires Rewritten(d, c, whole, e) && (c.mergePatch.Doc? ==> "metadata" !in MP.Fields(c.mergePatch.json))
    ensures DP.TextAt(e, ["metadata", "labels", k]) ==
      if k in c.labels then Some(c.labels[k]) else DP.TextAt(d, ["metadata", "labels", k])
    ensures DP.TextAt(e, ["metadata", "annotations", k]) ==
      if k in c.annotations then Some(c.annotations[k]) else DP.TextAt(d, ["metadata", "annotations", k])
  {
    var m :|
      && Tagged(d, c.labels, c.annotations, m)
      && if c.mergePatch.Doc? && c.mergePatch.json.Obj? then Retold(m, c.mergePatch.json, whole, e) else e == m;
    if c.mergePatch.Doc? && c.mergePatch.json.Obj? {
      SilentStays(m, c.mergePatch.json, whole, e, ["metadata", "labels", k]);
      SilentStays(m, c.mergePatch.json, whole, e, ["metadata", "annotations", k]);
    }
  }

  lemma SilentStays(m: MP.Json, p: MP.Json, whole: set<string>, e: MP.Json, q: DP.Path)
    requires p.Obj? && Retold(m, p, whole, e) && q != [] && q[0] !in p.m
    ensures DP.Look(e, q) == DP.Look(m, q)
  {
    assert DP.Says(p, q).Silent?;
  }

  // ---------------------------------------------------------------- responses that are refused

  /** The response at `i` is the first to bring a merge patch that is not empty. */
  predicate FirstPatch(rs: seq<Response>, i: nat) {
    i < |rs| && BringsPatch(rs[i]) && forall j :: 0 <= j < i ==> !BringsPatch(rs[j])
  }

  predicate BringsPatch(r: Response) {
    r.MergePatch? && !r.patch.Empty?
  }

  lemma FirstPatchMore(rs: seq<Response>, r: Response, i: nat)
    ensures FirstPatch(rs + [r], i) <==> FirstPatch(rs, i) || (i == |rs| && NoPatch(rs) && BringsPatch(r))
  {
    var more := rs + [r];
    if FirstPatch(more, i) {
      forall j | 0 <= j < i ensures !BringsPatch(rs[j]) { assert more[j] == rs[j]; }
    }
  }

  /** Whether a patch is held, and whether it is one, is up to the first that came. */
  lemma {:induction false} FirstPatchHeld(rs: seq<Response>)
    ensures Feed(rs).mergePatch.Empty? <==> NoPatch(rs)
    ensures forall i: nat :: FirstPatch(rs, i) ==> (Feed(rs).mergePatch.Malformed? <==> rs[i].patch.Malformed?)
  {
    if rs != [] {
      var n := |rs| - 1;
      var front := rs[..n];
      FirstPatchHeld(front);
      assert rs == front + [rs[n]];
      forall i: nat | FirstPatch(rs, i) ensures Feed(rs).mergePatch.Malformed? <==> rs[i].patch.Malformed? {
        FirstPatchMore(front, rs[n], i);
        if i < n { assert !NoPatch(front); }
      }
      assert NoPatch(rs) <==> NoPatch(front) && !BringsPatch(rs[n]);
    }
  }

  predicate NoPatch(rs: seq<Response>) {
    forall j :: 0 <= j < |rs| ==> !BringsPatch(rs[j])
  }

  lemma {:induction false} FirstExists(rs: seq<Response>) returns (i: nat)
    requires !NoPatch(rs)
    ensures FirstPatch(rs, i)
  {
    i := 0;
    while !BringsPatch(rs[i])
      invariant i < |rs| && forall j :: 0 <= j < i ==> !BringsPatch(rs[j])
      decreases |rs| - i
    {
      i := i + 1;
    }
  }

  /**
   * A response is refused if it is of no kind, a reference of an unknown type, or a patch that is not
   * the first to come where it or the first one is malformed; and only then.
   */
  lemma {:induction false} RefusedIff(rs: seq<Response>, r: Response)
    ensures !Accepted(Feed(rs), r) <==>
      || r.Unset?
      || (r.EnvFrom? && r.typ != Secret && r.typ != ConfigMap)
      || (BringsPatch(r) && exists i: nat :: FirstPatch(rs, i) && (r.patch.Malformed? || rs[i].patch.Malformed?))
  {
    FirstPatchHeld(rs);
    if !NoPatch(rs) {
      var i := FirstExists(rs);
    }
  }
}
