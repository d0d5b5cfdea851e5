/** Accumulating extension responses and applying them to an object. */
module Changesets {
  import opened Collections
  import opened Interleavings
  import MP = MergePatch
  import DP = DocPaths

  // ---------------------------------------------------------------- responses and contents

  datatype EnvFromType = Secret | ConfigMap | Unknown

  datatype EnvFromSource = SecretRef(name: string, optional: bool) | ConfigMapRef(name: string, optional: bool)

  /** The bytes of a merge patch: none, not JSON, or a document. */
  datatype Patch = Empty | Malformed | Doc(json: MP.Json)

  datatype Response =
    | Env(name: string, value: string)
    | Annotation(name: string, value: string)
    | Label(name: string, value: string)
    | EnvFrom(typ: EnvFromType, ref: string, optional: bool)
    | Container(spec: string)
    | InitContainer(spec: string)
    | MergePatch(patch: Patch)
    | Unset

  datatype Contents = Contents(
    environment: seq<Write>,
    labels: map<string, string>,
    annotations: map<string, string>,
    envFrom: seq<EnvFromSource>,
    mergePatch: Patch,
    initContainers: seq<string>,
    sidecars: seq<string>)

  const FRESH := Contents([], map[], map[], [], Empty, [], [])

  predicate PatchAccepted(have: Patch, more: Patch) {
    more.Empty? || have.Empty? || (have.Doc? && more.Doc?)
  }

  /** The first patch is stored as it is; a later one is folded into it. */
  function PatchAfter(have: Patch, more: Patch): Patch {
    if !PatchAccepted(have, more) || more.Empty? then have
    else if have.Empty? then more
    else Doc(MP.Combine(have.json, more.json))
  }

  predicate Accepted(c: Contents, r: Response) {
    match r
    case EnvFrom(typ, _, _) => typ != Unknown
    case MergePatch(p) => PatchAccepted(c.mergePatch, p)
    case Unset => false
    case _ => true
  }

  function After(c: Contents, r: Response): Contents {
    match r
    case Env(n, v) => c.(environment := c.environment + [(n, v)])
    case Annotation(n, v) => c.(annotations := c.annotations[n := v])
    case Label(n, v) => c.(labels := c.labels[n := v])
    case EnvFrom(Secret, n, o) => c.(envFrom := c.envFrom + [SecretRef(n, o)])
    case EnvFrom(ConfigMap, n, o) => c.(envFrom := c.envFrom + [ConfigMapRef(n, o)])
    case EnvFrom(Unknown, _, _) => c
    case Container(s) => c.(sidecars := c.sidecars + [s])
    case InitContainer(s) => c.(initContainers := c.initContainers + [s])
    case MergePatch(p) => c.(mergePatch := PatchAfter(c.mergePatch, p))
    case Unset => c
  }

  // ---------------------------------------------------------------- reading and writing string maps of a document

  function ToStrings(j: MP.Json): map<string, string> {
    map k | k in MP.Fields(j) && MP.Fields(j)[k].Scalar? :: MP.Fields(j)[k].text
  }

  function GetStrings(doc: MP.Json, field: string): map<string, string> {
    ToStrings(MP.Field(MP.Field(doc, "metadata"), field))
  }

  /** Setting `metadata.<field>`; an empty map is omitted from the document. */
  function SetStrings(doc: MP.Json, field: string, m: map<string, string>): MP.Json {
    var meta := MP.Fields(MP.Field(doc, "metadata"));
    var meta' := if m == map[] then meta - {field} else meta[field := MP.Obj(map k | k in m :: MP.Scalar(m[k]))];
    MP.Obj(MP.Fields(doc)["metadata" := MP.Obj(meta')])
  }

  /** The object once labels and annotations of the changeset are merged in. */
  function Labelled(doc: MP.Json, c: Contents): MP.Json {
    var doc' := SetStrings(doc, "labels", GetStrings(doc, "labels") + c.labels);
    SetStrings(doc', "annotations", GetStrings(doc', "annotations") + c.annotations)
  }

  /**
   * Decoding a document into the object it was made from: fields absent from it keep their values,
   * at any depth, except in the top-level fields of `whole`, whose types decode themselves from scratch.
   */
  function Decoded(d: MP.Json, out: MP.Json, whole: set<string>): MP.Json
    requires d.Obj? && out.Obj?
  {
    MP.Obj(map k | k in d.m.Keys + out.m.Keys ::
      if k !in out.m then d.m[k] else if k in d.m && k !in whole then MP.Combine(d.m[k], out.m[k]) else out.m[k])
  }

  /** There is no patch, or one that can be applied to an object. */
  predicate Applicable(p: Patch) {
    p.Empty? || (p.Doc? && p.json.Obj?)
  }

  /** The object after `Apply`; if the patch cannot be applied, labels and annotations are in all the same. */
  function Patched(doc: MP.Json, c: Contents, whole: set<string>): MP.Json {
    if Applicable(c.mergePatch) && c.mergePatch.Doc? then
      Decoded(Labelled(doc, c), MP.Apply(Labelled(doc, c), c.mergePatch.json), whole)
    else Labelled(doc, c)
  }

  /** The patch deletes a field of the object, outside what is decoded as a whole. */
  predicate DeletesField(d: MP.Json, p: MP.Json, whole: set<string>)
    requires d.Obj? && p.Obj?
  {
    exists k :: k in p.m && k in d.m && (p.m[k] == MP.Null || (k !in whole && MP.Deletes(d.m[k], p.m[k])))
  }

  /**
   * The object ends up as the patched document exactly when the patch deletes no field: what a patch
   * deletes comes back when the document is decoded.
   */
  lemma {:induction false} DeletionsAreLostIff(d: MP.Json, p: MP.Json, whole: set<string>)
    requires d.Obj? && p.Obj?
    ensures Decoded(d, MP.Apply(d, p), whole) == MP.Apply(d, p) <==> !DeletesField(d, p, whole)
  {
    var kept, out := Decoded(d, MP.Apply(d, p), whole).m, MP.Apply(d, p).m;
    forall k ensures (k in out ==> k in kept) && (k in kept && !(k in out && kept[k] == out[k]) <==>
      k in p.m && k in d.m && (p.m[k] == MP.Null || (k !in whole && MP.Deletes(d.m[k], p.m[k]))))
    {
      DecodedAt(d, p, whole, k);
    }
    if !DeletesField(d, p, whole) {
      assert kept == out;
    } else {
      var k :| k in p.m && k in d.m && (p.m[k] == MP.Null || (k !in whole && MP.Deletes(d.m[k], p.m[k])));
      assert k in kept && !(k in out && kept[k] == out[k]);
    }
  }

  lemma {:induction false} DecodedAt(d: MP.Json, p: MP.Json, whole: set<string>, k: string)
    requires d.Obj? && p.Obj?
    ensures
      var kept, out := Decoded(d, MP.Apply(d, p), whole).m, MP.Apply(d, p).m;
      && (k in out ==> k in kept)
      && (k in kept && !(k in out && kept[k] == out[k]) <==>
          k in p.m && k in d.m && (p.m[k] == MP.Null || (k !in whole && MP.Deletes(d.m[k], p.m[k]))))
  {
    if k in d.m && k !in whole {
      if k in p.m {
        MP.OverlayIff(d.m[k], p.m[k]);
      } else {
        MP.CombineSelf(d.m[k]);
      }
    }
  }

  // ---------------------------------------------------------------- the object, read off path by path

  /** The metadata map `field` holds the given values, besides what it held, and nothing but texts. */
  ghost predicate Holds(d: MP.Json, field: string, more: map<string, string>, e: MP.Json) {
    && (forall k :: DP.TextAt(e, ["metadata", field, k]) ==
          if k in more then Some(more[k]) else DP.TextAt(d, ["metadata", field, k]))
    && forall q: DP.Path :: Within(q, field) && |q| > 2 && DP.Look(e, q).Some? ==>
         |q| == 3 && DP.TextAt(e, q).Some?
  }

  predicate Within(q: DP.Path, field: string) {
    |q| >= 2 && q[0] == "metadata" && q[1] == field
  }

  /** Labels and annotations are merged in, each into its own map, and everything else is as it was. */
  ghost predicate Tagged(d: MP.Json, labels: map<string, string>, annotations: map<string, string>, e: MP.Json) {
    && e.Obj? && Holds(d, "labels", labels, e) && Holds(d, "annotations", annotations, e)
    && forall q: DP.Path ::
      q != [] && q != ["metadata"] && !Within(q, "labels") && !Within(q, "annotations") ==>
        DP.Look(e, q) == DP.Look(d, q)
  }

  /** The object does as the patch says, and is as it was wherever the patch is silent; what is to go
      stays, except inside a field that decodes itself. */
  ghost predicate Retold(d: MP.Json, p: MP.Json, whole: set<string>, e: MP.Json)
    requires p.Obj?
  {
    forall q: DP.Path :: q != [] ==>
      match DP.Says(p, q)
      case Sets(v) => DP.Look(e, q) == Some(v)
      case Opens => DP.IsObject(DP.Look(e, q))
      case Cuts => DP.Look(e, q) == None
      case Silent => DP.Look(e, q) == DP.Look(d, q)
      case Drops =>
        DP.Look(e, q) == if q[0] in whole && q[0] in p.m && p.m[q[0]] != MP.Null then None else DP.Look(d, q)
  }

  /** Labels and annotations go in, and then the patch, if there is one that can be applied. */
  ghost predicate Rewritten(d: MP.Json, c: Contents, whole: set<string>, e: MP.Json) {
    exists m ::
      && Tagged(d, c.labels, c.annotations, m)
      && if c.mergePatch.Doc? && c.mergePatch.json.Obj? then Retold(m, c.mergePatch.json, whole, e) else e == m
  }

  lemma LookIn(j: MP.Json, k: string, q: DP.Path)
    ensures DP.Look(j, [k] + q) == if k in MP.Fields(j) then DP.Look(MP.Fields(j)[k], q) else None
  {
    assert ([k] + q)[1..] == q;
  }

  lemma LookInMap(j: MP.Json, field: string, k: string)
    ensures DP.TextAt(j, ["metadata", field, k]) ==
      if k in GetStrings(j, field) then Some(GetStrings(j, field)[k]) else None
  {
    var meta := MP.Field(j, "metadata");
    LookIn(j, "metadata", [field, k]);
    LookIn(meta, field, [k]);
    LookIn(MP.Field(meta, field), k, []);
    assert ["metadata", field, k] == ["metadata"] + [field, k] && [field, k] == [field] + [k] && [k] == [k] + [];
  }

  /** Setting a map of the metadata, path by path. */
  lemma {:induction false} SetAt(j: MP.Json, field: string, m: map<string, string>, q: DP.Path)
    requires q != [] && q != ["metadata"]
    ensures !Within(q, field) ==> DP.Look(SetStrings(j, field, m), q) == DP.Look(j, q)
    ensures Within(q, field) && |q| > 2 ==>
      DP.Look(SetStrings(j, field, m), q) == if |q| == 3 && q[2] in m then Some(MP.Scalar(m[q[2]])) else None
  {
    var e := SetStrings(j, field, m);
    if q[0] == "metadata" {
      var meta, meta' := MP.Field(j, "metadata"), MP.Field(e, "metadata");
      var rest := q[1..];
      assert rest != [] && q == ["metadata"] + rest && rest == [rest[0]] + rest[1..];
      LookIn(j, "metadata", rest);
      LookIn(e, "metadata", rest);
      LookIn(meta, rest[0], rest[1..]);
      LookIn(meta', rest[0], rest[1..]);
      if rest[0] == field && |rest| > 1 && m != map[] {
        SetInside(m, rest[1..]);
      }
    }
  }

  lemma SetInside(m: map<string, string>, q: DP.Path)
    requires q != []
    ensures
      DP.Look(MP.Obj(map k | k in m :: MP.Scalar(m[k])), q) ==
        if |q| == 1 && q[0] in m then Some(MP.Scalar(m[q[0]])) else None
  {
    assert |q| == 1 ==> q[1..] == [];
  }

  lemma {:induction false} SetTags(j: MP.Json, field: string, more: map<string, string>)
    ensures Holds(j, field, more, SetStrings(j, field, GetStrings(j, field) + more))
  {
    var m := GetStrings(j, field) + more;
    var e := SetStrings(j, field, m);
    forall k
      ensures DP.TextAt(e, ["metadata", field, k]) ==
        if k in more then Some(more[k]) else DP.TextAt(j, ["metadata", field, k])
    {
      SetAt(j, field, m, ["metadata", field, k]);
      LookInMap(j, field, k);
    }
    forall q: DP.Path | Within(q, field) && |q| > 2 && DP.Look(e, q).Some?
      ensures |q| == 3 && DP.TextAt(e, q).Some?
    {
      SetAt(j, field, m, q);
    }
  }

  /** What the other map holds is left alone. */
  lemma {:induction false} TagsKept(
      d: MP.Json, field: string, more: map<string, string>, e: MP.Json, other: string, m: map<string, string>)
    requires Holds(d, field, more, e) && field != other
    ensures Holds(d, field, more, SetStrings(e, other, m))
  {
    var e' := SetStrings(e, other, m);
    forall k ensures DP.TextAt(e', ["metadata", field, k]) == DP.TextAt(e, ["metadata", field, k]) {
      SetAt(e, other, m, ["metadata", field, k]);
    }
    forall q: DP.Path | Within(q, field) && |q| > 2 ensures DP.Look(e', q) == DP.Look(e, q) {
      SetAt(e, other, m, q);
    }
  }

  lemma {:induction false} LabelledIsTagged(d: MP.Json, c: Contents)
    ensures Tagged(d, c.labels, c.annotations, Labelled(d, c))
  {
    var labels := GetStrings(d, "labels") + c.labels;
    var m := SetStrings(d, "labels", labels);
    var annotations := GetStrings(m, "annotations") + c.annotations;
    var e := SetStrings(m, "annotations", annotations);
    SetTags(d, "labels", c.labels);
    TagsKept(d, "labels", c.labels, m, "annotations", annotations);
    SetTags(m, "annotations", c.annotations);
    forall k ensures DP.TextAt(m, ["metadata", "annotations", k]) == DP.TextAt(d, ["metadata", "annotations", k]) {
      SetAt(d, "labels", labels, ["metadata", "annotations", k]);
    }
    forall q: DP.Path | q != [] && q != ["metadata"] && !Within(q, "labels") && !Within(q, "annotations")
      ensures DP.Look(e, q) == DP.Look(d, q)
    {
      SetAt(d, "labels", labels, q);
      SetAt(m, "annotations", annotations, q);
    }
  }

  /** Decoding the patched document over the object, path by path. */
  lemma {:induction false} DecodedIsRetold(d: MP.Json, p: MP.Json, whole: set<string>)
    requires d.Obj? && p.Obj?
    ensures Retold(d, p, whole, Decoded(d, MP.Apply(d, p), whole))
  {
    var out := MP.Apply(d, p);
    var kept := Decoded(d, out, whole);
    forall q: DP.Path | q != []
      ensures DP.Look(kept, q) ==
        if q[0] in whole && q[0] in out.m then DP.Look(out, q) else DP.Look(MP.Combine(d, out), q)
      ensures q[0] in whole && q[0] in out.m && q[0] in p.m ==> p.m[q[0]] != MP.Null
      ensures q[0] in whole && q[0] !in out.m && q[0] in p.m && p.m[q[0]] != MP.Null ==> false
    {
      if q[0] in d.m && q[0] in out.m && q[0] !in whole {
        assert kept.m[q[0]] == MP.Combine(d, out).m[q[0]];
      }
    }
    forall q: DP.Path | q != []
      ensures
        match DP.Says(p, q)
        case Sets(v) => DP.Look(kept, q) == Some(v)
        case Opens => DP.IsObject(DP.Look(kept, q))
        case Cuts => DP.Look(kept, q) == None
        case Silent => DP.Look(kept, q) == DP.Look(d, q)
        case Drops =>
          DP.Look(kept, q) == if q[0] in whole && q[0] in p.m && p.m[q[0]] != MP.Null then None else DP.Look(d, q)
    {
      DP.ApplyAt(d, p, q);
      DP.OverlayLook(d, p, q);
    }
  }

  /** What `Apply` makes of the object, path by path. */
  lemma {:induction false} PatchedIsRewritten(d: MP.Json, c: Contents, whole: set<string>)
    ensures Rewritten(d, c, whole, Patched(d, c, whole))
  {
    var m := Labelled(d, c);
    LabelledIsTagged(d, c);
    if c.mergePatch.Doc? && c.mergePatch.json.Obj? {
      DecodedIsRetold(m, c.mergePatch.json, whole);
    }
    assert Tagged(d, c.labels, c.annotations, m);
  }

  /** `mergeMaps`: later maps win. */
  method MergeMaps(maps: seq<map<string, string>>) returns (r: map<string, string>)
    ensures forall k :: k in r <==> exists i :: 0 <= i < |maps| && k in maps[i]
    ensures forall k, i :: 0 <= i < |maps| && k in maps[i] && (forall j :: i < j < |maps| ==> k !in maps[j]) ==>
      k in r && r[k] == maps[i][k]
  {
    r := map[];
    for n := 0 to |maps|
      invariant forall k :: k in r <==> exists i :: 0 <= i < n && k in maps[i]
      invariant forall k, i :: 0 <= i < n && k in maps[i] && (forall j :: i < j < n ==> k !in maps[j]) ==>
        k in r && r[k] == maps[i][k]
    {
      var before := r;
      var todo := maps[n].Keys;
      while todo != {}
        invariant todo <= maps[n].Keys
        invariant forall k :: k in r <==> k in before || (k in maps[n] && k !in todo)
        invariant forall k :: k in r ==> r[k] == if k in maps[n] && k !in todo then maps[n][k] else before[k]
      {
        var k :| k in todo;
        r := r[k := maps[n][k]];
        todo := todo - {k};
      }
    }
  }

  class Object {
    /** The top-level fields whose types decode themselves: the spec of an Application, none of a Deployment. */
    const whole: set<string>
    var doc: MP.Json

    constructor (d: MP.Json, whole: set<string>)
      ensures doc == d && this.whole == whole
    {
      this.whole := whole;
      doc := d;
    }
  }

  class Changeset {
    var environment: seq<Write>
    var labels: map<string, string>
    var annotations: map<string, string>
    var envFrom: seq<EnvFromSource>
    var mergePatch: Patch
    var initContainers: seq<string>
    var sidecars: seq<string>

    function View(): Contents
      reads this
    {
      Contents(environment, labels, annotations, envFrom, mergePatch, initContainers, sidecars)
    }

    constructor ()
      ensures View() == FRESH
    {
      environment, labels, annotations, envFrom := [], map[], map[], [];
      mergePatch, initContainers, sidecars := Empty, [], [];
    }

    /** One response, taken in under the lock. */
    method Add(resp: Response) returns (ok: bool)
      modifies this
      ensures ok == Accepted(old(View()), resp)
      ensures !ok <==>
        || resp.Unset?
        || (resp.EnvFrom? && resp.typ != Secret && resp.typ != ConfigMap)
        || (resp.MergePatch? && !resp.patch.Empty? && !old(mergePatch).Empty? &&
            (resp.patch.Malformed? || old(mergePatch).Malformed?))
      ensures View() == After(old(View()), resp) && (!ok ==> View() == old(View()))
    {
      ok := true;
      match resp {
        case MergePatch(p) => ok := AddMergePatch(p);
        case Env(n, v) => environment := environment + [(n, v)];
        case Annotation(n, v) => annotations := annotations[n := v];
        case Label(n, v) => labels := labels[n := v];
        case EnvFrom(typ, n, o) =>
          match typ {
            case Secret => envFrom := envFrom + [SecretRef(n, o)];
            case ConfigMap => envFrom := envFrom + [ConfigMapRef(n, o)];
            case Unknown => ok := false;
          }
        case Container(s) => sidecars := sidecars + [s];
        case InitContainer(s) => initContainers := initContainers + [s];
        case Unset => ok := false;
      }
    }

    method AddMergePatch(patch: Patch) returns (ok: bool)
      modifies this
      ensures ok == PatchAccepted(old(mergePatch), patch)
      ensures View() == old(View()).(mergePatch := PatchAfter(old(mergePatch), patch))
    {
      if patch.Empty? {
        return true;
      }
      if mergePatch.Empty? {
        mergePatch := patch;
        return true;
      }
      if mergePatch.Malformed? || patch.Malformed? {
        return false;
      }
      mergePatch := Doc(MP.Combine(mergePatch.json, patch.json));
      ok := true;
    }

    /** Only labels, annotations and the merge patch reach the object. */
    method Apply(v: Object) returns (ok: bool)
      modifies v
      ensures ok <==> mergePatch.Empty? || (mergePatch.Doc? && mergePatch.json.Obj?)
      ensures v.doc == Patched(old(v.doc), View(), v.whole)
      ensures Rewritten(old(v.doc), View(), v.whole, v.doc)
    {
      PatchedIsRewritten(v.doc, View(), v.whole);
      Tag(v);
      if mergePatch.Empty? {
        return true;
      }
      if mergePatch.Malformed? || !mergePatch.json.Obj? {
        return false;
      }
      v.doc := Decoded(v.doc, MP.Apply(v.doc, mergePatch.json), v.whole);
      ok := true;
    }

    /** Labels and annotations are merged into those of the object. */
    method Tag(v: Object)
      modifies v
      ensures v.doc == Labelled(old(v.doc), View())
    {
      var merged := MergeMaps([GetStrings(v.doc, "labels"), labels]);
      MergedPair(GetStrings(v.doc, "labels"), labels, merged);
      v.doc := SetStrings(v.doc, "labels", merged);
      merged := MergeMaps([GetStrings(v.doc, "annotations"), annotations]);
      MergedPair(GetStrings(v.doc, "annotations"), annotations, merged);
      v.doc := SetStrings(v.doc, "annotations", merged);
    }
  }

  lemma MergedPair(a: map<string, string>, b: map<string, string>, r: map<string, string>)
    requires forall k :: k in r <==> exists i :: 0 <= i < |[a, b]| && k in [a, b][i]
    requires
      forall k, i ::
        0 <= i < |[a, b]| && k in [a, b][i] && (forall j :: i < j < |[a, b]| ==> k !in [a, b][j]) ==>
          k in r && r[k] == [a, b][i][k]
    ensures r == a + b
  {
    assert [a, b][0] == a && [a, b][1] == b;
    forall k ensures (k in r <==> k in a + b) && (k in r ==> r[k] == (a + b)[k]) {
      if k in b { assert k in [a, b][1]; } else if k in a { assert k in [a, b][0]; }
    }
    assert r.Keys == (a + b).Keys;
  }

  // ---------------------------------------------------------------- whole response sequences

  function Feed(rs: seq<Response>): Contents {
    if rs == [] then FRESH else After(Feed(rs[..|rs| - 1]), rs[|rs| - 1])
  }

  function EnvOf(r: Response): Option<Write> { if r.Env? then Some((r.name, r.value)) else None }
  function LabelOf(r: Response): Option<Write> { if r.Label? then Some((r.name, r.value)) else None }
  function AnnotationOf(r: Response): Option<Write> { if r.Annotation? then Some((r.name, r.value)) else None }
  function SidecarOf(r: Response): Option<string> { if r.Container? then Some(r.spec) else None }
  function InitContainerOf(r: Response): Option<string> { if r.InitContainer? then Some(r.spec) else None }
  function DocOf(r: Response): Option<MP.Json> {
    if r.MergePatch? && r.patch.Doc? then Some(r.patch.json) else None
  }
  function EnvFromOf(r: Response): Option<EnvFromSource> {
    match r
    case EnvFrom(Secret, n, o) => Some(SecretRef(n, o))
    case EnvFrom(ConfigMap, n, o) => Some(ConfigMapRef(n, o))
    case _ => None
  }

  /** Every field of the changeset is the arrivals of its kind, in arrival order. */
  lemma {:induction false} FeedCollects(rs: seq<Response>)
    ensures Feed(rs).environment == Select(EnvOf, rs)
    ensures Feed(rs).envFrom == Select(EnvFromOf, rs)
    ensures Feed(rs).sidecars == Select(SidecarOf, rs)
    ensures Feed(rs).initContainers == Select(InitContainerOf, rs)
    ensures Feed(rs).labels == Assign(Select(LabelOf, rs))
    ensures Feed(rs).annotations == Assign(Select(AnnotationOf, rs))
  {
    FeedCollectsEnv(rs);
    FeedCollectsSidecars(rs);
    FeedCollectsInitContainers(rs);
    FeedCollectsLabels(rs);
    FeedCollectsAnnotations(rs);
  }

  lemma {:induction false} FeedCollectsEnv(rs: seq<Response>)
    ensures Feed(rs).environment == Select(EnvOf, rs)
    ensures Feed(rs).envFrom == Select(EnvFromOf, rs)
  {
    if rs != [] {
      FeedCollectsEnv(rs[..|rs| - 1]);
    }
  }

  lemma {:induction false} FeedCollectsSidecars(rs: seq<Response>)
    ensures Feed(rs).sidecars == Select(SidecarOf, rs)
  {
    if rs != [] {
      FeedCollectsSidecars(rs[..|rs| - 1]);
    }
  }

  lemma {:induction false} FeedCollectsInitContainers(rs: seq<Response>)
    ensures Feed(rs).initContainers == Select(InitContainerOf, rs)
  {
    if rs != [] {
      FeedCollectsInitContainers(rs[..|rs| - 1]);
    }
  }

  lemma {:induction false} FeedCollectsLabels(rs: seq<Response>)
    ensures Feed(rs).labels == Assign(Select(LabelOf, rs))
  {
    if rs != [] {
      var n := |rs| - 1;
      FeedCollectsLabels(rs[..n]);
      if rs[n].Label? {
        AssignAppend(Select(LabelOf, rs[..n]), (rs[n].name, rs[n].value));
      } else {
        assert Select(LabelOf, rs) == Select(LabelOf, rs[..n]);
      }
    }
  }

  lemma {:induction false} FeedCollectsAnnotations(rs: seq<Response>)
    ensures Feed(rs).annotations == Assign(Select(AnnotationOf, rs))
  {
    if rs != [] {
      var n := |rs| - 1;
      FeedCollectsAnnotations(rs[..n]);
      if rs[n].Annotation? {
        AssignAppend(Select(AnnotationOf, rs[..n]), (rs[n].name, rs[n].value));
      } else {
        assert Select(AnnotationOf, rs) == Select(AnnotationOf, rs[..n]);
      }
    }
  }

  lemma AssignAppend(s: seq<Write>, w: Write)
    ensures Assign(s + [w]) == Assign(s)[w.0 := w.1]
  {
    assert (s + [w])[..|s|] == s;
  }

  function PatchFold(docs: seq<MP.Json>): Patch {
    if docs == [] then Empty else Doc(MP.Fold(docs))
  }

  /** With only well-formed patches, the patch held is the fold of those that arrived. */
  lemma {:induction false} FeedFoldsPatches(rs: seq<Response>)
    requires forall r :: r in rs && r.MergePatch? ==> !r.patch.Malformed?
    ensures Feed(rs).mergePatch == PatchFold(Select(DocOf, rs))
  {
    if rs != [] {
      var n := |rs| - 1;
      FeedFoldsPatches(rs[..n]);
      var docs := Select(DocOf, rs[..n]);
      if DocOf(rs[n]).Some? {
        assert (docs + [rs[n].patch.json])[..|docs|] == docs;
      } else {
        assert docs + [] == docs;
      }
    }
  }

  function PerStream<U>(f: Response -> Option<U>, streams: seq<seq<Response>>): seq<seq<U>> {
    seq(|streams|, i requires 0 <= i < |streams| => Select(f, streams[i]))
  }

  /** However the extensions' responses interleave, every list is an order-preserving merge of theirs. */
  lemma {:induction false} ListsInterleave(rs: seq<Response>, streams: seq<seq<Response>>)
    requires IsInterleaving(rs, streams)
    ensures IsInterleaving(Feed(rs).environment, PerStream(EnvOf, streams))
    ensures IsInterleaving(Feed(rs).envFrom, PerStream(EnvFromOf, streams))
    ensures IsInterleaving(Feed(rs).sidecars, PerStream(SidecarOf, streams))
    ensures IsInterleaving(Feed(rs).initContainers, PerStream(InitContainerOf, streams))
  {
    FeedCollects(rs);
    SelectionInterleaves(EnvOf, rs, streams);
    SelectionInterleaves(EnvFromOf, rs, streams);
    SelectionInterleaves(SidecarOf, rs, streams);
    SelectionInterleaves(InitContainerOf, rs, streams);
  }

  // ---------------------------------------------------------------- when the maps do not depend on the schedule

  ghost predicate MapsIndependent(streams: seq<seq<Response>>) {
    forall rs, ts :: IsInterleaving(rs, streams) && IsInterleaving(ts, streams) ==>
      Feed(rs).labels == Feed(ts).labels && Feed(rs).annotations == Feed(ts).annotations
  }

  lemma {:induction false} SelectConcat<U>(f: Response -> Option<U>, s: seq<Response>, t: seq<Response>)
    ensures Select(f, s + t) == Select(f, s) + Select(f, t)
    decreases |t|
  {
    if t == [] {
      assert s + t == s;
    } else {
      var n := |t| - 1;
      assert (s + t)[..|s + t| - 1] == s + t[..n];
      SelectConcat(f, s, t[..n]);
    }
  }

  /** If stream `i` writes `k` at all, some schedule ends with its value. */
  lemma {:induction false} WriterCanWin(f: Response -> Option<Write>, streams: seq<seq<Response>>, i: nat, k: string)
      returns (rs: seq<Response>)
    requires i < |streams| && LastWrite(Select(f, streams[i]), k).Some?
    ensures IsInterleaving(rs, streams)
    ensures LastWrite(Select(f, rs), k) == LastWrite(Select(f, streams[i]), k)
  {
    var front := CanComeLast(streams, i);
    rs := front + streams[i];
    SelectConcat(f, front, streams[i]);
    LastWriteOfConcat(Select(f, front), Select(f, streams[i]), k);
  }

  /**
   * Labels and annotations come out the same under every interleaving exactly when extensions that
   * write the same key end on the same value for it; writing disjoint keys is the common case.
   */
  lemma {:induction false} MapsIndependentIff(streams: seq<seq<Response>>)
    ensures MapsIndependent(streams) <==>
      forall k :: AgreeOn(PerStream(LabelOf, streams), k) && AgreeOn(PerStream(AnnotationOf, streams), k)
  {
    if forall k :: AgreeOn(PerStream(LabelOf, streams), k) && AgreeOn(PerStream(AnnotationOf, streams), k) {
      forall rs, ts | IsInterleaving(rs, streams) && IsInterleaving(ts, streams)
        ensures Feed(rs).labels == Feed(ts).labels && Feed(rs).annotations == Feed(ts).annotations
      {
        SameMap(LabelOf, rs, ts, streams);
        SameMap(AnnotationOf, rs, ts, streams);
        FeedCollects(rs);
        FeedCollects(ts);
      }
    }
    if MapsIndependent(streams) {
      forall k ensures AgreeOn(PerStream(LabelOf, streams), k) && AgreeOn(PerStream(AnnotationOf, streams), k) {
        forall i, j | 0 <= i < |streams| && 0 <= j < |streams|
          ensures WinnersAgree(LabelOf, streams, i, j, k) && WinnersAgree(AnnotationOf, streams, i, j, k)
        {
          IndependentWinners(streams, i, j, k);
        }
        AgreeByWinners(LabelOf, streams, k);
        AgreeByWinners(AnnotationOf, streams, k);
      }
    }
  }

  lemma {:induction false} AgreeByWinners(f: Response -> Option<Write>, streams: seq<seq<Response>>, k: string)
    requires forall i, j :: 0 <= i < |streams| && 0 <= j < |streams| ==> WinnersAgree(f, streams, i, j, k)
    ensures AgreeOn(PerStream(f, streams), k)
  {
    var parts := PerStream(f, streams);
    forall i, j | 0 <= i < |parts| && 0 <= j < |parts| && LastWrite(parts[i], k).Some? && LastWrite(parts[j], k).Some?
      ensures LastWrite(parts[i], k) == LastWrite(parts[j], k)
    {
      assert WinnersAgree(f, streams, i, j, k);
    }
  }

  lemma {:induction false} SameMap(f: Response -> Option<Write>, rs: seq<Response>, ts: seq<Response>,
                                   streams: seq<seq<Response>>)
    requires IsInterleaving(rs, streams) && IsInterleaving(ts, streams)
    requires forall k :: AgreeOn(PerStream(f, streams), k)
    ensures Assign(Select(f, rs)) == Assign(Select(f, ts))
  {
    SelectionInterleaves(f, rs, streams);
    SelectionInterleaves(f, ts, streams);
    AgreeingSchedules(Select(f, rs), Select(f, ts), PerStream(f, streams));
  }

  predicate WinnersAgree(f: Response -> Option<Write>, streams: seq<seq<Response>>, i: nat, j: nat, k: string)
    requires i < |streams| && j < |streams|
  {
    var a, b := LastWrite(Select(f, streams[i]), k), LastWrite(Select(f, streams[j]), k);
    a.Some? && b.Some? ==> a == b
  }

  lemma {:induction false} IndependentWinners(streams: seq<seq<Response>>, i: nat, j: nat, k: string)
    requires MapsIndependent(streams) && i < |streams| && j < |streams|
    ensures WinnersAgree(LabelOf, streams, i, j, k) && WinnersAgree(AnnotationOf, streams, i, j, k)
  {
    if LastWrite(Select(LabelOf, streams[i]), k).Some? && LastWrite(Select(LabelOf, streams[j]), k).Some? {
      var rs := WriterCanWin(LabelOf, streams, i, k);
      var ts := WriterCanWin(LabelOf, streams, j, k);
      FeedCollects(rs);
      FeedCollects(ts);
      AssignIsLastWrite(Select(LabelOf, rs), k);
      AssignIsLastWrite(Select(LabelOf, ts), k);
    }
    if LastWrite(Select(AnnotationOf, streams[i]), k).Some? && LastWrite(Select(AnnotationOf, streams[j]), k).Some? {
      var rs := WriterCanWin(AnnotationOf, streams, i, k);
      var ts := WriterCanWin(AnnotationOf, streams, j, k);
      FeedCollects(rs);
      FeedCollects(ts);
      AssignIsLastWrite(Select(AnnotationOf, rs), k);
      AssignIsLastWrite(Select(AnnotationOf, ts), k);
    }
  }

  // ---------------------------------------------------------------- the defaulting webhook

  function Docs(ps: seq<Patch>): seq<MP.Json> {
    if ps == [] then []
    else
      var front, last := Docs(ps[..|ps| - 1]), ps[|ps| - 1];
      if last.Doc? then front + [last.json] else front
  }

  /** Folding keeps the kind of the last patch. */
  lemma {:induction false} FoldKind(docs: seq<MP.Json>)
    requires docs != []
    ensures MP.Fold(docs).Obj? <==> docs[|docs| - 1].Obj?
  {
  }

  /**
   * Defaulting folds the extensions' patches into one and applies it. It succeeds unless a patch is
   * malformed or the last one is not an object. When the list puts no object in place outright, the
   * object ends up as if the document had been patched with each in turn and then decoded.
   */
  method Default(v: Object, defaults: seq<Patch>) returns (ok: bool)
    modifies v
    ensures
      var docs := Docs(defaults);
      ok <==> Malformed !in defaults && (docs == [] || docs[|docs| - 1].Obj?)
    ensures ok ==> v.doc == Patched(old(v.doc), FRESH.(mergePatch := PatchFold(Docs(defaults))), v.whole)
    ensures ok ==> Rewritten(old(v.doc), FRESH.(mergePatch := PatchFold(Docs(defaults))), v.whole, v.doc)
    ensures
      var docs, d := Docs(defaults), Labelled(old(v.doc), FRESH);
      ok && docs != [] && MP.Representable(MP.EffectAll(docs)) ==>
        MP.ApplyAll(d, docs).Obj? && v.doc == Decoded(d, MP.ApplyAll(d, docs), v.whole)
    ensures !ok ==> v.doc == old(v.doc) || v.doc == Labelled(old(v.doc), FRESH)
  {
    var changeset, accepted := Collect(defaults);
    if !accepted {
      return false;
    }
    ok := changeset.Apply(v);
    ghost var docs := Docs(defaults);
    if docs != [] {
      FoldKind(docs);
      if MP.Representable(MP.EffectAll(docs)) {
        MP.FoldCorrectIff(docs);
        assert MP.ActsAsAll(MP.Fold(docs), docs);
      }
    }
  }

  /** The extensions' patches in one changeset, unless one is refused. */
  method Collect(defaults: seq<Patch>) returns (changeset: Changeset, ok: bool)
    ensures fresh(changeset) && changeset.View() == FRESH.(mergePatch := changeset.mergePatch)
    ensures ok && Malformed !in defaults ==> changeset.mergePatch == PatchFold(Docs(defaults))
    ensures ok && Malformed in defaults ==> changeset.mergePatch.Malformed?
    ensures !ok ==> Malformed in defaults
  {
    changeset := new Changeset();
    for n := 0 to |defaults|
      invariant fresh(changeset) && changeset.View() == FRESH.(mergePatch := changeset.mergePatch)
      invariant Malformed !in defaults[..n] ==> changeset.mergePatch == PatchFold(Docs(defaults[..n]))
      invariant Malformed in defaults[..n] ==> changeset.mergePatch.Malformed?
    {
      assert defaults[..n + 1] == defaults[..n] + [defaults[n]];
      assert defaults[..n + 1][..n] == defaults[..n];
      ghost var docs := Docs(defaults[..n]);
      if defaults[n].Doc? { assert (docs + [defaults[n].json])[..|docs|] == docs; }
      ok := changeset.AddMergePatch(defaults[n]);
      if !ok {
        return;
      }
    }
    assert defaults[..|defaults|] == defaults;
    ok := true;
  }
}
