/** When the patch folded from several streams does not depend on how their responses interleave. */
module PatchSchedules {
  import opened Collections
  import opened Interleavings
  import opened Changesets
  import MP = MergePatch

  // ---------------------------------------------------------------- moving a patch to the end

  /** The patch at `q` settles with every later one. */
  predicate SettlesAfter(docs: seq<MP.Json>, q: nat)
    requires q < |docs|
  {
    forall k :: q < k < |docs| ==> MP.Settles(docs[q], docs[k])
  }

  function Without<T>(s: seq<T>, q: nat): seq<T>
    requires q < |s|
  {
    s[..q] + s[q + 1..]
  }

  lemma SwapLast(rest: seq<MP.Json>, x: MP.Json, y: MP.Json)
    requires MP.Settles(x, y)
    ensures MP.Fold(rest + [x] + [y]) == MP.Fold(rest + [y] + [x])
  {
    FoldAppend(rest, x);
    FoldAppend(rest, y);
    FoldAppend(rest + [x], y);
    FoldAppend(rest + [y], x);
    if rest == [] {
      MP.CommuteIff(x, y);
    } else {
      MP.SwapIff(MP.Fold(rest), x, y);
    }
  }

  lemma {:induction false} FoldMoves(docs: seq<MP.Json>, q: nat)
    requires q < |docs| && SettlesAfter(docs, q)
    ensures MP.Fold(docs) == MP.Fold(Without(docs, q) + [docs[q]])
    decreases |docs|
  {
    var n, x := |docs| - 1, docs[q];
    if q == n {
      assert Without(docs, q) + [x] == docs;
    } else {
      var front, y := docs[..n], docs[n];
      var rest := Without(front, q);
      FoldMoves(front, q);
      assert Without(docs, q) == rest + [y] && docs == front + [y];
      FoldAppend(front, y);
      FoldAppend(rest + [x], y);
      SwapLast(rest, x, y);
    }
  }

  lemma FoldAppend(docs: seq<MP.Json>, x: MP.Json)
    ensures MP.Fold(docs + [x]) == if docs == [] then x else MP.Combine(MP.Fold(docs), x)
  {
    assert (docs + [x])[..|docs|] == docs;
  }

  // ---------------------------------------------------------------- one stream's last element out of an interleaving

  /** What a stream has, its last element is the last of in any interleaving. */
  lemma {:induction false} LastOf<T>(s: seq<T>, tags: seq<nat>, i: nat) returns (q: nat)
    requires |s| == |tags| && Pick(s, tags, i) != []
    ensures q < |s| && tags[q] == i && forall j :: q < j < |tags| ==> tags[j] != i
  {
    var n := |s| - 1;
    if tags[n] == i {
      q := n;
    } else {
      q := LastOf(s[..n], tags[..n], i);
    }
  }

  lemma PickMore<T>(s: seq<T>, tags: seq<nat>, x: T, tag: nat, i: nat)
    requires |s| == |tags|
    ensures Pick(s + [x], tags + [tag], i) == Pick(s, tags, i) + if tag == i then [x] else []
  {
    assert (s + [x])[..|s|] == s && (tags + [tag])[..|tags|] == tags;
  }

  lemma {:induction false} PickWithout<T>(s: seq<T>, tags: seq<nat>, q: nat, i: nat)
    requires |s| == |tags| && q < |s| && forall j :: q < j < |tags| ==> tags[j] != tags[q]
    ensures Pick(s, tags, i) == Pick(Without(s, q), Without(tags, q), i) + if tags[q] == i then [s[q]] else []
  {
    var n := |s| - 1;
    if q == n {
      assert Without(s, q) == s[..n] && Without(tags, q) == tags[..n];
    } else {
      PickWithout(s[..n], tags[..n], q, i);
      PickMore(Without(s[..n], q), Without(tags[..n], q), s[n], tags[n], i);
      assert Without(s, q) == Without(s[..n], q) + [s[n]];
      assert Without(tags, q) == Without(tags[..n], q) + [tags[n]];
    }
  }

  /** Taking the last element of a stream out leaves an interleaving of the shorter streams. */
  lemma {:induction false} MergesWithout<T>(s: seq<T>, tags: seq<nat>, streams: seq<seq<T>>, q: nat)
    requires Merges(s, tags, streams) && q < |s| && forall j :: q < j < |tags| ==> tags[j] != tags[q]
    ensures
      var own := streams[tags[q]];
      && own != [] && s[q] == own[|own| - 1]
      && Merges(Without(s, q), Without(tags, q), streams[tags[q] := own[..|own| - 1]])
  {
    forall i | 0 <= i < |streams|
      ensures streams[i] == Pick(Without(s, q), Without(tags, q), i) + if tags[q] == i then [s[q]] else []
    {
      PickWithout(s, tags, q, i);
    }
  }

  // ---------------------------------------------------------------- streams whose patches settle

  /** Patches of different streams settle. */
  predicate Settled(docs: seq<seq<MP.Json>>) {
    forall i, j, k, l :: 0 <= i < |docs| && 0 <= j < |docs| && i != j && 0 <= k < |docs[i]| && 0 <= l < |docs[j]| ==>
      MP.Settles(docs[i][k], docs[j][l])
  }

  lemma {:induction false} PickMember<T>(s: seq<T>, tags: seq<nat>, k: nat) returns (l: nat)
    requires |s| == |tags| && k < |s|
    ensures l < |Pick(s, tags, tags[k])| && Pick(s, tags, tags[k])[l] == s[k]
  {
    var n := |s| - 1;
    if k == n {
      l := |Pick(s[..n], tags[..n], tags[n])|;
    } else {
      l := PickMember(s[..n], tags[..n], k);
    }
  }

  /** Any two interleavings of settled streams fold to the same patch. */
  lemma {:induction false} SettledFold(
      docs: seq<seq<MP.Json>>, s: seq<MP.Json>, ss: seq<nat>, t: seq<MP.Json>, ts: seq<nat>)
    requires Settled(docs) && Merges(s, ss, docs) && Merges(t, ts, docs)
    ensures PatchFold(s) == PatchFold(t)
    decreases |t|
  {
    if t == [] {
      NothingInterleaved(docs, s, ss, ts);
    } else {
      var n := |t| - 1;
      var i := ts[n];
      var e := PickMember(t, ts, n);
      var q := LastOf(s, ss, i);
      MergesWithout(s, ss, docs, q);
      MergesWithout(t, ts, docs, n);
      ShorterSettled(docs, i);
      SettledFold(docs[i := docs[i][..|docs[i]| - 1]], Without(s, q), Without(ss, q), Without(t, n), Without(ts, n));
      LaterSettle(docs, s, ss, q);
      FoldEnds(s, q);
      FoldEnds(t, n);
    }
  }

  lemma {:induction false} NothingInterleaved(docs: seq<seq<MP.Json>>, s: seq<MP.Json>, ss: seq<nat>, ts: seq<nat>)
    requires Merges(s, ss, docs) && Merges([], ts, docs)
    ensures s == []
  {
    forall i | 0 <= i < |docs| ensures docs[i] == [] { assert Pick<MP.Json>([], ts, i) == []; }
    if s != [] {
      var l := PickMember(s, ss, 0);
    }
  }

  /** With the patch at `q` moved to the end. */
  lemma FoldEnds(s: seq<MP.Json>, q: nat)
    requires q < |s| && SettlesAfter(s, q)
    ensures
      var rest := Without(s, q);
      PatchFold(s) == Doc(if rest == [] then s[q] else MP.Combine(MP.Fold(rest), s[q]))
  {
    FoldMoves(s, q);
    FoldAppend(Without(s, q), s[q]);
  }

  lemma {:induction false} LaterSettle(docs: seq<seq<MP.Json>>, s: seq<MP.Json>, ss: seq<nat>, q: nat)
    requires Settled(docs) && Merges(s, ss, docs) && q < |s| && forall j :: q < j < |ss| ==> ss[j] != ss[q]
    ensures SettlesAfter(s, q)
  {
    forall k | q < k < |s| ensures MP.Settles(s[q], s[k]) {
      var a := PickMember(s, ss, q);
      var b := PickMember(s, ss, k);
      assert docs[ss[q]][a] == s[q] && docs[ss[k]][b] == s[k];
    }
  }

  lemma ShorterSettled(docs: seq<seq<MP.Json>>, i: nat)
    requires Settled(docs) && i < |docs| && docs[i] != []
    ensures Settled(docs[i := docs[i][..|docs[i]| - 1]])
  {
  }

  // ---------------------------------------------------------------- response streams

  ghost predicate PatchIndependent(streams: seq<seq<Response>>) {
    forall rs, ts :: IsInterleaving(rs, streams) && IsInterleaving(ts, streams) ==>
      Feed(rs).mergePatch == Feed(ts).mergePatch
  }

  predicate WellFormed(rs: seq<Response>) {
    forall r :: r in rs && r.MergePatch? ==> !r.patch.Malformed?
  }

  /** Streams of well-formed patches fold to the same one under every schedule if they settle. */
  lemma {:induction false} SettledIndependent(streams: seq<seq<Response>>)
    requires (forall i :: 0 <= i < |streams| ==> WellFormed(streams[i])) && Settled(PerStream(DocOf, streams))
    ensures PatchIndependent(streams)
  {
    forall rs, ts | IsInterleaving(rs, streams) && IsInterleaving(ts, streams)
      ensures Feed(rs).mergePatch == Feed(ts).mergePatch
    {
      InterleavedWellFormed(rs, streams);
      InterleavedWellFormed(ts, streams);
      FeedFoldsPatches(rs);
      FeedFoldsPatches(ts);
      SelectionInterleaves(DocOf, rs, streams);
      SelectionInterleaves(DocOf, ts, streams);
      var docs := PerStream(DocOf, streams);
      var ss :| Merges(Select(DocOf, rs), ss, docs);
      var us :| Merges(Select(DocOf, ts), us, docs);
      SettledFold(docs, Select(DocOf, rs), ss, Select(DocOf, ts), us);
    }
  }

  lemma {:induction false} InterleavedWellFormed(rs: seq<Response>, streams: seq<seq<Response>>)
    requires IsInterleaving(rs, streams) && forall i :: 0 <= i < |streams| ==> WellFormed(streams[i])
    ensures WellFormed(rs)
  {
    var tags :| Merges(rs, tags, streams);
    forall k | 0 <= k < |rs| && rs[k].MergePatch? ensures !rs[k].patch.Malformed? {
      var l := PickMember(rs, tags, k);
      assert streams[tags[k]][l] in streams[tags[k]];
    }
  }

  /** The stream that was left out comes last. */
  lemma {:induction false} AddLast<T>(s: seq<T>, streams: seq<seq<T>>, j: nat)
    requires j < |streams| && IsInterleaving(s, streams[j := []])
    ensures IsInterleaving(s + streams[j], streams)
  {
    var tags :| Merges(s, tags, streams[j := []]);
    var more := Tagging(|streams[j]|, j);
    forall i | 0 <= i < |streams| ensures Pick(s + streams[j], tags + more, i) == streams[i] {
      PickPart(s, tags, streams[j], j, s + streams[j], tags + more, i);
    }
    assert Merges(s + streams[j], tags + more, streams);
  }

  /** Some schedule ends with stream `i` and then stream `j`. */
  lemma {:induction false} CanComeLastTwo<T>(streams: seq<seq<T>>, i: nat, j: nat) returns (front: seq<T>)
    requires i < |streams| && j < |streams| && i != j
    ensures IsInterleaving(front + streams[i] + streams[j], streams)
    ensures IsInterleaving(front + streams[j] + streams[i], streams)
  {
    var others := streams[i := []][j := []];
    front := CanComeLast(others, i);
    assert front + others[i] == front;
    assert others == streams[i := []][j := []] == streams[j := []][i := []];
    AddLast(front, streams[j := []], i);
    AddLast(front, streams[i := []], j);
    AddLast(front + streams[i], streams, j);
    AddLast(front + streams[j], streams, i);
  }

  /**
   * When every extension sends at most one patch, the folded patch is the same under every schedule
   * exactly when the patches of any two extensions settle.
   */
  lemma {:induction false} PatchIndependentIff(streams: seq<seq<Response>>)
    requires forall i :: 0 <= i < |streams| ==> WellFormed(streams[i]) && |Select(DocOf, streams[i])| <= 1
    ensures PatchIndependent(streams) <==> Settled(PerStream(DocOf, streams))
  {
    var docs := PerStream(DocOf, streams);
    if Settled(docs) {
      SettledIndependent(streams);
    }
    if PatchIndependent(streams) {
      forall i, j, k, l | 0 <= i < |docs| && 0 <= j < |docs| && i != j && 0 <= k < |docs[i]| && 0 <= l < |docs[j]|
        ensures MP.Settles(docs[i][k], docs[j][l])
      {
        IndependentPairSettles(streams, i, j);
      }
    }
  }

  lemma {:induction false} IndependentPairSettles(streams: seq<seq<Response>>, i: nat, j: nat)
    requires forall i :: 0 <= i < |streams| ==> WellFormed(streams[i])
    requires PatchIndependent(streams) && i < |streams| && j < |streams| && i != j
    requires |Select(DocOf, streams[i])| == 1 && |Select(DocOf, streams[j])| == 1
    ensures MP.Settles(Select(DocOf, streams[i])[0], Select(DocOf, streams[j])[0])
  {
    var front := CanComeLastTwo(streams, i, j);
    var f, a, b := Select(DocOf, front), Select(DocOf, streams[i])[0], Select(DocOf, streams[j])[0];
    EndsWithTwo(front, streams[i], streams[j], streams);
    EndsWithTwo(front, streams[j], streams[i], streams);
    if f == [] {
      MP.CommuteIff(a, b);
    } else {
      MP.SwapIff(MP.Fold(f), a, b);
    }
  }

  lemma {:induction false} EndsWithTwo(
      front: seq<Response>, s: seq<Response>, t: seq<Response>, streams: seq<seq<Response>>)
    requires IsInterleaving(front + s + t, streams) && forall i :: 0 <= i < |streams| ==> WellFormed(streams[i])
    requires |Select(DocOf, s)| == 1 && |Select(DocOf, t)| == 1
    ensures
      var f, a, b := Select(DocOf, front), Select(DocOf, s)[0], Select(DocOf, t)[0];
      Feed(front + s + t).mergePatch ==
        Doc(if f == [] then MP.Combine(a, b) else MP.Combine(MP.Combine(MP.Fold(f), a), b))
  {
    var f, a, b := Select(DocOf, front), Select(DocOf, s)[0], Select(DocOf, t)[0];
    InterleavedWellFormed(front + s + t, streams);
    FeedFoldsPatches(front + s + t);
    SelectConcat(DocOf, front, s);
    SelectConcat(DocOf, front + s, t);
    assert Select(DocOf, s) == [a] && Select(DocOf, t) == [b];
    FoldAppend(f, a);
    FoldAppend(f + [a], b);
  }
}
