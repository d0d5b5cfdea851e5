/** Order-preserving merges of several streams. */
module Interleavings {

  import opened Collections

  /** The elements of `s` that carry tag `i`, in order. */
  function Pick<T>(s: seq<T>, tags: seq<nat>, i: nat): seq<T>
    requires |s| == |tags|
  {
    if s == [] then []
    else
      var n := |s| - 1;
      Pick(s[..n], tags[..n], i) + (if tags[n] == i then [s[n]] else [])
  }

  /** `tags` says which stream each element of `s` came from. */
  ghost predicate Merges<T>(s: seq<T>, tags: seq<nat>, streams: seq<seq<T>>) {
    && |s| == |tags|
    && (forall j :: 0 <= j < |tags| ==> tags[j] < |streams|)
    && forall i :: 0 <= i < |streams| ==> Pick(s, tags, i) == streams[i]
  }

  /** `s` is some order-preserving merge of the streams, with nothing lost or invented. */
  ghost predicate IsInterleaving<T>(s: seq<T>, streams: seq<seq<T>>) {
    exists tags :: Merges(s, tags, streams)
  }

  /** What an accumulator fed with `s` collects when it keeps `f` of each element. */
  function Select<T, U>(f: T -> Option<U>, s: seq<T>): seq<U> {
    if s == [] then []
    else
      var n := |s| - 1;
      Select(f, s[..n]) + (if f(s[n]).Some? then [f(s[n]).value] else [])
  }

  function SelectTags<T, U>(f: T -> Option<U>, s: seq<T>, tags: seq<nat>): (r: seq<nat>)
    requires |s| == |tags|
    ensures |r| == |Select(f, s)|
  {
    if s == [] then []
    else
      var n := |s| - 1;
      SelectTags(f, s[..n], tags[..n]) + (if f(s[n]).Some? then [tags[n]] else [])
  }

  lemma {:induction false} SelectAppend<T, U>(f: T -> Option<U>, s: seq<T>, x: T)
    ensures Select(f, s + [x]) == Select(f, s) + (if f(x).Some? then [f(x).value] else [])
  {
    assert (s + [x])[..|s|] == s;
  }

  lemma {:induction false} PickAppend<T>(s: seq<T>, tags: seq<nat>, x: T, t: nat, i: nat)
    requires |s| == |tags|
    ensures Pick(s + [x], tags + [t], i) == Pick(s, tags, i) + (if t == i then [x] else [])
  {
    assert (s + [x])[..|s|] == s && (tags + [t])[..|s|] == tags;
  }

  lemma {:induction false} SelectPick<T, U>(f: T -> Option<U>, s: seq<T>, tags: seq<nat>, i: nat)
    requires |s| == |tags|
    ensures Pick(Select(f, s), SelectTags(f, s, tags), i) == Select(f, Pick(s, tags, i))
  {
    if s != [] {
      var n := |s| - 1;
      SelectPick(f, s[..n], tags[..n], i);
      if f(s[n]).Some? {
        PickAppend(Select(f, s[..n]), SelectTags(f, s[..n], tags[..n]), f(s[n]).value, tags[n], i);
      }
      if tags[n] == i {
        SelectAppend(f, Pick(s[..n], tags[..n], i), s[n]);
      }
      assert Select(f, s[..n]) + [] == Select(f, s[..n]);
      assert SelectTags(f, s[..n], tags[..n]) + [] == SelectTags(f, s[..n], tags[..n]);
      assert Pick(s[..n], tags[..n], i) + [] == Pick(s[..n], tags[..n], i);
    }
  }

  lemma {:induction false} SelectTagsBounded<T, U>(f: T -> Option<U>, s: seq<T>, tags: seq<nat>, bound: nat)
    requires |s| == |tags| && forall j :: 0 <= j < |tags| ==> tags[j] < bound
    ensures forall j :: 0 <= j < |SelectTags(f, s, tags)| ==> SelectTags(f, s, tags)[j] < bound
  {
    if s != [] {
      var n := |s| - 1;
      SelectTagsBounded(f, s[..n], tags[..n], bound);
    }
  }

  /** Keeping one kind of element of a merged stream merges that kind of the streams. */
  lemma {:induction false} SelectionInterleaves<T, U>(f: T -> Option<U>, s: seq<T>, streams: seq<seq<T>>)
    requires IsInterleaving(s, streams)
    ensures IsInterleaving(Select(f, s), seq(|streams|, i requires 0 <= i < |streams| => Select(f, streams[i])))
  {
    var tags :| Merges(s, tags, streams);
    var parts := seq(|streams|, i requires 0 <= i < |streams| => Select(f, streams[i]));
    SelectTagsBounded(f, s, tags, |streams|);
    forall i | 0 <= i < |parts| ensures Pick(Select(f, s), SelectTags(f, s, tags), i) == parts[i] {
      SelectPick(f, s, tags, i);
    }
    assert Merges(Select(f, s), SelectTags(f, s, tags), parts);
  }

  // ---------------------------------------------------------------- last writes

  /** One assignment to a string map: key and value. */
  type Write = (string, string)

  /** The last value `s` gives to key `k`. */
  function LastWrite(s: seq<Write>, k: string): Option<string> {
    if s == [] then None
    else if s[|s| - 1].0 == k then Some(s[|s| - 1].1)
    else LastWrite(s[..|s| - 1], k)
  }

  /** The map a fold of assignments builds. */
  function Assign(s: seq<Write>): map<string, string> {
    if s == [] then map[] else Assign(s[..|s| - 1])[s[|s| - 1].0 := s[|s| - 1].1]
  }

  lemma {:induction false} AssignIsLastWrite(s: seq<Write>, k: string)
    ensures k in Assign(s) <==> LastWrite(s, k).Some?
    ensures k in Assign(s) ==> Assign(s)[k] == LastWrite(s, k).value
  {
    if s != [] {
      AssignIsLastWrite(s[..|s| - 1], k);
    }
  }

  lemma {:induction false} LastWriteAppend(s: seq<Write>, x: Write, k: string)
    ensures LastWrite(s + [x], k) == if x.0 == k then Some(x.1) else LastWrite(s, k)
  {
    assert (s + [x])[..|s|] == s;
  }

  /** The last write to a key is the last write of one of the streams that write it. */
  lemma {:induction false} LastWriteHasWriter(s: seq<Write>, tags: seq<nat>, k: string) returns (i: nat)
    requires |s| == |tags| && LastWrite(s, k).Some?
    ensures exists j :: 0 <= j < |tags| && tags[j] == i
    ensures LastWrite(Pick(s, tags, i), k) == LastWrite(s, k)
  {
    var n := |s| - 1;
    LastWriteAppend(Pick(s[..n], tags[..n], tags[n]), s[n], k);
    if s[n].0 == k {
      i := tags[n];
    } else {
      i := LastWriteHasWriter(s[..n], tags[..n], k);
      var j :| 0 <= j < |tags[..n]| && tags[..n][j] == i;
      assert tags[j] == i;
      assert tags[n] != i ==> Pick(s, tags, i) == Pick(s[..n], tags[..n], i);
    }
  }

  lemma {:induction false} PickWrites(s: seq<Write>, tags: seq<nat>, k: string, i: nat)
    requires |s| == |tags| && LastWrite(Pick(s, tags, i), k).Some?
    ensures LastWrite(s, k).Some?
  {
    if s != [] {
      var n := |s| - 1;
      LastWriteAppend(Pick(s[..n], tags[..n], i), s[n], k);
      assert tags[n] != i ==> Pick(s, tags, i) == Pick(s[..n], tags[..n], i);
      if s[n].0 != k {
        PickWrites(s[..n], tags[..n], k, i);
      }
    }
  }

  /** All streams that write `k` end on the same value for it. */
  predicate AgreeOn(streams: seq<seq<Write>>, k: string) {
    forall i, j :: (0 <= i < |streams| && 0 <= j < |streams| &&
                    LastWrite(streams[i], k).Some? && LastWrite(streams[j], k).Some?) ==>
      LastWrite(streams[i], k) == LastWrite(streams[j], k)
  }

  lemma {:induction false} AgreedValue(s: seq<Write>, streams: seq<seq<Write>>, k: string, i: nat)
    requires IsInterleaving(s, streams) && AgreeOn(streams, k)
    requires i < |streams| && LastWrite(streams[i], k).Some?
    ensures LastWrite(s, k) == LastWrite(streams[i], k)
  {
    var tags :| Merges(s, tags, streams);
    PickWrites(s, tags, k, i);
    var w := LastWriteHasWriter(s, tags, k);
  }

  lemma {:induction false} SomeWriter(s: seq<Write>, streams: seq<seq<Write>>, k: string) returns (i: nat)
    requires IsInterleaving(s, streams) && LastWrite(s, k).Some?
    ensures i < |streams| && LastWrite(streams[i], k) == LastWrite(s, k)
  {
    var tags :| Merges(s, tags, streams);
    i := LastWriteHasWriter(s, tags, k);
  }

  function Tagging(n: nat, tag: nat): (r: seq<nat>)
    ensures |r| == n && forall j :: 0 <= j < n ==> r[j] == tag
  {
    seq(n, _ => tag)
  }

  /** The streams run one after the other. */
  function Concat<T>(streams: seq<seq<T>>, n: nat): seq<T>
    requires n <= |streams|
  {
    if n == 0 then [] else Concat(streams, n - 1) + streams[n - 1]
  }

  function ConcatTags<T>(streams: seq<seq<T>>, n: nat): (r: seq<nat>)
    requires n <= |streams|
    ensures |r| == |Concat(streams, n)|
    ensures forall j :: 0 <= j < |r| ==> r[j] < n
  {
    if n == 0 then [] else ConcatTags(streams, n - 1) + Tagging(|streams[n - 1]|, n - 1)
  }

  lemma {:induction false} PickConcat<T>(s: seq<T>, st: seq<nat>, t: seq<T>, tt: seq<nat>, i: nat)
    requires |s| == |st| && |t| == |tt|
    ensures Pick(s + t, st + tt, i) == Pick(s, st, i) + Pick(t, tt, i)
    decreases |t|
  {
    if t == [] {
      assert s + t == s && st + tt == st;
    } else {
      var n := |t| - 1;
      assert (s + t)[..|s + t| - 1] == s + t[..n] && (st + tt)[..|s + t| - 1] == st + tt[..n];
      PickConcat(s, st, t[..n], tt[..n], i);
    }
  }

  lemma {:induction false} PickUniform<T>(t: seq<T>, tt: seq<nat>, tag: nat, i: nat)
    requires |t| == |tt| && forall j :: 0 <= j < |tt| ==> tt[j] == tag
    ensures Pick(t, tt, i) == if i == tag then t else []
  {
    if t != [] {
      var n := |t| - 1;
      PickUniform(t[..n], tt[..n], tag, i);
      assert t == t[..n] + [t[n]];
    }
  }

  /** Appending elements of one stream adds them to that stream's share alone. */
  lemma PickPart<T>(s: seq<T>, st: seq<nat>, t: seq<T>, tag: nat, joined: seq<T>, tags: seq<nat>, i: nat)
    requires |s| == |st| && joined == s + t && tags == st + Tagging(|t|, tag)
    ensures i == tag ==> Pick(joined, tags, i) == Pick(s, st, i) + t
    ensures i != tag ==> Pick(joined, tags, i) == Pick(s, st, i)
  {
    PickConcat(s, st, t, Tagging(|t|, tag), i);
    PickUniform(t, Tagging(|t|, tag), tag, i);
  }

  lemma {:induction false} ConcatPicks<T>(streams: seq<seq<T>>, n: nat, i: nat, s: seq<T>, tags: seq<nat>)
    requires n <= |streams| && s == Concat(streams, n) && tags == ConcatTags(streams, n)
    ensures Pick(s, tags, i) == if i < n then streams[i] else []
  {
    if n > 0 {
      var s', tags' := Concat(streams, n - 1), ConcatTags(streams, n - 1);
      ConcatPicks(streams, n - 1, i, s', tags');
      PickPart(s', tags', streams[n - 1], n - 1, s, tags, i);
    }
  }

  lemma {:induction false} CanComeLast<T>(streams: seq<seq<T>>, last: nat) returns (front: seq<T>)
    requires last < |streams|
    ensures IsInterleaving(front + streams[last], streams)
  {
    var n, others := |streams|, streams[last := []];
    front := Concat(others, n);
    var frontTags, tags := ConcatTags(others, n), Tagging(|streams[last]|, last);
    forall i | 0 <= i < n ensures Pick(front + streams[last], frontTags + tags, i) == streams[i] {
      ConcatPicks(others, n, i, front, frontTags);
      PickPart(front, frontTags, streams[last], last, front + streams[last], frontTags + tags, i);
    }
    assert Merges(front + streams[last], frontTags + tags, streams);
  }

  lemma {:induction false} LastWriteOfConcat(s: seq<Write>, t: seq<Write>, k: string)
    requires LastWrite(t, k).Some?
    ensures LastWrite(s + t, k) == LastWrite(t, k)
    decreases |t|
  {
    var n := |t| - 1;
    assert (s + t)[..|s + t| - 1] == s + t[..n];
    if t[n].0 != k {
      LastWriteOfConcat(s, t[..n], k);
    }
  }

  /** Streams that agree on every key assign the same map under every schedule. */
  lemma {:induction false} AgreeingSchedules(s: seq<Write>, t: seq<Write>, streams: seq<seq<Write>>)
    requires IsInterleaving(s, streams) && IsInterleaving(t, streams) && forall k :: AgreeOn(streams, k)
    ensures Assign(s) == Assign(t)
  {
    forall k ensures LastWrite(s, k) == LastWrite(t, k) {
      if LastWrite(s, k).Some? {
        var i := SomeWriter(s, streams, k);
        AgreedValue(t, streams, k, i);
      } else if LastWrite(t, k).Some? {
        var i := SomeWriter(t, streams, k);
        AgreedValue(s, streams, k, i);
      }
    }
    forall k ensures (k in Assign(s) <==> k in Assign(t)) && (k in Assign(s) ==> Assign(s)[k] == Assign(t)[k]) {
      AssignIsLastWrite(s, k);
      AssignIsLastWrite(t, k);
    }
    assert Assign(s).Keys == Assign(t).Keys;
  }
}
