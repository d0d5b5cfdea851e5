/** What slugs, trimmed names and weights are, character by character. */
module DocsSlugs {
  import opened Collections
  import opened DocsNames

  // ---------------------------------------------------------------- slugs

  /** Letters, digits and underscores. */
  predicate Survives(c: char) {
    'a' <= c <= 'z' || 'A' <= c <= 'Z' || '0' <= c <= '9' || c == '_'
  }

  predicate IsLowerOf(l: char, c: char) {
    l as int == if 'A' <= c <= 'Z' then c as int + 32 else c as int
  }

  /** The slug before lower case. */
  function Raw(s: string): string {
    Collapsed(Dashed(s))
  }

  lemma {:induction false} RawMore(s: string, c: char)
    ensures Raw(s + [c]) ==
      if Survives(c) then Raw(s) + [c]
      else if s != [] && !Survives(s[|s| - 1]) then Raw(s)
      else Raw(s) + ['-']
  {
    var d := Dashed(s);
    assert (s + [c])[..|s|] == s;
    EndsInDash(s);
    if Allowed(c) {
      assert (d + [c])[..|d|] == d;
    } else if s == [] || Allowed(s[|s| - 1]) {
      assert (d + ['-'])[..|d|] == d;
    }
  }

  /** What one character more makes of the slug `r` of `s`. */
  predicate GrowsBy(s: string, r: string, c: char, more: string) {
    if Survives(c) then |more| == |r| + 1 && more == r + [more[|r|]] && IsLowerOf(more[|r|], c)
    else if s != [] && !Survives(s[|s| - 1]) then more == r
    else more == r + ['-']
  }

  lemma {:induction false} SlugMore(s: string, c: char)
    ensures GrowsBy(s, Sluggify(s), c, Sluggify(s + [c]))
  {
    RawMore(s, c);
    LowerMore(Raw(s), c);
    LowerMore(Raw(s), '-');
  }

  lemma LowerMore(r: string, c: char)
    ensures |Lower(r + [c])| == |r| + 1 && Lower(r + [c])[..|r|] == Lower(r) && IsLowerOf(Lower(r + [c])[|r|], c)
  {
    assert (r + [c])[..|r|] == r;
  }

  /** Before lower case, the slug ends in a dash exactly if the text ends in something else than a survivor. */
  lemma {:induction false} EndsInDash(s: string)
    ensures s == [] <==> Collapsed(Dashed(s)) == []
    ensures s != [] ==>
      var r := Collapsed(Dashed(s));
      r[|r| - 1] == '-' <==> !Survives(s[|s| - 1])
  {
    if s != [] {
      var n := |s| - 1;
      EndsInDash(s[..n]);
      DashedEnds(s);
      var d := Dashed(s);
      CollapsedEnds(d);
    }
  }

  lemma {:induction false} DashedEnds(s: string)
    requires s != []
    ensures Dashed(s) != []
    ensures Dashed(s)[|Dashed(s)| - 1] == if Allowed(s[|s| - 1]) then s[|s| - 1] else '-'
  {
    var n := |s| - 1;
    if n > 0 {
      DashedEnds(s[..n]);
    }
  }

  lemma CollapsedEnds(d: string)
    requires d != []
    ensures Collapsed(d) != [] && Collapsed(d)[|Collapsed(d)| - 1] == d[|d| - 1]
  {
  }

  /** `at` is where the survivors are in the text. */
  predicate SurvivorsAt(s: string, at: seq<nat>) {
    Rising(at) && (forall i :: i in at ==> i < |s|) && forall i: nat | i < |s| :: i in at <==> Survives(s[i])
  }

  /** `to` is where the slug has something else than dashes. */
  predicate LettersAt(r: string, to: seq<nat>) {
    Rising(to) && (forall i :: i in to ==> i < |r|) && forall i: nat | i < |r| :: i in to <==> r[i] != '-'
  }

  /** One dash exactly where the text has anything between two survivors, before the first or after the last. */
  predicate Spaced(s: string, r: string, at: seq<nat>, to: seq<nat>)
    requires |at| == |to|
  {
    && (forall j :: 0 < j < |at| ==> to[j] == to[j - 1] + if at[j] == at[j - 1] + 1 then 1 else 2)
    && if at == [] then r == (if s == [] then "" else "-")
       else
         && to[0] == (if at[0] == 0 then 0 else 1)
         && |r| == to[|to| - 1] + if at[|at| - 1] == |s| - 1 then 1 else 2
  }

  /**
   * The survivors of the text are in the slug, in order and in lower case, and nothing else is but one
   * dash wherever there is anything between two of them, before the first or after the last.
   */
  predicate SlugOf(s: string, r: string, at: seq<nat>, to: seq<nat>) {
    |at| == |to| && SurvivorsAt(s, at) && LettersAt(r, to) && Lowered(s, r, at, to) && Spaced(s, r, at, to)
  }

  /** The letters of the slug are the survivors in lower case. */
  predicate Lowered(s: string, r: string, at: seq<nat>, to: seq<nat>)
    requires |at| == |to|
  {
    forall j :: 0 <= j < |at| ==> at[j] < |s| && to[j] < |r| && IsLowerOf(r[to[j]], s[at[j]])
  }

  lemma {:induction false} SluggifyKeepsSurvivors(s: string) returns (at: seq<nat>, to: seq<nat>)
    ensures SlugOf(s, Sluggify(s), at, to)
    decreases |s|
  {
    if s == [] {
      at, to := [], [];
    } else {
      var n := |s| - 1;
      at, to := SluggifyKeepsSurvivors(s[..n]);
      assert s == s[..n] + [s[n]];
      SlugMore(s[..n], s[n]);
      at, to := SlugOfMore(s[..n], Sluggify(s[..n]), at, to, s[n], Sluggify(s));
    }
  }

  lemma SlugOfMore(s: string, r: string, at: seq<nat>, to: seq<nat>, c: char, more: string)
      returns (at': seq<nat>, to': seq<nat>)
    requires SlugOf(s, r, at, to) && GrowsBy(s, r, c, more)
    ensures SlugOf(s + [c], more, at', to')
  {
    at', to' := at, to;
    if Survives(c) {
      SurvivorMore(s, r, at, to, c, more[|r|]);
      at', to' := at + [|s|], to + [|r|];
    } else {
      OtherMore(s, r, at, to, c);
    }
  }

  lemma SurvivorsMore(s: string, at: seq<nat>, c: char)
    requires SurvivorsAt(s, at)
    ensures SurvivorsAt(s + [c], if Survives(c) then at + [|s|] else at)
  {
    assert forall j :: 0 <= j < |at| ==> at[j] in at;
    var more := if Survives(c) then at + [|s|] else at;
    forall i: nat | i < |s + [c]| ensures i in more <==> Survives((s + [c])[i]) {
      assert i in more <==> i in at || (Survives(c) && i == |s|);
    }
  }

  lemma LettersMore(r: string, to: seq<nat>, l: char)
    requires LettersAt(r, to)
    ensures LettersAt(r + [l], if l != '-' then to + [|r|] else to)
  {
    assert forall j :: 0 <= j < |to| ==> to[j] in to;
    var more := if l != '-' then to + [|r|] else to;
    forall i: nat | i < |r + [l]| ensures i in more <==> (r + [l])[i] != '-' {
      assert i in more <==> i in to || (l != '-' && i == |r|);
    }
  }

  lemma LoweredMore(s: string, r: string, at: seq<nat>, to: seq<nat>, c: char, l: char)
    requires |at| == |to| && Lowered(s, r, at, to)
    ensures Lowered(s + [c], r, at, to) && Lowered(s + [c], r + [l], at, to)
    ensures IsLowerOf(l, c) ==> Lowered(s + [c], r + [l], at + [|s|], to + [|r|])
  {
  }

  lemma SurvivorMore(s: string, r: string, at: seq<nat>, to: seq<nat>, c: char, l: char)
    requires SlugOf(s, r, at, to) && Survives(c) && IsLowerOf(l, c)
    ensures SlugOf(s + [c], r + [l], at + [|s|], to + [|r|])
  {
    SurvivorsMore(s, at, c);
    LettersMore(r, to, l);
    LoweredMore(s, r, at, to, c, l);
    SpacedMore(s, r, at, to, c, l);
  }

  lemma SpacedMore(s: string, r: string, at: seq<nat>, to: seq<nat>, c: char, l: char)
    requires |at| == |to| && Spaced(s, r, at, to)
    ensures Spaced(s + [c], r + [l], at + [|s|], to + [|r|])
  {
  }

  lemma OtherMore(s: string, r: string, at: seq<nat>, to: seq<nat>, c: char)
    requires SlugOf(s, r, at, to) && !Survives(c)
    ensures SlugOf(s + [c], if s != [] && !Survives(s[|s| - 1]) then r else r + ['-'], at, to)
  {
    SurvivorsMore(s, at, c);
    LettersMore(r, to, '-');
    LoweredMore(s, r, at, to, c, '-');
    SpacedOther(s, r, at, to, c);
  }

  lemma SpacedOther(s: string, r: string, at: seq<nat>, to: seq<nat>, c: char)
    requires |at| == |to| && SurvivorsAt(s, at) && Spaced(s, r, at, to)
    ensures Spaced(s + [c], if s != [] && !Survives(s[|s| - 1]) then r else r + ['-'], at, to)
  {
    if s != [] && Survives(s[|s| - 1]) {
      LastSurvivor(at, |s| - 1);
    } else if at != [] {
      assert at[|at| - 1] in at;
    }
  }

  /** The last of some rising places, if it is among them. */
  lemma LastSurvivor(at: seq<nat>, i: nat)
    requires Rising(at) && i in at && forall j :: j in at ==> j <= i
    ensures at != [] && at[|at| - 1] == i
  {
    var j :| 0 <= j < |at| && at[j] == i;
    assert at[|at| - 1] in at;
  }

  // ---------------------------------------------------------------- names and weights

  /** The characters of Unicode's White_Space property. */
  predicate White(c: char) {
    var n := c as int;
    || 9 <= n <= 13 || n == 32 || n == 0x85 || n == 0xA0 || n == 0x1680 || 0x2000 <= n <= 0x200A
    || n == 0x2028 || n == 0x2029 || n == 0x202F || n == 0x205F || n == 0x3000
  }

  lemma SpaceIsWhite(c: char)
    ensures IsSpace(c) <==> White(c)
  {
  }

  /** Trimming leaves the text between the space at both ends. */
  lemma {:induction false} TrimIsCore(s: string) returns (from: nat, to: nat)
    ensures from <= to <= |s| && TrimRight(TrimLeft(s)) == s[from..to]
    ensures (forall i :: 0 <= i < from ==> White(s[i])) && forall i :: to <= i < |s| ==> White(s[i])
    ensures from < to ==> !White(s[from]) && !White(s[to - 1])
  {
    from := LeftCore(s);
    var left := s[from..];
    to := from + RightCore(left);
    forall i | 0 <= i < |s| ensures IsSpace(s[i]) <==> White(s[i]) {
      SpaceIsWhite(s[i]);
    }
    assert forall i :: to <= i < |s| ==> s[i] == left[i - from];
  }

  function LeftCore(s: string): (from: nat)
    ensures from <= |s| && TrimLeft(s) == s[from..]
    ensures (forall i :: 0 <= i < from ==> IsSpace(s[i])) && (from < |s| ==> !IsSpace(s[from]))
  {
    if s != [] && IsSpace(s[0]) then 1 + LeftCore(s[1..]) else 0
  }

  function RightCore(s: string): (to: nat)
    ensures to <= |s| && TrimRight(s) == s[..to]
    ensures (forall i :: to <= i < |s| ==> IsSpace(s[i])) && (0 < to ==> !IsSpace(s[to - 1]))
  {
    if s != [] && IsSpace(s[|s| - 1]) then RightCore(s[..|s| - 1]) else |s|
  }

  function Power(n: nat): (p: nat)
    ensures p > 0
  {
    if n == 0 then 1 else 10 * Power(n - 1)
  }

  /** Digits are read as a number in base ten: each counts ten times what it would one place further on. */
  lemma {:induction false} ValueIsDecimal(s: string, t: string)
    requires forall i :: 0 <= i < |s| ==> IsDigit(s[i])
    requires forall i :: 0 <= i < |t| ==> IsDigit(t[i])
    ensures Value(s + t) == Value(s) * Power(|t|) + Value(t) && Value(t) < Power(|t|)
    ensures |t| == 1 ==> Value(t) == t[0] as int - '0' as int
    decreases |t|
  {
    if t == [] {
      assert s + t == s;
    } else {
      var n := |t| - 1;
      assert (s + t)[..|s + t| - 1] == s + t[..n];
      ValueIsDecimal(s, t[..n]);
      OneDigitMore(Value(s), Value(t[..n]), Power(n), DigitOf(t[n]));
    }
  }

  lemma OneDigitMore(a: nat, b: nat, p: nat, d: nat)
    requires b < p && d < 10
    ensures 10 * (a * p + b) + d == a * (10 * p) + (10 * b + d) && 10 * b + d < 10 * p
  {
    assert a * (10 * p) == 10 * (a * p);
  }

  /** A weight that does not fit into an `int` is the greatest that does. */
  lemma ClampedFits(n: nat)
    ensures Clamped(n) <= 9223372036854775807 && Clamped(n) <= n
    ensures Clamped(n) == n || Clamped(n) == 9223372036854775807
  {
  }
}
