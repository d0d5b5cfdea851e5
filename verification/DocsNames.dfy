/** Reading group fields, which may carry a weight, and making slugs. */
module DocsNames {
  // ---------------------------------------------------------------- group names and weights

  predicate IsDigit(c: char) {
    '0' <= c <= '9'
  }

  predicate Digits(s: string) {
    s != [] && forall i :: 0 <= i < |s| ==> IsDigit(s[i])
  }

  function DigitOf(c: char): nat
    requires IsDigit(c)
  {
    c as int - '0' as int
  }

  function Value(s: string): nat
    requires forall i :: 0 <= i < |s| ==> IsDigit(s[i])
  {
    if s == [] then 0 else 10 * Value(s[..|s| - 1]) + DigitOf(s[|s| - 1])
  }

  const MAX_INT := 0x7fff_ffff_ffff_ffff

  /** A number that does not fit is clamped. */
  function Clamped(n: nat): int {
    if n > MAX_INT then MAX_INT else n
  }

  predicate IsSpace(c: char) {
    c in {'\t', '\n', '\U{0B}', '\U{0C}', '\r', ' ', '\U{85}', '\U{A0}', '\U{1680}', '\U{2028}', '\U{2029}',
          '\U{202F}', '\U{205F}', '\U{3000}'} || '\U{2000}' <= c <= '\U{200A}'
  }

  function TrimLeft(s: string): string {
    if s != [] && IsSpace(s[0]) then TrimLeft(s[1..]) else s
  }

  function TrimRight(s: string): string {
    if s != [] && IsSpace(s[|s| - 1]) then TrimRight(s[..|s| - 1]) else s
  }

  function TrailingDigits(s: string): (n: nat)
    ensures n <= |s|
    ensures forall i :: |s| - n <= i < |s| ==> IsDigit(s[i])
    ensures n < |s| ==> !IsDigit(s[|s| - n - 1])
  {
    if s != [] && IsDigit(s[|s| - 1]) then 1 + TrailingDigits(s[..|s| - 1]) else 0
  }

  /** `parseGroupName`: a name with a weight in brackets at its end, or a name without weight. */
  function ParseGroupName(gn: string): (string, int) {
    var n := |gn|;
    if n < 3 || gn[n - 1] != ']' then (gn, -1)
    else
      var k := TrailingDigits(gn[..n - 1]);
      if k == 0 || k == n - 1 || gn[n - 2 - k] != '[' || '\n' in gn[..n - 2 - k] then (gn, -1)
      else (TrimRight(TrimLeft(gn[..n - 2 - k])), Clamped(Value(gn[n - 1 - k..n - 1])))
  }

  /** `gn` is `name`, which is on one line, with `digits` in brackets. */
  predicate Splits(gn: string, name: string, digits: string) {
    gn == name + "[" + digits + "]" && Digits(digits) && '\n' !in name
  }

  lemma {:induction false} TrailingOf(s: string, digits: string)
    requires (forall i :: 0 <= i < |digits| ==> IsDigit(digits[i])) && (s == [] || !IsDigit(s[|s| - 1]))
    ensures TrailingDigits(s + digits) == |digits|
    decreases |digits|
  {
    if digits == [] {
      assert s + digits == s;
    } else {
      assert (s + digits)[..|s + digits| - 1] == s + digits[..|digits| - 1];
      TrailingOf(s, digits[..|digits| - 1]);
    }
  }

  /** A weight in brackets is read off, and what is before it, without space around, is the name. */
  lemma {:induction false} WeightIsRead(gn: string, name: string, digits: string)
    requires Splits(gn, name, digits)
    ensures ParseGroupName(gn) == (TrimRight(TrimLeft(name)), Clamped(Value(digits)))
  {
    var n, k := |gn|, |digits|;
    var front := name + "[";
    assert gn[..n - 1] == front + digits;
    TrailingOf(front, digits);
    assert gn[..n - 2 - k] == name && gn[n - 1 - k..n - 1] == digits;
  }

  lemma Rejoined(gn: string, i: nat)
    requires i + 1 < |gn| && gn[i] == '[' && gn[|gn| - 1] == ']'
    ensures gn == gn[..i] + "[" + gn[i + 1..|gn| - 1] + "]"
  {
  }

  lemma TrailingAre(gn: string, k: nat)
    requires gn != [] && k == TrailingDigits(gn[..|gn| - 1]) && k > 0
    ensures Digits(gn[|gn| - 1 - k..|gn| - 1])
  {
    var digits := gn[|gn| - 1 - k..|gn| - 1];
    assert forall i :: 0 <= i < k ==> digits[i] == gn[..|gn| - 1][|gn| - 1 - k + i];
  }

  lemma {:induction false} WeightHasSplit(gn: string) returns (name: string, digits: string)
    requires ParseGroupName(gn).1 >= 0
    ensures Splits(gn, name, digits)
  {
    var n, k := |gn|, TrailingDigits(gn[..|gn| - 1]);
    name, digits := gn[..n - 2 - k], gn[n - 1 - k..n - 1];
    Rejoined(gn, n - 2 - k);
    TrailingAre(gn, k);
  }

  /** A field has a weight exactly when it ends in one; any other is the name itself, with weight -1. */
  lemma {:induction false} WeightIffSplits(gn: string)
    ensures (exists name, digits :: Splits(gn, name, digits)) <==> ParseGroupName(gn).1 >= 0
    ensures ParseGroupName(gn).1 >= 0 || ParseGroupName(gn) == (gn, -1)
  {
    if ParseGroupName(gn).1 >= 0 {
      var name, digits := WeightHasSplit(gn);
    } else {
      forall name, digits ensures !Splits(gn, name, digits) {
        if Splits(gn, name, digits) { WeightIsRead(gn, name, digits); }
      }
    }
  }

  // ---------------------------------------------------------------- slugs

  predicate Allowed(c: char) {
    'a' <= c <= 'z' || 'A' <= c <= 'Z' || IsDigit(c) || c == '-' || c == '_'
  }

  /** Each run of other characters becomes one dash. */
  function Dashed(s: string): string {
    if s == [] then []
    else
      var n := |s| - 1;
      if Allowed(s[n]) then Dashed(s[..n]) + [s[n]]
      else if n > 0 && !Allowed(s[n - 1]) then Dashed(s[..n])
      else Dashed(s[..n]) + ['-']
  }

  /** Each run of dashes becomes one. */
  function Collapsed(s: string): string {
    if s == [] then []
    else
      var n, front := |s| - 1, Collapsed(s[..|s| - 1]);
      if s[n] == '-' && front != [] && front[|front| - 1] == '-' then front else front + [s[n]]
  }

  function Lower(s: string): (r: string)
    ensures |r| == |s|
  {
    if s == [] then []
    else
      var c := s[|s| - 1];
      Lower(s[..|s| - 1]) + [if 'A' <= c <= 'Z' then (c as int + 32) as char else c]
  }

  function Sluggify(s: string): string {
    Lower(Collapsed(Dashed(s)))
  }

  predicate SlugChar(c: char) {
    'a' <= c <= 'z' || IsDigit(c) || c == '-' || c == '_'
  }

  predicate NoDoubleDash(s: string) {
    forall i :: 0 < i < |s| ==> s[i] != '-' || s[i - 1] != '-'
  }

  /** Only lower-case letters, digits, underscores and single dashes. */
  predicate IsSlug(s: string) {
    NoDoubleDash(s) && forall i :: 0 <= i < |s| ==> SlugChar(s[i])
  }

  lemma {:induction false} DashedAllowed(s: string)
    ensures forall i :: 0 <= i < |Dashed(s)| ==> Allowed(Dashed(s)[i])
  {
    if s != [] {
      DashedAllowed(s[..|s| - 1]);
    }
  }

  lemma {:induction false} CollapsedSingle(s: string)
    requires forall i :: 0 <= i < |s| ==> Allowed(s[i])
    ensures NoDoubleDash(Collapsed(s)) && forall i :: 0 <= i < |Collapsed(s)| ==> Allowed(Collapsed(s)[i])
  {
    if s != [] {
      CollapsedSingle(s[..|s| - 1]);
    }
  }

  lemma {:induction false} LowerSlug(s: string)
    requires NoDoubleDash(s) && forall i :: 0 <= i < |s| ==> Allowed(s[i])
    ensures IsSlug(Lower(s)) && forall i :: 0 <= i < |s| ==> (Lower(s)[i] == '-' <==> s[i] == '-')
  {
    if s != [] {
      LowerSlug(s[..|s| - 1]);
    }
  }

  /** What comes out is a slug, and slugs are left alone: making one twice is making it once. */
  lemma {:induction false} SluggifyMakesSlugs(s: string)
    ensures IsSlug(Sluggify(s))
    ensures IsSlug(s) <==> Sluggify(s) == s
    ensures Sluggify(Sluggify(s)) == Sluggify(s)
  {
    DashedAllowed(s);
    CollapsedSingle(Dashed(s));
    LowerSlug(Collapsed(Dashed(s)));
    if IsSlug(s) { SlugIsKept(s); }
    SlugIsKept(Sluggify(s));
  }

  lemma SlugIsKept(s: string)
    requires IsSlug(s)
    ensures Dashed(s) == s && Collapsed(s) == s && Lower(s) == s
  {
    DashedKeeps(s);
    CollapsedKeeps(s);
    LowerKeeps(s);
  }

  lemma {:induction false} DashedKeeps(s: string)
    requires forall i :: 0 <= i < |s| ==> SlugChar(s[i])
    ensures Dashed(s) == s
  {
    if s != [] {
      DashedKeeps(s[..|s| - 1]);
      assert s == s[..|s| - 1] + [s[|s| - 1]];
    }
  }

  lemma {:induction false} CollapsedKeeps(s: string)
    requires NoDoubleDash(s)
    ensures Collapsed(s) == s
  {
    if s != [] {
      CollapsedKeeps(s[..|s| - 1]);
      assert s == s[..|s| - 1] + [s[|s| - 1]];
    }
  }

  lemma {:induction false} LowerKeeps(s: string)
    requires forall i :: 0 <= i < |s| ==> SlugChar(s[i])
    ensures Lower(s) == s
  {
    if s != [] {
      LowerKeeps(s[..|s| - 1]);
      assert s == s[..|s| - 1] + [s[|s| - 1]];
    }
  }
}
