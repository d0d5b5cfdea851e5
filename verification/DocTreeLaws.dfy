/** The cursor walk against an independent reference: coalesce adjacent texts, then convert plainly. */
module DocTreeLaws {
  import opened DocTree

  // ---------------------------------------------------------------- the reference

  /** Texts next to each other become one. */
  function MergeTexts(ns: seq<Ast>): seq<Ast> {
    if ns == [] then [] else Joined(MergeTexts(ns[..|ns| - 1]), ns[|ns| - 1])
  }

  function Joined(front: seq<Ast>, n: Ast): seq<Ast> {
    if n.kind.Text? && front != [] && front[|front| - 1].kind.Text? then
      front[..|front| - 1] + [Ast(Text(front[|front| - 1].kind.text + n.kind.text), [])]
    else front + [n]
  }

  function Coalesced(n: Ast): Ast
    decreases n, 0
  {
    Ast(n.kind, MergeTexts(CoalescedAll(n.children)))
  }

  function CoalescedAll(ns: seq<Ast>): (r: seq<Ast>)
    ensures |r| == |ns|
    decreases ns, 1
  {
    if ns == [] then [] else CoalescedAll(ns[..|ns| - 1]) + [Coalesced(ns[|ns| - 1])]
  }

  function AllLines(lines: seq<string>): string {
    if lines == [] then "" else lines[0] + AllLines(lines[1..])
  }

  lemma {:induction false} AllLinesMore(lines: seq<string>, line: string)
    ensures AllLines(lines + [line]) == AllLines(lines) + line
  {
    if lines == [] {
      assert [] + [line] == [line] && [line][1..] == [];
    } else {
      assert (lines + [line])[1..] == lines[1..] + [line];
      AllLinesMore(lines[1..], line);
    }
  }

  lemma {:induction false} JoinIsAllLines(lines: seq<string>)
    ensures Join(lines) == AllLines(lines)
  {
    if lines != [] {
      var n := |lines| - 1;
      JoinIsAllLines(lines[..n]);
      AllLinesMore(lines[..n], lines[n]);
      assert lines == lines[..n] + [lines[n]];
    }
  }

  /** Node by node, each kind with its own fields; a TextBlock with children leaves its text to them. */
  function Plain(n: Ast): Token
    decreases n, 0
  {
    var inside := PlainAll(n.children);
    match n.kind
    case Document => Token(DocumentToken, inside)
    case Heading(level) => Token(HeadingToken(level), inside)
    case Text(text) => Token(TextToken(text), inside)
    case TextBlock(text) => Token(TextToken(if n.children == [] then text else ""), inside)
    case Paragraph => Token(ParagraphToken, inside)
    case CodeSpan(text) => Token(CodeSpanToken(text), inside)
    case FencedCodeBlock(language, lines) => Token(CodeBlockToken(language, AllLines(lines)), inside)
    case Link(destination, title) => Token(LinkToken(destination, title), inside)
    case List(ordered, start, tight) => Token(ListToken(ordered, start, tight), inside)
    case ListItem(offset) => Token(ListItemToken(offset), inside)
    case Admonition(severity, title) => Token(AdmonitionToken(severity, title), inside)
    case Unhandled(_) => Token(TextToken(""), inside)
  }

  function PlainAll(ns: seq<Ast>): (r: seq<Token>)
    ensures |r| == |ns|
    decreases ns, 1
  {
    if ns == [] then [] else PlainAll(ns[..|ns| - 1]) + [Plain(ns[|ns| - 1])]
  }

  /**
   * Trees of handled kinds only, with Text nodes without children, no Text
   * right after a TextBlock among siblings, and no text in a TextBlock without children.
   */
  predicate WellFormed(n: Ast) {
    && Handled(n)
    && (n.kind.Text? ==> n.children == [])
    && (n.kind.TextBlock? && n.children == [] ==> n.kind.text == "")
    && WellFormedAll(n.children)
  }

  predicate WellFormedAll(ns: seq<Ast>) {
    && (forall n :: n in ns ==> WellFormed(n))
    && forall i :: 0 < i < |ns| && ns[i].kind.Text? ==> !ns[i - 1].kind.TextBlock?
  }

  lemma {:induction false} WellFormedFront(ns: seq<Ast>)
    requires ns != [] && WellFormedAll(ns)
    ensures WellFormedAll(ns[..|ns| - 1]) && WellFormed(ns[|ns| - 1]) && HandledAll(ns)
  {
    var m := |ns| - 1;
    assert ns[m] in ns;
    forall n | n in ns[..m] ensures WellFormed(n) { assert n in ns; }
    forall n | n in ns ensures Handled(n) { assert WellFormed(n); }
  }

  lemma WellFormedHandled(ns: seq<Ast>)
    requires WellFormedAll(ns)
    ensures HandledAll(ns)
  {
    forall n | n in ns ensures Handled(n) { assert WellFormed(n); }
  }

  // ---------------------------------------------------------------- the walk meets the reference

  /** After sibling `n`, the last siblings on both sides, as far as a next Text depends on them. */
  predicate EndsAlike(n: Ast, ts: seq<Token>, ms: seq<Ast>) {
    ts != [] && ms != [] &&
    var t, m := ts[|ts| - 1], ms[|ms| - 1];
    && (n.kind.Text? ==> t == Token(t.tag, []) && t.tag.TextToken? && m == Ast(Text(t.tag.text), []))
    && (!n.kind.Text? ==> !m.kind.Text?)
    && (!n.kind.Text? && !n.kind.TextBlock? ==> !t.tag.TextToken?)
  }

  lemma {:induction false} FixedAppend(ts: seq<Token>, t: Token)
    ensures FixedAll(ts + [t]) == FixedAll(ts) + [Fixed(t)]
  {
    assert (ts + [t])[..|ts|] == ts;
  }

  lemma {:induction false} PlainAppend(ms: seq<Ast>, m: Ast)
    ensures PlainAll(ms + [m]) == PlainAll(ms) + [Plain(m)]
  {
    assert (ms + [m])[..|ms|] == ms;
  }

  lemma {:induction false} FixedFront(ts: seq<Token>)
    requires ts != []
    ensures FixedAll(ts[..|ts| - 1]) == FixedAll(ts)[..|ts| - 1]
  {
  }

  lemma {:induction false} PlainFront(ms: seq<Ast>)
    requires ms != []
    ensures PlainAll(ms[..|ms| - 1]) == PlainAll(ms)[..|ms| - 1]
  {
  }

  /** A node meets the reference when its children do. */
  lemma LabelsMeetReference(k: Kind, ts: seq<Token>, ms: seq<Ast>)
    requires FixedAll(ts) == PlainAll(ms) && !k.Unhandled?
    requires k.Text? ==> ms == []
    requires k.TextBlock? && ms == [] ==> k.text == ""
    ensures Fixed(Token(LabelOf(k), ts)) == Plain(Ast(k, ms))
  {
    assert |ts| == |FixedAll(ts)| == |PlainAll(ms)| == |ms|;
    if k.FencedCodeBlock? {
      JoinIsAllLines(k.lines);
    }
  }

  lemma {:induction false} NodeMeetsReference(n: Ast)
    requires WellFormed(n)
    ensures Fixed(Conv(n)) == Plain(Coalesced(n))
    decreases n, 0
  {
    var ts, ms := IntoAll([], n.children), MergeTexts(CoalescedAll(n.children));
    SiblingsMeetReference(n.children);
    assert n.children == [] <==> ms == [];
    LabelsMeetReference(n.kind, ts, ms);
  }

  lemma {:induction false} SiblingsMeetReference(ns: seq<Ast>)
    requires WellFormedAll(ns) && HandledAll(ns)
    ensures
      var ts, ms := IntoAll([], ns), MergeTexts(CoalescedAll(ns));
      && FixedAll(ts) == PlainAll(ms)
      && if ns == [] then ts == [] && ms == [] else EndsAlike(ns[|ns| - 1], ts, ms)
    decreases ns, 1
  {
    if ns != [] {
      var k := |ns| - 1;
      WellFormedFront(ns);
      WellFormedHandled(ns[..k]);
      SiblingsMeetReference(ns[..k]);
      NodeMeetsReference(ns[k]);
      assert CoalescedAll(ns)[..k] == CoalescedAll(ns[..k]);
      SiblingMeetsReference(IntoAll([], ns[..k]), MergeTexts(CoalescedAll(ns[..k])), ns, k);
    }
  }

  /** One more sibling, after those that meet the reference. */
  lemma {:induction false} SiblingMeetsReference(ts: seq<Token>, ms: seq<Ast>, ns: seq<Ast>, k: nat)
    requires k < |ns| && WellFormedAll(ns) && WellFormed(ns[k]) && FixedAll(ts) == PlainAll(ms)
    requires Fixed(Conv(ns[k])) == Plain(Coalesced(ns[k]))
    requires if k == 0 then ts == [] && ms == [] else EndsAlike(ns[k - 1], ts, ms)
    ensures FixedAll(Into(ts, ns[k])) == PlainAll(Joined(ms, Coalesced(ns[k])))
    ensures EndsAlike(ns[k], Into(ts, ns[k]), Joined(ms, Coalesced(ns[k])))
  {
    if ns[k].kind.Text? && k > 0 && ns[k - 1].kind.Text? {
      TextsJoin(ts, ms, ns[k]);
    } else {
      SiblingAppends(ts, ms, ns[k]);
    }
  }

  lemma {:induction false} SiblingAppends(ts: seq<Token>, ms: seq<Ast>, n: Ast)
    requires WellFormed(n) && FixedAll(ts) == PlainAll(ms) && Fixed(Conv(n)) == Plain(Coalesced(n))
    requires n.kind.Text? ==> !EndsInText(ts) && (ms == [] || !ms[|ms| - 1].kind.Text?)
    ensures FixedAll(Into(ts, n)) == PlainAll(Joined(ms, Coalesced(n)))
    ensures EndsAlike(n, Into(ts, n), Joined(ms, Coalesced(n)))
  {
    FixedAppend(ts, Conv(n));
    PlainAppend(ms, Coalesced(n));
  }

  lemma {:induction false} TextsJoin(ts: seq<Token>, ms: seq<Ast>, n: Ast)
    requires WellFormed(n) && n.kind.Text?
    requires FixedAll(ts) == PlainAll(ms) && ts != [] && ms != []
    requires ts[|ts| - 1].tag.TextToken? && ts[|ts| - 1].tokens == []
    requires ms[|ms| - 1] == Ast(Text(ts[|ts| - 1].tag.text), [])
    ensures
      var t := Token(TextToken(ts[|ts| - 1].tag.text + n.kind.text), []);
      var m := Ast(Text(ts[|ts| - 1].tag.text + n.kind.text), []);
      && Into(ts, n) == ts[..|ts| - 1] + [t]
      && Joined(ms, Coalesced(n)) == ms[..|ms| - 1] + [m]
      && FixedAll(Into(ts, n)) == PlainAll(Joined(ms, Coalesced(n)))
  {
    var t := Token(TextToken(ts[|ts| - 1].tag.text + n.kind.text), []);
    var m := Ast(Text(ts[|ts| - 1].tag.text + n.kind.text), []);
    FixedFront(ts);
    PlainFront(ms);
    FixedAppend(ts[..|ts| - 1], t);
    PlainAppend(ms[..|ms| - 1], m);
    assert |ts| == |FixedAll(ts)| == |PlainAll(ms)| == |ms|;
  }

  /** For every well-formed document the walk plus `fix` is the reference conversion. */
  lemma {:induction false} WalkMeetsReference(ns: seq<Ast>)
    requires WellFormedAll(ns)
    ensures Converted(Ast(Document, ns)) == Plain(Coalesced(Ast(Document, ns)))
  {
    WellFormedHandled(ns);
    WalkIsConversion(ns);
    SiblingsMeetReference(ns);
  }

  // ---------------------------------------------------------------- no text is lost

  /** The contents of the Text nodes in document order. */
  function TextOf(n: Ast): string
    decreases n, 0
  {
    (if n.kind.Text? then n.kind.text else "") + TextOfAll(n.children)
  }

  function TextOfAll(ns: seq<Ast>): string
    decreases ns, 1
  {
    if ns == [] then "" else TextOfAll(ns[..|ns| - 1]) + TextOf(ns[|ns| - 1])
  }

  /** The contents of the leaf Text tokens in document order. */
  function TokenText(t: Token): string
    decreases t, 0
  {
    (if t.tag.TextToken? && t.tokens == [] then t.tag.text else "") + TokenTextAll(t.tokens)
  }

  function TokenTextAll(ts: seq<Token>): string
    decreases ts, 1
  {
    if ts == [] then "" else TokenTextAll(ts[..|ts| - 1]) + TokenText(ts[|ts| - 1])
  }

  lemma {:induction false} TextOfAppend(ns: seq<Ast>, n: Ast)
    ensures TextOfAll(ns + [n]) == TextOfAll(ns) + TextOf(n)
  {
    assert (ns + [n])[..|ns|] == ns;
  }

  /** What a node holds itself, apart from its children, and that a childless Text is only that. */
  predicate LeafTexts(n: Ast)
    decreases n, 0
  {
    && !n.kind.Unhandled?
    && (n.kind.Text? ==> n.children == [])
    && (n.kind.TextBlock? && n.children == [] ==> n.kind.text == "")
    && LeafTextsAll(n.children)
  }

  predicate LeafTextsAll(ns: seq<Ast>)
    decreases ns, 1
  {
    forall n :: n in ns ==> LeafTexts(n)
  }

  lemma {:induction false} PlainKeepsText(n: Ast)
    requires LeafTexts(n)
    ensures TokenText(Plain(n)) == TextOf(n)
    decreases n, 0
  {
    PlainAllKeepsText(n.children);
  }

  lemma {:induction false} PlainAllKeepsText(ns: seq<Ast>)
    requires LeafTextsAll(ns)
    ensures TokenTextAll(PlainAll(ns)) == TextOfAll(ns)
    decreases ns, 1
  {
    if ns != [] {
      var k := |ns| - 1;
      assert ns[k] in ns && forall n :: n in ns[..k] ==> n in ns;
      PlainAllKeepsText(ns[..k]);
      PlainKeepsText(ns[k]);
      assert PlainAll(ns)[..k] == PlainAll(ns[..k]);
    }
  }

  lemma {:induction false} MergeKeepsText(ns: seq<Ast>)
    requires LeafTextsAll(ns)
    ensures TextOfAll(MergeTexts(ns)) == TextOfAll(ns) && LeafTextsAll(MergeTexts(ns))
    ensures ns == [] <==> MergeTexts(ns) == []
    decreases |ns|
  {
    if ns != [] {
      var k := |ns| - 1;
      assert ns[k] in ns && forall n :: n in ns[..k] ==> n in ns;
      MergeKeepsText(ns[..k]);
      JoinedKeepsText(MergeTexts(ns[..k]), ns[k]);
    }
  }

  lemma {:induction false} JoinedKeepsText(front: seq<Ast>, n: Ast)
    requires LeafTextsAll(front) && LeafTexts(n)
    ensures TextOfAll(Joined(front, n)) == TextOfAll(front) + TextOf(n) && LeafTextsAll(Joined(front, n))
  {
    if n.kind.Text? && front != [] && front[|front| - 1].kind.Text? {
      var last := front[|front| - 1];
      var joined := Ast(Text(last.kind.text + n.kind.text), []);
      assert last in front && forall x :: x in front[..|front| - 1] ==> x in front;
      TextLeafText(last);
      TextLeafText(n);
      TextLeafText(joined);
      ReplaceLastText(front, joined, n.kind.text);
    } else {
      TextOfAppend(front, n);
    }
  }

  lemma {:induction false} ReplaceLastText(front: seq<Ast>, n: Ast, more: string)
    requires front != [] && TextOf(n) == TextOf(front[|front| - 1]) + more
    ensures TextOfAll(front[..|front| - 1] + [n]) == TextOfAll(front) + more
  {
    TextOfAppend(front[..|front| - 1], n);
  }

  lemma TextLeafText(n: Ast)
    requires n.kind.Text? && n.children == []
    ensures TextOf(n) == n.kind.text && LeafTexts(n)
  {
  }

  lemma {:induction false} CoalescedKeepsText(n: Ast)
    requires WellFormed(n) || (n.kind.Document? && WellFormedAll(n.children))
    ensures TextOf(Coalesced(n)) == TextOf(n) && LeafTexts(Coalesced(n))
    decreases n, 0
  {
    CoalescedAllKeepsText(n.children);
    MergeKeepsText(CoalescedAll(n.children));
  }

  lemma {:induction false} CoalescedAllKeepsText(ns: seq<Ast>)
    requires WellFormedAll(ns)
    ensures TextOfAll(CoalescedAll(ns)) == TextOfAll(ns) && LeafTextsAll(CoalescedAll(ns))
    decreases ns, 1
  {
    if ns != [] {
      var k := |ns| - 1;
      WellFormedFront(ns);
      CoalescedAllKeepsText(ns[..k]);
      CoalescedKeepsText(ns[k]);
      TextOfAppend(CoalescedAll(ns[..k]), Coalesced(ns[k]));
    }
  }

  /** Every Text node's content arrives in a Text token, in document order, once. */
  lemma {:induction false} TextConserved(ns: seq<Ast>)
    requires WellFormedAll(ns)
    ensures TokenText(Converted(Ast(Document, ns))) == TextOfAll(ns)
  {
    var doc := Ast(Document, ns);
    WalkMeetsReference(ns);
    CoalescedKeepsText(doc);
    PlainKeepsText(Coalesced(doc));
    assert TextOf(doc) == TextOfAll(ns);
  }
}
