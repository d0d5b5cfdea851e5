/** What a converted document says of its nodes: the fields of every token, in document order. */
module DocTreeFields {
  import opened DocTree

  // ---------------------------------------------------------------- nodes and tokens in document order

  /** The kinds of all nodes but texts, a node before those in it. */
  function Kinds(n: Ast): seq<Kind>
    decreases n, 0
  {
    (if n.kind.Text? || n.kind.TextBlock? then [] else [n.kind]) + KindsAll(n.children)
  }

  function KindsAll(ns: seq<Ast>): seq<Kind>
    decreases ns, 1
  {
    if ns == [] then [] else KindsAll(ns[..|ns| - 1]) + Kinds(ns[|ns| - 1])
  }

  /** The labels of all tokens but texts, likewise. */
  function Labels(t: Token): seq<Label>
    decreases t, 0
  {
    (if t.tag.TextToken? then [] else [t.tag]) + LabelsAll(t.tokens)
  }

  function LabelsAll(ts: seq<Token>): seq<Label>
    decreases ts, 1
  {
    if ts == [] then [] else LabelsAll(ts[..|ts| - 1]) + Labels(ts[|ts| - 1])
  }

  predicate Lies(line: string, text: string, from: nat, to: nat) {
    from <= to <= |text| && text[from..to] == line
  }

  /** `text` is the lines, one after the other, cut at these places. */
  predicate CutsInto(text: string, lines: seq<string>, cuts: seq<nat>) {
    && |cuts| == |lines| + 1 && cuts[0] == 0 && cuts[|lines|] == |text|
    && forall i :: 0 <= i < |lines| ==> Lies(lines[i], text, cuts[i], cuts[i + 1])
  }

  /** The label is of the node's kind and has the node's own values in its fields. */
  ghost predicate Tells(k: Kind, tag: Label) {
    match k
    case Document => tag.DocumentToken?
    case Heading(level) => tag.HeadingToken? && tag.level == level
    case Text(_) => tag.TextToken?
    case TextBlock(_) => tag.TextToken?
    case Paragraph => tag.ParagraphToken?
    case CodeSpan(text) => tag.CodeSpanToken? && tag.text == text
    case FencedCodeBlock(language, lines) =>
      tag.CodeBlockToken? && tag.language == language && exists cuts :: CutsInto(tag.text, lines, cuts)
    case Link(destination, title) => tag.LinkToken? && tag.destination == destination && tag.title == title
    case List(ordered, start, tight) =>
      tag.ListToken? && tag.ordered == ordered && tag.start == start && tag.tight == tight
    case ListItem(offset) => tag.ListItemToken? && tag.offset == offset
    case Admonition(severity, title) => tag.AdmonitionToken? && tag.severity == severity && tag.title == title
    case Unhandled(_) => false
  }

  ghost predicate AllTell(ks: seq<Kind>, tags: seq<Label>) {
    |ks| == |tags| && forall i :: 0 <= i < |ks| ==> Tells(ks[i], tags[i])
  }

  // ---------------------------------------------------------------- one node

  lemma LiesInMore(line: string, text: string, more: string, from: nat, to: nat)
    requires Lies(line, text, from, to)
    ensures Lies(line, text + more, from, to)
  {
    assert (text + more)[from..to] == text[from..to];
  }

  lemma {:induction false} JoinCuts(lines: seq<string>) returns (cuts: seq<nat>)
    ensures CutsInto(Join(lines), lines, cuts)
  {
    if lines == [] {
      cuts := [0];
    } else {
      var n := |lines| - 1;
      var front := JoinCuts(lines[..n]);
      cuts := front + [|Join(lines)|];
      forall i | 0 <= i < n ensures Lies(lines[i], Join(lines), cuts[i], cuts[i + 1]) {
        assert Lies(lines[..n][i], Join(lines[..n]), front[i], front[i + 1]);
        LiesInMore(lines[i], Join(lines[..n]), lines[n], front[i], front[i + 1]);
      }
      assert Lies(lines[n], Join(lines), cuts[n], cuts[n + 1]);
    }
  }

  lemma LabelTells(k: Kind)
    requires !k.Unhandled?
    ensures Tells(k, LabelOf(k))
  {
    if k.FencedCodeBlock? {
      var cuts := JoinCuts(k.lines);
    }
  }

  lemma LabelsAppend(ts: seq<Token>, t: Token)
    ensures LabelsAll(ts + [t]) == LabelsAll(ts) + Labels(t)
  {
    assert (ts + [t])[..|ts|] == ts;
  }

  lemma AllTellBoth(ks: seq<Kind>, tags: seq<Label>, ls: seq<Kind>, more: seq<Label>)
    requires AllTell(ks, tags) && AllTell(ls, more)
    ensures AllTell(ks + ls, tags + more)
  {
  }

  // ---------------------------------------------------------------- the whole tree

  /** Converting a node adds the labels of its nodes, and changes none that are there. */
  lemma {:induction false} IntoTells(ts: seq<Token>, n: Ast) returns (more: seq<Label>)
    requires Handled(n)
    ensures LabelsAll(Into(ts, n)) == LabelsAll(ts) + more && AllTell(Kinds(n), more)
    decreases n, 1
  {
    if n.kind.Text? && EndsInText(ts) {
      var m := |ts| - 1;
      more := IntoAllTells(ts[m].tokens, n.children);
      TextJoinTells(ts, n, more);
    } else {
      var inner := IntoAllTells([], n.children);
      more := NodeTells(n, inner);
      LabelsAppend(ts, Conv(n));
    }
  }

  lemma TextJoinTells(ts: seq<Token>, n: Ast, more: seq<Label>)
    requires Handled(n) && n.kind.Text? && EndsInText(ts)
    requires
      var inside := ts[|ts| - 1].tokens;
      LabelsAll(IntoAll(inside, n.children)) == LabelsAll(inside) + more
    ensures LabelsAll(Into(ts, n)) == LabelsAll(ts) + more && Kinds(n) == KindsAll(n.children)
  {
    var m := |ts| - 1;
    LabelsAppend(ts[..m], ts[m]);
    LabelsAppend(ts[..m], Into(ts, n)[m]);
    assert ts == ts[..m] + [ts[m]];
    assert LabelsAll(ts[..m]) + (LabelsAll(ts[m].tokens) + more) == LabelsAll(ts[..m]) + LabelsAll(ts[m].tokens) + more;
  }

  lemma NodeTells(n: Ast, inner: seq<Label>) returns (more: seq<Label>)
    requires Handled(n) && LabelsAll(IntoAll([], n.children)) == LabelsAll([]) + inner
    requires AllTell(KindsAll(n.children), inner)
    ensures more == Labels(Conv(n)) && AllTell(Kinds(n), more)
  {
    more := Labels(Conv(n));
    LabelTells(n.kind);
    assert LabelsAll([]) == [];
    if !n.kind.Text? && !n.kind.TextBlock? {
      AllTellBoth([n.kind], [LabelOf(n.kind)], KindsAll(n.children), inner);
    }
  }

  lemma {:induction false} IntoAllTells(ts: seq<Token>, ns: seq<Ast>) returns (more: seq<Label>)
    requires HandledAll(ns)
    ensures LabelsAll(IntoAll(ts, ns)) == LabelsAll(ts) + more && AllTell(KindsAll(ns), more)
    decreases ns, 2
  {
    more := [];
    if ns != [] {
      var k := |ns| - 1;
      assert ns[k] in ns && forall n :: n in ns[..k] ==> n in ns;
      var front := IntoAllTells(ts, ns[..k]);
      var last := IntoTells(IntoAll(ts, ns[..k]), ns[k]);
      AllTellBoth(KindsAll(ns[..k]), front, Kinds(ns[k]), last);
      more := front + last;
    }
  }

  lemma {:induction false} FixedLabels(t: Token)
    ensures Labels(Fixed(t)) == Labels(t)
    decreases t, 0
  {
    FixedLabelsAll(t.tokens);
  }

  lemma {:induction false} FixedLabelsAll(ts: seq<Token>)
    ensures LabelsAll(FixedAll(ts)) == LabelsAll(ts)
    decreases ts, 1
  {
    if ts != [] {
      var k := |ts| - 1;
      FixedLabelsAll(ts[..k]);
      FixedLabels(ts[k]);
      LabelsAppend(FixedAll(ts[..k]), Fixed(ts[k]));
    }
  }

  /**
   * Of a document of handled kinds, the tokens of the converted document other than texts are those of
   * its nodes, in document order, each of its node's kind and with its node's own values: destinations
   * and titles, levels, list and item fields, and code, a block's lines one after the other.
   */
  lemma {:induction false} FieldsConserved(ns: seq<Ast>)
    requires HandledAll(ns)
    ensures Converted(Ast(Document, ns)).tag.DocumentToken?
    ensures AllTell(KindsAll(ns), LabelsAll(Converted(Ast(Document, ns)).tokens))
  {
    WalkIsConversion(ns);
    var more := IntoAllTells([], ns);
    FixedLabelsAll(IntoAll([], ns));
    assert LabelsAll([]) == [];
  }
}
