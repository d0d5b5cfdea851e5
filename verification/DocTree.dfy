/** Converting a parsed markdown tree into document tokens with a cursor walk. */
module DocTree {

  // ---------------------------------------------------------------- the two trees

  datatype Kind =
    | Document
    | Heading(level: int)
    | Text(text: string)
    | TextBlock(text: string)
    | Paragraph
    | CodeSpan(text: string)
    | FencedCodeBlock(language: string, lines: seq<string>)
    | Link(destination: string, title: string)
    | List(ordered: bool, start: int, tight: bool)
    | ListItem(offset: int)
    | Admonition(severity: string, title: string)
    | Unhandled(name: string)

  datatype Ast = Ast(kind: Kind, children: seq<Ast>)

  datatype Label =
    | DocumentToken
    | HeadingToken(level: int)
    | TextToken(text: string)
    | ParagraphToken
    | CodeSpanToken(text: string)
    | CodeBlockToken(language: string, text: string)
    | LinkToken(destination: string, title: string)
    | ListToken(ordered: bool, start: int, tight: bool)
    | ListItemToken(offset: int)
    | AdmonitionToken(severity: string, title: string)

  datatype Token = Token(tag: Label, tokens: seq<Token>)

  function Join(lines: seq<string>): string {
    if lines == [] then "" else Join(lines[..|lines| - 1]) + lines[|lines| - 1]
  }

  function LabelOf(k: Kind): Label
    requires !k.Unhandled?
  {
    match k
    case Document => DocumentToken
    case Heading(l) => HeadingToken(l)
    case Text(s) => TextToken(s)
    case TextBlock(s) => TextToken(s)
    case Paragraph => ParagraphToken
    case CodeSpan(s) => CodeSpanToken(s)
    case FencedCodeBlock(lang, lines) => CodeBlockToken(lang, Join(lines))
    case Link(d, t) => LinkToken(d, t)
    case List(o, s, t) => ListToken(o, s, t)
    case ListItem(o) => ListItemToken(o)
    case Admonition(l, t) => AdmonitionToken(l, t)
  }

  // ---------------------------------------------------------------- the cursor

  /**
   * The open tokens from the document down to the one the cursor is on, each holding its children
   * so far except the one that is open itself. New children are always last, so closing the
   * innermost token is what following the parent pointer comes to.
   */
  datatype Cursor = Cursor(spine: seq<Token>, stopped: bool)

  predicate IsCursor(c: Cursor) {
    c.spine != []
  }

  function Root(c: Cursor): Token
    requires IsCursor(c)
  {
    c.spine[|c.spine| - 1]
  }

  function WithRoot(c: Cursor, t: Token): Cursor
    requires IsCursor(c)
  {
    c.(spine := c.spine[..|c.spine| - 1] + [t])
  }

  function AddToken(parent: Token, child: Token): Token {
    parent.(tokens := parent.tokens + [child])
  }

  /** The cursor's last child is a Text token. */
  predicate EndsInText(ts: seq<Token>) {
    ts != [] && ts[|ts| - 1].tag.TextToken?
  }

  function Extended(t: Token, s: string): Token
    requires t.tag.TextToken?
  {
    t.(tag := TextToken(t.tag.text + s))
  }

  /** Entering a node of a handled kind. */
  function Entered(c: Cursor, k: Kind): (r: Cursor)
    requires IsCursor(c) && !k.Unhandled?
    ensures IsCursor(r)
  {
    if k.Document? then c
    else if k.Text? && EndsInText(Root(c).tokens) then
      var n := |Root(c).tokens| - 1;
      var open := WithRoot(c, Root(c).(tokens := Root(c).tokens[..n]));
      open.(spine := open.spine + [Extended(Root(c).tokens[n], k.text)])
    else c.(spine := c.spine + [Token(LabelOf(k), [])])
  }

  /** Leaving a node: the cursor goes to its parent, and having none ends the walk. */
  function Left(c: Cursor, k: Kind): (r: Cursor)
    requires IsCursor(c)
    ensures IsCursor(r)
  {
    if |c.spine| == 1 || k.Document? then c.(stopped := true)
    else
      var up := c.(spine := c.spine[..|c.spine| - 1]);
      WithRoot(up, AddToken(Root(up), Root(c)))
  }

  /** The depth-first walk: enter, children, leave; an unhandled kind skips its children only. */
  function Walked(c: Cursor, n: Ast): (r: Cursor)
    requires IsCursor(c)
    ensures IsCursor(r)
    decreases n, 0
  {
    if c.stopped then c
    else if n.kind.Unhandled? then Left(c, n.kind)
    else
      var inner := WalkedAll(Entered(c, n.kind), n.children);
      if inner.stopped then inner else Left(inner, n.kind)
  }

  function WalkedAll(c: Cursor, ns: seq<Ast>): (r: Cursor)
    requires IsCursor(c)
    ensures IsCursor(r)
    decreases ns, 1
  {
    if ns == [] then c else Walked(WalkedAll(c, ns[..|ns| - 1]), ns[|ns| - 1])
  }

  const START := Cursor([Token(DocumentToken, [])], false)

  /** The whole tree, all open tokens closed. */
  function Closed(spine: seq<Token>): Token
    requires spine != []
    decreases |spine|
  {
    if |spine| == 1 then spine[0]
    else
      var n := |spine| - 1;
      Closed(spine[..n - 1] + [AddToken(spine[n - 1], spine[n])])
  }

  /** `fix`: Text tokens that got children lose their own text. */
  function Fixed(t: Token): Token {
    Token(if t.tag.TextToken? && t.tokens != [] then TextToken("") else t.tag, FixedAll(t.tokens))
  }

  function FixedAll(ts: seq<Token>): (r: seq<Token>)
    ensures |r| == |ts|
  {
    if ts == [] then [] else FixedAll(ts[..|ts| - 1]) + [Fixed(ts[|ts| - 1])]
  }

  /** What the code computes from a document. */
  function Converted(n: Ast): Token {
    Fixed(Closed(Walked(START, n).spine))
  }

  class Converter {
    var spine: seq<Token>
    var stopped: bool

    function View(): Cursor
      reads this
    {
      Cursor(spine, stopped)
    }

    constructor ()
      ensures View() == START
    {
      spine, stopped := [Token(DocumentToken, [])], false;
    }

    method Enter(k: Kind)
      requires IsCursor(View()) && !k.Unhandled?
      modifies this
      ensures View() == Entered(old(View()), k)
    {
      var n := |spine| - 1;
      if k.Document? {
        return;
      }
      if k.Text? && spine[n].tokens != [] {
        var last := |spine[n].tokens| - 1;
        var prev := spine[n].tokens[last];
        if prev.tag.TextToken? {
          var text := prev.tag.text + k.text;
          spine := spine[..n] + [spine[n].(tokens := spine[n].tokens[..last])] + [prev.(tag := TextToken(text))];
          return;
        }
      }
      var tag;
      if k.FencedCodeBlock? {
        var text := "";
        for i := 0 to |k.lines|
          invariant text == Join(k.lines[..i])
        {
          assert k.lines[..i + 1][..i] == k.lines[..i];
          text := text + k.lines[i];
        }
        assert k.lines[..|k.lines|] == k.lines;
        tag := CodeBlockToken(k.language, text);
      } else {
        tag := LabelOf(k);
      }
      spine := spine + [Token(tag, [])];
    }

    method Leave(k: Kind)
      requires IsCursor(View())
      modifies this
      ensures View() == Left(old(View()), k)
    {
      var n := |spine| - 1;
      if n == 0 || k.Document? {
        stopped := true;
        return;
      }
      spine := spine[..n - 1] + [AddToken(spine[n - 1], spine[n])];
    }

    method Walk(n: Ast)
      requires IsCursor(View())
      modifies this
      ensures View() == Walked(old(View()), n)
      decreases n
    {
      if stopped {
        return;
      }
      if !n.kind.Unhandled? {
        Enter(n.kind);
        ghost var entered := View();
        for i := 0 to |n.children|
          invariant IsCursor(View()) && View() == WalkedAll(entered, n.children[..i])
        {
          assert n.children[..i + 1][..i] == n.children[..i];
          Walk(n.children[i]);
        }
        assert n.children[..|n.children|] == n.children;
        if stopped {
          return;
        }
      }
      Leave(n.kind);
    }
  }

  method Convert(n: Ast) returns (doc: Token)
    ensures doc == Converted(n)
  {
    var c := new Converter();
    c.Walk(n);
    doc := Fixed(Closed(c.spine));
  }

  // ---------------------------------------------------------------- the recursive conversion

  /** Only handled kinds below a node, and no document inside it. */
  predicate Handled(n: Ast) {
    !n.kind.Unhandled? && !n.kind.Document? && HandledAll(n.children)
  }

  predicate HandledAll(ns: seq<Ast>) {
    forall n :: n in ns ==> Handled(n)
  }

  function Conv(n: Ast): Token
    requires Handled(n)
    decreases n, 0
  {
    Token(LabelOf(n.kind), IntoAll([], n.children))
  }

  /** Appending the conversion of a node to its elder siblings, a Text to a Text among them. */
  function Into(ts: seq<Token>, n: Ast): seq<Token>
    requires Handled(n)
    decreases n, 1
  {
    if n.kind.Text? && EndsInText(ts) then
      var m := |ts| - 1;
      ts[..m] + [Token(TextToken(ts[m].tag.text + n.kind.text), IntoAll(ts[m].tokens, n.children))]
    else ts + [Conv(n)]
  }

  function IntoAll(ts: seq<Token>, ns: seq<Ast>): seq<Token>
    requires HandledAll(ns)
    decreases ns, 2
  {
    if ns == [] then ts else Into(IntoAll(ts, ns[..|ns| - 1]), ns[|ns| - 1])
  }

  /** Walking a subtree puts the cursor back where it was, with the subtree converted below it. */
  lemma {:induction false} WalkConverts(c: Cursor, n: Ast)
    requires IsCursor(c) && !c.stopped && Handled(n)
    ensures Walked(c, n) == WithRoot(c, Root(c).(tokens := Into(Root(c).tokens, n)))
    decreases n, 0
  {
    var e := Entered(c, n.kind);
    var ts := Root(c).tokens;
    WalkAllConverts(e, n.children);
    var inner := WalkedAll(e, n.children);
    assert |inner.spine| == |c.spine| + 1;
    if n.kind.Text? && EndsInText(ts) {
      var m := |ts| - 1;
      assert inner.spine[..|c.spine|] == WithRoot(c, Root(c).(tokens := ts[..m])).spine;
    } else {
      assert inner.spine[..|c.spine|] == c.spine;
    }
  }

  lemma {:induction false} WalkAllConverts(c: Cursor, ns: seq<Ast>)
    requires IsCursor(c) && !c.stopped && HandledAll(ns)
    ensures WalkedAll(c, ns) == WithRoot(c, Root(c).(tokens := IntoAll(Root(c).tokens, ns)))
    decreases ns, 1
  {
    if ns == [] {
      assert c.spine == c.spine[..|c.spine| - 1] + [Root(c)];
    } else {
      var m := |ns| - 1;
      assert forall x :: x in ns[..m] ==> x in ns;
      WalkAllConverts(c, ns[..m]);
      WalkConverts(WalkedAll(c, ns[..m]), ns[m]);
    }
  }

  /** On documents of handled kinds the cursor walk is the recursive conversion. */
  lemma {:induction false} WalkIsConversion(ns: seq<Ast>)
    requires HandledAll(ns)
    ensures Converted(Ast(Document, ns)) == Fixed(Token(DocumentToken, IntoAll([], ns)))
  {
    WalkAllConverts(START, ns);
  }
}
