/**
 * Nodes of kinds the walk does not handle: they push nothing, but the walk pops the cursor when it
 * leaves them. When this does harm, and what it does.
 */
module DocTreeUnhandled {
  import opened Collections
  import opened DocTree
  import opened DocTreeEvents

  // ---------------------------------------------------------------- where the two walks part

  type Position = seq<nat>

  function TokensAt(t: Token, p: Position): Option<seq<Token>> {
    if p == [] then Some(t.tokens)
    else if p[0] < |t.tokens| then TokensAt(t.tokens[p[0]], p[1..])
    else None
  }

  /** More tokens than `xs`, or a longer leaf text at the end. */
  predicate Grown(ts: seq<Token>, xs: seq<Token>) {
    || |ts| > |xs|
    || (|ts| == |xs| > 0 && LeafText(ts[|ts| - 1]) && LeafText(xs[|xs| - 1]) &&
        |ts[|ts| - 1].tag.text| > |xs[|xs| - 1].tag.text|)
  }

  predicate LeafText(t: Token) {
    t.tag.TextToken? && t.tokens == []
  }

  predicate GrownAt(t: Token, p: Position, xs: seq<Token>) {
    TokensAt(t, p).Some? && Grown(TokensAt(t, p).value, xs)
  }

  /** Trees that differ below a common position still do once texts with children are cleared. */
  lemma {:induction false} FixedDiffers(a: Token, b: Token, p: Position, xs: seq<Token>)
    requires GrownAt(a, p, xs) && TokensAt(b, p) == Some(xs)
    ensures Fixed(a) != Fixed(b)
    decreases p
  {
    if p == [] {
      if |a.tokens| == |xs| {
        var n := |xs| - 1;
        assert FixedAll(a.tokens)[n] == Fixed(a.tokens[n]) && FixedAll(xs)[n] == Fixed(xs[n]);
      }
    } else {
      FixedDiffers(a.tokens[p[0]], b.tokens[p[0]], p[1..], xs);
      FixedAt(a.tokens, p[0]);
      FixedAt(b.tokens, p[0]);
    }
  }

  lemma {:induction false} FixedAt(ts: seq<Token>, k: nat)
    requires k < |ts|
    ensures FixedAll(ts)[k] == Fixed(ts[k])
  {
    if k < |ts| - 1 {
      FixedAt(ts[..|ts| - 1], k);
    }
  }

  /** What will be at a position below the open tokens, as far as it is closed already. */
  function BuriedAt(spine: seq<Token>, p: Position): Option<seq<Token>>
    requires spine != []
  {
    if p == [] then None
    else if p[0] < |spine[0].tokens| then TokensAt(spine[0].tokens[p[0]], p[1..])
    else if p[0] == |spine[0].tokens| && |spine| > 1 then BuriedAt(spine[1..], p[1..])
    else None
  }

  /** The token at a position has grown beyond `xs`, or will when what is open in it closes. */
  predicate Reaches(spine: seq<Token>, p: Position, xs: seq<Token>)
    requires spine != []
  {
    if p == [] then (if |spine| > 1 then |spine[0].tokens| >= |xs| else Grown(spine[0].tokens, xs))
    else if p[0] < |spine[0].tokens| then GrownAt(spine[0].tokens[p[0]], p[1..], xs)
    else p[0] == |spine[0].tokens| && |spine| > 1 && Reaches(spine[1..], p[1..], xs)
  }

  /** Where the innermost open token is. */
  function PositionOf(spine: seq<Token>): Position
    requires spine != []
  {
    if |spine| == 1 then [] else [|spine[0].tokens|] + PositionOf(spine[1..])
  }

  lemma PopRest(spine: seq<Token>)
    requires |spine| > 2
    ensures Pop(spine)[0] == spine[0] && Pop(spine)[1..] == Pop(spine[1..])
  {
  }

  lemma WriteRest(spine: seq<Token>, s: string)
    requires |spine| > 1
    ensures WriteOn(spine, s)[0] == spine[0] && WriteOn(spine, s)[1..] == WriteOn(spine[1..], s)
  {
  }

  // what is buried stays as it is

  lemma {:induction false} BuriedPush(spine: seq<Token>, t: Token, p: Position)
    requires spine != [] && BuriedAt(spine, p).Some?
    ensures BuriedAt(spine + [t], p) == BuriedAt(spine, p)
    decreases |spine|
  {
    if p[0] == |spine[0].tokens| {
      assert (spine + [t])[1..] == spine[1..] + [t];
      BuriedPush(spine[1..], t, p[1..]);
    }
  }

  lemma {:induction false} BuriedWrite(spine: seq<Token>, s: string, p: Position)
    requires spine != [] && BuriedAt(spine, p).Some?
    ensures BuriedAt(WriteOn(spine, s), p) == BuriedAt(spine, p)
    decreases |spine|
  {
    if |spine| > 1 {
      WriteRest(spine, s);
      if p[0] == |spine[0].tokens| {
        BuriedWrite(spine[1..], s, p[1..]);
      }
    } else {
      assert WriteOn(spine, s) == [spine[0].(tokens := Written(spine[0].tokens, s))];
    }
  }

  lemma {:induction false} BuriedPop(spine: seq<Token>, p: Position)
    requires |spine| >= 2 && BuriedAt(spine, p).Some?
    ensures BuriedAt(Pop(spine), p) == BuriedAt(spine, p)
    decreases |spine|
  {
    if |spine| == 2 {
      assert Pop(spine) == [AddToken(spine[0], spine[1])];
    } else {
      PopRest(spine);
      if p[0] == |spine[0].tokens| {
        BuriedPop(spine[1..], p[1..]);
      }
    }
  }

  lemma {:induction false} PopBuries(spine: seq<Token>)
    requires |spine| >= 2
    ensures BuriedAt(Pop(spine), PositionOf(spine)) == Some(spine[|spine| - 1].tokens)
    decreases |spine|
  {
    if |spine| == 2 {
      assert Pop(spine) == [AddToken(spine[0], spine[1])];
    } else {
      PopRest(spine);
      PopBuries(spine[1..]);
    }
  }

  lemma {:induction false} BuriedCloses(spine: seq<Token>, p: Position)
    requires spine != [] && BuriedAt(spine, p).Some?
    ensures TokensAt(Closed(spine), p) == BuriedAt(spine, p)
    decreases |spine|
  {
    if |spine| > 1 {
      BuriedPop(spine, p);
      BuriedCloses(Pop(spine), p);
    }
  }

  /** The tokens at the position are final: buried, or the walk has stopped. */
  predicate Frozen(c: Cursor, p: Position, xs: seq<Token>)
    requires IsCursor(c)
  {
    if c.stopped then TokensAt(Closed(c.spine), p) == Some(xs) else BuriedAt(c.spine, p) == Some(xs)
  }

  lemma {:induction false} FrozenStays(c: Cursor, es: seq<Event>, p: Position, xs: seq<Token>)
    requires IsCursor(c) && Frozen(c, p, xs)
    ensures TokensAt(Closed(Play(c, es).spine), p) == Some(xs)
    decreases |es|
  {
    if es == [] {
      if !c.stopped { BuriedCloses(c.spine, p); }
    } else {
      FrozenStep(c, es[0], p, xs);
      FrozenStays(Step(c, es[0]), es[1..], p, xs);
    }
  }

  lemma FrozenStep(c: Cursor, e: Event, p: Position, xs: seq<Token>)
    requires IsCursor(c) && Frozen(c, p, xs)
    ensures Frozen(Step(c, e), p, xs)
  {
    if !c.stopped {
      match e
      case Push(tag) => BuriedPush(c.spine, Token(tag, []), p);
      case Write(s) => BuriedWrite(c.spine, s, p);
      case _ =>
        BuriedCloses(c.spine, p);
        if |c.spine| > 1 { BuriedPop(c.spine, p); }
    }
  }

  // what has grown stays grown

  lemma GrownWrite(ts: seq<Token>, xs: seq<Token>, s: string)
    requires Grown(ts, xs)
    ensures Grown(Written(ts, s), xs)
  {
  }

  lemma {:induction false} ReachesPush(spine: seq<Token>, t: Token, p: Position, xs: seq<Token>)
    requires spine != [] && Reaches(spine, p, xs)
    ensures Reaches(spine + [t], p, xs)
    decreases |spine|
  {
    if |spine| > 1 && p != [] && p[0] == |spine[0].tokens| {
      assert (spine + [t])[1..] == spine[1..] + [t];
      ReachesPush(spine[1..], t, p[1..], xs);
    }
  }

  lemma {:induction false} ReachesWrite(spine: seq<Token>, s: string, p: Position, xs: seq<Token>)
    requires spine != [] && Reaches(spine, p, xs)
    ensures Reaches(WriteOn(spine, s), p, xs)
    decreases |spine|
  {
    if |spine| > 1 {
      WriteRest(spine, s);
      if p != [] && p[0] == |spine[0].tokens| {
        ReachesWrite(spine[1..], s, p[1..], xs);
      }
    } else {
      assert WriteOn(spine, s) == [spine[0].(tokens := Written(spine[0].tokens, s))];
      if p == [] { GrownWrite(spine[0].tokens, xs, s); }
    }
  }

  lemma {:induction false} ReachesPop(spine: seq<Token>, p: Position, xs: seq<Token>)
    requires |spine| >= 2 && Reaches(spine, p, xs)
    ensures Reaches(Pop(spine), p, xs)
    decreases |spine|
  {
    if |spine| == 2 {
      assert Pop(spine) == [AddToken(spine[0], spine[1])];
      if p != [] && p[0] == |spine[0].tokens| {
        assert spine[1..] == [spine[1]];
      }
    } else {
      PopRest(spine);
      if p != [] && p[0] == |spine[0].tokens| {
        ReachesPop(spine[1..], p[1..], xs);
      }
    }
  }

  lemma {:induction false} ReachesCloses(spine: seq<Token>, p: Position, xs: seq<Token>)
    requires spine != [] && Reaches(spine, p, xs)
    ensures GrownAt(Closed(spine), p, xs)
    decreases |spine|
  {
    if |spine| > 1 {
      ReachesPop(spine, p, xs);
      ReachesCloses(Pop(spine), p, xs);
    }
  }

  lemma {:induction false} ReachesStays(c: Cursor, es: seq<Event>, p: Position, xs: seq<Token>)
    requires IsCursor(c) && Reaches(c.spine, p, xs)
    ensures GrownAt(Closed(Play(c, es).spine), p, xs)
    decreases |es|
  {
    if es == [] {
      ReachesCloses(c.spine, p, xs);
    } else {
      if !c.stopped {
        match es[0]
        case Push(tag) => ReachesPush(c.spine, Token(tag, []), p, xs);
        case Write(s) => ReachesWrite(c.spine, s, p, xs);
        case _ => if |c.spine| > 1 { ReachesPop(c.spine, p, xs); }
      }
      ReachesStays(Step(c, es[0]), es[1..], p, xs);
    }
  }

  /** Entering something makes the token the cursor is on grow. */
  lemma {:induction false} EnteringReaches(spine: seq<Token>, e: Event)
    requires spine != [] && (e.Push? || (e.Write? && e.text != "" && LeafLast(spine[|spine| - 1].tokens)))
    ensures Reaches(Step(Cursor(spine, false), e).spine, PositionOf(spine), spine[|spine| - 1].tokens)
    decreases |spine|
  {
    var after := Step(Cursor(spine, false), e).spine;
    if |spine| == 1 {
      if e.Write? { assert after == [spine[0].(tokens := Written(spine[0].tokens, e.text))]; }
    } else {
      if e.Write? {
        WriteRest(spine, e.text);
      } else {
        assert (spine + [Token(e.tag, [])])[1..] == spine[1..] + [Token(e.tag, [])];
      }
      EnteringReaches(spine[1..], e);
    }
  }

  /** The last token, if a text, has no children. */
  predicate LeafLast(ts: seq<Token>) {
    EndsInText(ts) ==> LeafText(ts[|ts| - 1])
  }

  // ---------------------------------------------------------------- the walk of the stripped tree

  /** Playing the events never stops, and texts only join texts without children. */
  predicate Good(c: Cursor, es: seq<Event>)
    requires IsCursor(c)
    decreases |es|
  {
    es != [] ==>
      && (es[0].Write? ==> LeafLast(Root(c).tokens))
      && !Step(c, es[0]).stopped && Good(Step(c, es[0]), es[1..])
  }

  lemma {:induction false} GoodBoth(c: Cursor, es: seq<Event>, fs: seq<Event>)
    requires IsCursor(c) && Good(c, es) && Good(Play(c, es), fs)
    ensures Good(c, es + fs)
    decreases |es|
  {
    if es == [] {
      assert es + fs == fs;
    } else {
      assert (es + fs)[1..] == es[1..] + fs;
      GoodBoth(Step(c, es[0]), es[1..], fs);
    }
  }

  /** A handled subtree plays well and puts the cursor back. */
  lemma {:induction false} HandledIsGood(c: Cursor, n: Ast)
    requires IsCursor(c) && !c.stopped && Sound(n) && Handled(n)
    requires n.kind.Text? ==> LeafLast(Root(c).tokens)
    ensures Good(c, Events(n)) && Play(c, Events(n)) == Walked(c, n)
    ensures !n.kind.TextBlock? ==> LeafLast(Root(Walked(c, n)).tokens)
    decreases n, 0
  {
    WalkPlays(c, n);
    WalkConverts(c, n);
    if n.kind.Text? {
      TextWrites(c, n.kind);
      assert Good(c, [Write(n.kind.text)]);
    } else {
      var push := Push(LabelOf(n.kind));
      var e := Step(c, push);
      PlayOne(c, push);
      HandledAllIsGood(e, n.children);
      var inner := Play(e, EventsAll(n.children));
      assert |inner.spine| == |c.spine| + 1 && !inner.stopped;
      assert Good(c, [push]);
      GoodBoth(c, [push], EventsAll(n.children));
      PlayBoth(c, [push], EventsAll(n.children));
      assert Good(inner, [Out]);
      GoodBoth(c, [push] + EventsAll(n.children), [Out]);
    }
  }

  lemma {:induction false} HandledStripped(ns: seq<Ast>)
    requires HandledAll(ns)
    ensures StrippedAll(ns) == ns
    decreases ns
  {
    if ns != [] {
      var k := |ns| - 1;
      assert ns[k] in ns && forall n :: n in ns[..k] ==> n in ns;
      HandledStripped(ns[..k]);
      HandledStripped(ns[k].children);
    }
  }

  lemma {:induction false} HandledAllIsGood(c: Cursor, ns: seq<Ast>)
    requires IsCursor(c) && !c.stopped && HandledAll(ns) && SoundAll(ns)
    requires Root(c).tokens == []
    ensures Good(c, EventsAll(ns)) && Play(c, EventsAll(ns)) == WalkedAll(c, ns)
    ensures !WalkedAll(c, ns).stopped && |WalkedAll(c, ns).spine| == |c.spine|
    ensures ns == [] || !ns[|ns| - 1].kind.TextBlock? ==> LeafLast(Root(WalkedAll(c, ns)).tokens)
    decreases ns, 1
  {
    WalkAllPlays(c, ns);
    WalkAllConverts(c, ns);
    if ns != [] {
      var k := |ns| - 1;
      SoundFront(ns);
      assert ns[k] in ns && forall n :: n in ns[..k] ==> n in ns;
      HandledStripped(ns);
      HandledAllIsGood(c, ns[..k]);
      HandledIsGood(WalkedAll(c, ns[..k]), ns[k]);
      GoodBoth(c, EventsAll(ns[..k]), Events(ns[k]));
    }
  }

  // ---------------------------------------------------------------- the condition

  /** The cursor after `q` more pops. */
  function Pops(c: Cursor, q: nat): (r: Cursor)
    requires IsCursor(c)
    ensures IsCursor(r)
  {
    if q == 0 then c else Step(Pops(c, q - 1), Out)
  }

  lemma {:induction false} PopsFirst(c: Cursor, q: nat)
    requires IsCursor(c)
    ensures Step(Pops(c, q), Out) == Pops(Step(c, Out), q)
  {
    if q > 0 {
      PopsFirst(c, q - 1);
    }
  }

  lemma {:induction false} PopsFreeze(c: Cursor, q: nat)
    requires IsCursor(c) && !c.stopped && q > 0
    ensures Frozen(Pops(c, q), PositionOf(c.spine), Root(c).tokens)
  {
    if q == 1 {
      assert Pops(c, 0) == c;
      if |c.spine| > 1 { PopBuries(c.spine); }
    } else {
      PopsFreeze(c, q - 1);
      FrozenStep(Pops(c, q - 1), Out, PositionOf(c.spine), Root(c).tokens);
    }
  }

  ghost predicate Parted(a: Token, b: Token) {
    exists p: Position, xs :: GrownAt(a, p, xs) && TokensAt(b, p) == Some(xs)
  }

  /** One walk is some pops ahead of the other when both come to something to enter. */
  lemma {:induction false} AheadParts(c: Cursor, q: nat, es: seq<Event>)
    requires IsCursor(c) && !c.stopped && q > 0 && Good(c, Strip(es)) && !Quiet(es) && NoBlanks(es)
    ensures Parted(Closed(Play(c, Strip(es)).spine), Closed(Play(Pops(c, q), es).spine))
    decreases |es|
  {
    var e, rest := es[0], es[1..];
    if e.Extra? {
      assert Strip(es) == Strip(rest);
      AheadParts(c, q + 1, rest);
    } else {
      assert Strip(es) == [e] + Strip(rest) && Strip(es)[1..] == Strip(rest);
      if e.Out? {
        PopsFirst(c, q);
        AheadParts(Step(c, Out), q, rest);
      } else {
        var p, xs := PositionOf(c.spine), Root(c).tokens;
        PopsFreeze(c, q);
        FrozenStays(Pops(c, q), es, p, xs);
        assert c == Cursor(c.spine, false);
        EnteringReaches(c.spine, e);
        ReachesStays(Step(c, e), Strip(rest), p, xs);
      }
    }
  }

  lemma {:induction false} NotTrailingParts(c: Cursor, es: seq<Event>)
    requires IsCursor(c) && !c.stopped && Good(c, Strip(es)) && !Trails(es) && BlanksFirst(es)
    ensures Parted(Closed(Play(c, Strip(es)).spine), Closed(Play(c, es).spine))
    decreases |es|
  {
    var e, rest := es[0], es[1..];
    if e.Extra? {
      assert Strip(es) == Strip(rest);
      assert Pops(c, 0) == c && Pops(c, 1) == Step(c, Extra);
      AheadParts(c, 1, rest);
    } else {
      assert Strip(es) == [e] + Strip(rest) && Strip(es)[1..] == Strip(rest);
      NotTrailingParts(Step(c, e), rest);
    }
  }

  lemma ConvertedCloses(ns: seq<Ast>)
    ensures Converted(Ast(Document, ns)) == Fixed(Closed(WalkedAll(START, ns).spine))
  {
  }

  /**
   * With unhandled nodes anywhere in a document, and no empty Text after one, the walk converts what
   * is left when they are left out exactly when no handled node comes after an unhandled one in
   * document order.
   */
  lemma {:induction false} UnhandledHarmlessIff(ns: seq<Ast>)
    requires SoundAll(ns) && NoBlankFollows(MarksAll(ns))
    ensures HandledAll(StrippedAll(ns))
    ensures Converted(Ast(Document, ns)) == Fixed(Token(DocumentToken, IntoAll([], StrippedAll(ns)))) <==>
      NoneFollows(MarksAll(ns))
  {
    var es, ms := EventsAll(ns), StrippedAll(ns);
    StrippedHandled(ns);
    WalkIsConversion(ms);
    ConvertedCloses(ns);
    ConvertedCloses(ms);
    WalkAllPlays(START, ns);
    WalkAllPlays(START, ms);
    StrippedEventsAll(ns);
    VisibleMarksAll(ns);
    TrailsVisible(es);
    if Trails(es) {
      TrailingCloses(START, es);
    } else {
      HandledAllIsGood(START, ms);
      BlanksFirstVisible(es);
      NotTrailingParts(START, es);
      var p: Position, xs :|
        GrownAt(Closed(Play(START, Strip(es)).spine), p, xs) && TokensAt(Closed(Play(START, es).spine), p) == Some(xs);
      FixedDiffers(Closed(Play(START, Strip(es)).spine), Closed(Play(START, es).spine), p, xs);
    }
  }

  // ---------------------------------------------------------------- unhandled kinds

  lemma {:induction false} WalkedAllConcat(c: Cursor, ns: seq<Ast>, ms: seq<Ast>)
    requires IsCursor(c)
    ensures WalkedAll(c, ns + ms) == WalkedAll(WalkedAll(c, ns), ms)
    decreases |ms|
  {
    if ms == [] {
      assert ns + ms == ns;
    } else {
      assert (ns + ms)[..|ns + ms| - 1] == ns + ms[..|ms| - 1];
      WalkedAllConcat(c, ns, ms[..|ms| - 1]);
    }
  }

  lemma {:induction false} StoppedStays(c: Cursor, ns: seq<Ast>)
    requires IsCursor(c) && c.stopped
    ensures WalkedAll(c, ns) == c
    decreases |ns|
  {
    if ns != [] {
      StoppedStays(c, ns[..|ns| - 1]);
    }
  }

  lemma WalkedOne(c: Cursor, n: Ast)
    requires IsCursor(c)
    ensures WalkedAll(c, [n]) == Walked(c, n)
  {
    assert [n][..0] == [];
  }

  /** A node of an unhandled kind at the top of a document ends it: everything after it is dropped. */
  lemma {:induction false} UnhandledTruncates(pre: seq<Ast>, u: Ast, post: seq<Ast>)
    requires HandledAll(pre) && u.kind.Unhandled?
    ensures Converted(Ast(Document, pre + [u] + post)) == Converted(Ast(Document, pre))
  {
    WalkAllConverts(START, pre);
    WalkedAllConcat(START, pre + [u], post);
    WalkedAllConcat(START, pre, [u]);
    var c := WalkedAll(START, pre);
    WalkedOne(c, u);
    StoppedStays(Left(c, u.kind), post);
  }

  /** The unhandled node's pop closes the node it is in, and the later children go to the document. */
  lemma {:induction false} SiblingsEscape(c: Cursor, k: Kind, pre: seq<Ast>, u: Ast, post: seq<Ast>)
    requires |c.spine| == 1 && !c.stopped && u.kind.Unhandled?
    requires !k.Unhandled? && !k.Document? && HandledAll(pre) && HandledAll(post)
    ensures Handled(Ast(k, pre))
    ensures Walked(c, Ast(k, pre + [u] + post)) ==
      Cursor([c.spine[0].(tokens := IntoAll(Into(c.spine[0].tokens, Ast(k, pre)), post))], true)
  {
    var inside, node := Entered(c, k), Ast(k, pre);
    var up := Walked(c, node);
    assert up == Cursor([c.spine[0].(tokens := Into(c.spine[0].tokens, node))], false) by {
      WalkConverts(c, node);
    }
    WalkedAllConcat(inside, pre, [u]);
    WalkedAllConcat(inside, pre + [u], post);
    WalkedOne(WalkedAll(inside, pre), u);
    WalkAllConverts(inside, pre);
    assert WalkedAll(inside, pre + [u]) == up;
    assert WalkedAll(up, post) == Cursor([up.spine[0].(tokens := IntoAll(up.spine[0].tokens, post))], false) by {
      WalkAllConverts(up, post);
    }
  }

  /**
   * Inside a top-level node it makes the later children escape into the document, and drops all
   * that follows that node.
   */
  lemma {:induction false} UnhandledLetsSiblingsEscape(
      front: seq<Ast>, k: Kind, pre: seq<Ast>, u: Ast, post: seq<Ast>, rest: seq<Ast>)
    requires !k.Unhandled? && !k.Document? && u.kind.Unhandled?
    requires HandledAll(front) && HandledAll(pre) && HandledAll(post)
    ensures Handled(Ast(k, pre))
    ensures Converted(Ast(Document, front + [Ast(k, pre + [u] + post)] + rest)) ==
      Fixed(Token(DocumentToken, IntoAll(Into(IntoAll([], front), Ast(k, pre)), post)))
  {
    var node := Ast(k, pre + [u] + post);
    var c := WalkedAll(START, front);
    assert c == Cursor([Token(DocumentToken, IntoAll([], front))], false) by {
      WalkAllConverts(START, front);
    }
    SiblingsEscape(c, k, pre, u, post);
    WalkedOne(c, node);
    WalkedAllConcat(START, front, [node]);
    WalkedAllConcat(START, front + [node], rest);
    StoppedStays(Walked(c, node), rest);
  }

  /** An empty text that is cut off may leave no trace. */
  lemma {:induction false} EmptyTextLeavesNoTrace(front: seq<Ast>, u: Ast)
    requires HandledAll(front) && EndsInText(IntoAll([], front)) && u.kind.Unhandled?
    ensures
      var empty := Ast(Text(""), []);
      && Converted(Ast(Document, front + [u] + [empty])) == Converted(Ast(Document, front + [empty]))
      && !NoneFollows(MarksAll(front + [u] + [empty]))
  {
    var empty := Ast(Text(""), []);
    EmptyTextJoins(front);
    UnhandledTruncates(front, u, [empty]);
    WalkIsConversion(front);
    WalkIsConversion(front + [empty]);
    assert (front + [u])[..|front|] == front && (front + [u] + [empty])[..|front| + 1] == front + [u];
    assert Marks(empty) == [Blank] && Marks(u) == [Skipped];
    var m := |MarksAll(front)|;
    assert MarksAll(front + [u] + [empty])[m] == Skipped && MarksAll(front + [u] + [empty])[m + 1] == Blank;
  }

  lemma EmptyTextJoins(front: seq<Ast>)
    requires HandledAll(front) && EndsInText(IntoAll([], front))
    ensures IntoAll([], front + [Ast(Text(""), [])]) == IntoAll([], front)
  {
    var ts := IntoAll([], front);
    assert (front + [Ast(Text(""), [])])[..|front|] == front;
    assert ts[|ts| - 1].tag.text + "" == ts[|ts| - 1].tag.text;
    assert IntoAll(ts[|ts| - 1].tokens, []) == ts[|ts| - 1].tokens;
  }

  /**
   * And one that escapes may stand in for another one that is dropped, though both would have left a
   * trace: so the condition on handled nodes is one for documents in which no empty Text follows an
   * unhandled node.
   */
  lemma {:induction false} EmptyTextStandsIn(text: string, u: Ast)
    requires u.kind.Unhandled?
    ensures
      var a, empty := Ast(Text(text), []), Ast(Text(""), []);
      && Converted(Ast(Document, [Ast(Paragraph, [a] + [u] + [empty])] + [empty])) ==
           Converted(Ast(Document, [Ast(Paragraph, [a] + [empty])] + [empty]))
      && Converted(Ast(Document, [Ast(Paragraph, [a] + [empty])] + [empty])) !=
           Converted(Ast(Document, [Ast(Paragraph, [a] + [empty])]))
  {
    var a, empty := Ast(Text(text), []), Ast(Text(""), []);
    var broken, whole := Ast(Paragraph, [a] + [u] + [empty]), Ast(Paragraph, [a] + [empty]);
    assert HandledAll([a]) && HandledAll([empty]) && [a][..0] == [] && [empty][..0] == [];
    assert [] + [broken] + [empty] == [broken] + [empty];
    UnhandledLetsSiblingsEscape([], Paragraph, [a], u, [empty], [empty]);
    assert [whole][..0] == [] && ([whole] + [empty])[..1] == [whole];
    assert IntoAll([], [a]) == Into(IntoAll([], []), a) == [Conv(a)];
    EmptyTextJoins([a]);
    assert Conv(whole) == Conv(Ast(Paragraph, [a]));
    WalkIsConversion([whole] + [empty]);
    WalkIsConversion([whole]);
  }
}
