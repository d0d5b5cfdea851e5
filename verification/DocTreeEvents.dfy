/** The cursor walk over a document as a list of events, and unhandled nodes among them. */
module DocTreeEvents {
  import opened DocTree

  // ---------------------------------------------------------------- leaving unhandled nodes out

  /** The tree without its unhandled nodes and what is below them. */
  function Stripped(n: Ast): Ast
    decreases n, 0
  {
    Ast(n.kind, StrippedAll(n.children))
  }

  function StrippedAll(ns: seq<Ast>): seq<Ast>
    decreases ns, 1
  {
    if ns == [] then []
    else
      var n, front := ns[|ns| - 1], StrippedAll(ns[..|ns| - 1]);
      if n.kind.Unhandled? then front else front + [Stripped(n)]
  }

  /** What a node is to the walk; `Blank` is an empty Text, `Skipped` is of an unhandled kind. */
  datatype Mark = Kept | Blank | Skipped

  /** The nodes the walk comes to, in document order. */
  function Marks(n: Ast): seq<Mark>
    decreases n, 0
  {
    if n.kind.Unhandled? then [Skipped]
    else [if n.kind == Text("") then Blank else Kept] + MarksAll(n.children)
  }

  function MarksAll(ns: seq<Ast>): seq<Mark>
    decreases ns, 1
  {
    if ns == [] then [] else MarksAll(ns[..|ns| - 1]) + Marks(ns[|ns| - 1])
  }

  /** No handled node comes after an unhandled one. */
  predicate NoneFollows(marks: seq<Mark>) {
    forall i, j :: 0 <= i < j < |marks| && marks[i].Skipped? ==> marks[j].Skipped?
  }

  /** No empty Text does. */
  predicate NoBlankFollows(marks: seq<Mark>) {
    forall i, j :: 0 <= i < j < |marks| && marks[i].Skipped? ==> !marks[j].Blank?
  }

  /**
   * Apart from unhandled nodes: no document inside, Text nodes without children, and no Text right
   * after a TextBlock.
   */
  predicate Sound(n: Ast) {
    n.kind.Unhandled? || (!n.kind.Document? && (n.kind.Text? ==> n.children == []) && SoundAll(n.children))
  }

  predicate SoundAll(ns: seq<Ast>) {
    && (forall n :: n in ns ==> Sound(n))
    && Unmixed(StrippedAll(ns))
  }

  predicate Unmixed(ns: seq<Ast>) {
    forall i :: 0 < i < |ns| && ns[i].kind.Text? ==> !ns[i - 1].kind.TextBlock?
  }

  // ---------------------------------------------------------------- the walk as a list of events

  /** `Extra` is the pop an unhandled node causes, `Out` any other. */
  datatype Event = Push(tag: Label) | Write(text: string) | Out | Extra

  function Written(ts: seq<Token>, s: string): seq<Token> {
    if EndsInText(ts) then ts[..|ts| - 1] + [Extended(ts[|ts| - 1], s)] else ts + [Token(TextToken(s), [])]
  }

  /** The innermost token closed. */
  function Pop(spine: seq<Token>): seq<Token>
    requires |spine| >= 2
  {
    var n := |spine| - 1;
    spine[..n - 1] + [AddToken(spine[n - 1], spine[n])]
  }

  function WriteOn(spine: seq<Token>, s: string): seq<Token>
    requires spine != []
  {
    var n := |spine| - 1;
    spine[..n] + [spine[n].(tokens := Written(spine[n].tokens, s))]
  }

  function Step(c: Cursor, e: Event): (r: Cursor)
    requires IsCursor(c)
    ensures IsCursor(r)
  {
    if c.stopped then c
    else
      match e
      case Push(tag) => c.(spine := c.spine + [Token(tag, [])])
      case Write(s) => c.(spine := WriteOn(c.spine, s))
      case _ => if |c.spine| == 1 then c.(stopped := true) else c.(spine := Pop(c.spine))
  }

  function Play(c: Cursor, es: seq<Event>): (r: Cursor)
    requires IsCursor(c)
    ensures IsCursor(r)
    decreases |es|
  {
    if es == [] then c else Play(Step(c, es[0]), es[1..])
  }

  function Events(n: Ast): seq<Event>
    decreases n, 0
  {
    if n.kind.Unhandled? then [Extra]
    else if n.kind.Text? then [Write(n.kind.text)]
    else [Push(LabelOf(n.kind))] + EventsAll(n.children) + [Out]
  }

  function EventsAll(ns: seq<Ast>): seq<Event>
    decreases ns, 1
  {
    if ns == [] then [] else EventsAll(ns[..|ns| - 1]) + Events(ns[|ns| - 1])
  }

  lemma {:induction false} PlayBoth(c: Cursor, es: seq<Event>, fs: seq<Event>)
    requires IsCursor(c)
    ensures Play(c, es + fs) == Play(Play(c, es), fs)
    decreases |es|
  {
    if es == [] {
      assert es + fs == fs;
    } else {
      assert (es + fs)[1..] == es[1..] + fs;
      PlayBoth(Step(c, es[0]), es[1..], fs);
    }
  }

  lemma PlayOne(c: Cursor, e: Event)
    requires IsCursor(c)
    ensures Play(c, [e]) == Step(c, e)
  {
  }

  lemma {:induction false} SoundFront(ns: seq<Ast>)
    requires ns != [] && SoundAll(ns)
    ensures SoundAll(ns[..|ns| - 1]) && Sound(ns[|ns| - 1])
  {
    var k := |ns| - 1;
    assert ns[k] in ns && forall n :: n in ns[..k] ==> n in ns;
    if !ns[k].kind.Unhandled? {
      assert StrippedAll(ns)[..|StrippedAll(ns)| - 1] == StrippedAll(ns[..k]);
      forall i | 0 < i < |StrippedAll(ns[..k])| && StrippedAll(ns[..k])[i].kind.Text?
        ensures !StrippedAll(ns[..k])[i - 1].kind.TextBlock?
      {
        assert StrippedAll(ns)[i] == StrippedAll(ns[..k])[i] && StrippedAll(ns)[i - 1] == StrippedAll(ns[..k])[i - 1];
      }
    }
  }

  /** The walk plays the tree's events. */
  lemma {:induction false} WalkPlays(c: Cursor, n: Ast)
    requires IsCursor(c) && Sound(n)
    ensures Walked(c, n) == Play(c, Events(n))
    decreases n, 0
  {
    if c.stopped {
      StoppedPlays(c, Events(n));
    } else if n.kind.Unhandled? {
      PlayOne(c, Extra);
      LeavingPops(c, n.kind);
    } else if n.kind.Text? {
      PlayOne(c, Write(n.kind.text));
      TextWrites(c, n.kind);
    } else {
      var push := [Push(LabelOf(n.kind))];
      var inner := Play(Entered(c, n.kind), EventsAll(n.children));
      PlayOne(c, push[0]);
      assert Entered(c, n.kind) == Step(c, push[0]);
      WalkAllPlays(Entered(c, n.kind), n.children);
      PlayBoth(c, push, EventsAll(n.children));
      PlayBoth(c, push + EventsAll(n.children), [Out]);
      PlayOne(inner, Out);
      if !inner.stopped { LeavingPops(inner, n.kind); }
    }
  }

  lemma LeavingPops(c: Cursor, k: Kind)
    requires IsCursor(c) && !c.stopped && !k.Document?
    ensures Left(c, k) == Step(c, Out)
  {
    if |c.spine| > 1 {
      assert Left(c, k).spine == Pop(c.spine);
    }
  }

  lemma TextWrites(c: Cursor, k: Kind)
    requires IsCursor(c) && !c.stopped && k.Text?
    ensures !Entered(c, k).stopped && Left(Entered(c, k), k) == Step(c, Write(k.text))
  {
    LeavingPops(Entered(c, k), k);
    assert Pop(Entered(c, k).spine) == WriteOn(c.spine, k.text);
  }

  lemma {:induction false} WalkAllPlays(c: Cursor, ns: seq<Ast>)
    requires IsCursor(c) && SoundAll(ns)
    ensures WalkedAll(c, ns) == Play(c, EventsAll(ns))
    decreases ns, 1
  {
    if ns != [] {
      var k := |ns| - 1;
      SoundFront(ns);
      WalkAllPlays(c, ns[..k]);
      WalkPlays(WalkedAll(c, ns[..k]), ns[k]);
      PlayBoth(c, EventsAll(ns[..k]), Events(ns[k]));
    }
  }

  lemma {:induction false} StoppedPlays(c: Cursor, es: seq<Event>)
    requires IsCursor(c) && c.stopped
    ensures Play(c, es) == c
    decreases |es|
  {
    if es != [] {
      StoppedPlays(c, es[1..]);
    }
  }

  // ---------------------------------------------------------------- events of the stripped tree

  function Strip(es: seq<Event>): seq<Event> {
    if es == [] then [] else (if es[0].Extra? then [] else [es[0]]) + Strip(es[1..])
  }

  lemma {:induction false} StripBoth(es: seq<Event>, fs: seq<Event>)
    ensures Strip(es + fs) == Strip(es) + Strip(fs)
    decreases |es|
  {
    if es == [] {
      assert es + fs == fs;
    } else {
      assert (es + fs)[1..] == es[1..] + fs;
      StripBoth(es[1..], fs);
    }
  }

  lemma {:induction false} StrippedEvents(n: Ast)
    requires !n.kind.Unhandled?
    ensures Strip(Events(n)) == Events(Stripped(n))
    decreases n, 0
  {
    if !n.kind.Text? {
      var push := [Push(LabelOf(n.kind))];
      StrippedEventsAll(n.children);
      StripBoth(push, EventsAll(n.children));
      StripBoth(push + EventsAll(n.children), [Out]);
      assert Strip(push) == push && Strip([Out]) == [Out];
    }
  }

  lemma {:induction false} StrippedEventsAll(ns: seq<Ast>)
    ensures Strip(EventsAll(ns)) == EventsAll(StrippedAll(ns))
    decreases ns, 1
  {
    if ns != [] {
      var k := |ns| - 1;
      StrippedEventsAll(ns[..k]);
      StripBoth(EventsAll(ns[..k]), Events(ns[k]));
      if ns[k].kind.Unhandled? {
        assert Strip([Extra]) == [];
      } else {
        StrippedEvents(ns[k]);
        assert StrippedAll(ns)[..|StrippedAll(ns)| - 1] == StrippedAll(ns[..k]);
      }
    }
  }

  /** What is stripped of unhandled nodes is handled, and still sound. */
  lemma {:induction false} StrippedHandled(ns: seq<Ast>)
    requires SoundAll(ns)
    ensures HandledAll(StrippedAll(ns)) && SoundAll(StrippedAll(ns)) && StrippedAll(StrippedAll(ns)) == StrippedAll(ns)
    decreases ns
  {
    if ns != [] {
      var k := |ns| - 1;
      SoundFront(ns);
      StrippedHandled(ns[..k]);
      if !ns[k].kind.Unhandled? {
        StrippedHandled(ns[k].children);
        var ms := StrippedAll(ns);
        assert ms[..|ms| - 1] == StrippedAll(ns[..k]);
        assert Stripped(Stripped(ns[k])) == Stripped(ns[k]);
        assert ns[k].kind.Text? ==> StrippedAll(ns[k].children) == [];
      }
    }
  }

  // ---------------------------------------------------------------- document order

  function MarkOf(e: Event): Mark {
    if e.Extra? then Skipped else if e == Write("") then Blank else Kept
  }

  function Visible(es: seq<Event>): seq<Mark> {
    if es == [] then [] else (if es[0].Out? then [] else [MarkOf(es[0])]) + Visible(es[1..])
  }

  lemma {:induction false} VisibleBoth(es: seq<Event>, fs: seq<Event>)
    ensures Visible(es + fs) == Visible(es) + Visible(fs)
    decreases |es|
  {
    if es == [] {
      assert es + fs == fs;
    } else {
      assert (es + fs)[1..] == es[1..] + fs;
      VisibleBoth(es[1..], fs);
    }
  }

  lemma {:induction false} VisibleMarks(n: Ast)
    requires Sound(n)
    ensures Visible(Events(n)) == Marks(n)
    decreases n, 0
  {
    if n.kind.Unhandled? {
    } else if n.kind.Text? {
      assert MarksAll([]) == [];
    } else {
      var push := [Push(LabelOf(n.kind))];
      VisibleMarksAll(n.children);
      VisibleBoth(push, EventsAll(n.children));
      VisibleBoth(push + EventsAll(n.children), [Out]);
      assert Visible(push) == [Kept] && Visible([Out]) == [];
    }
  }

  lemma {:induction false} VisibleMarksAll(ns: seq<Ast>)
    requires SoundAll(ns)
    ensures Visible(EventsAll(ns)) == MarksAll(ns)
    decreases ns, 1
  {
    if ns != [] {
      var k := |ns| - 1;
      SoundFront(ns);
      VisibleMarksAll(ns[..k]);
      VisibleMarks(ns[k]);
      VisibleBoth(EventsAll(ns[..k]), Events(ns[k]));
    }
  }

  /** Only pops. */
  predicate Quiet(es: seq<Event>) {
    es != [] ==> (es[0].Out? || es[0].Extra?) && Quiet(es[1..])
  }

  /** Only pops after the first extra one. */
  predicate Trails(es: seq<Event>) {
    es != [] ==> if es[0].Extra? then Quiet(es[1..]) else Trails(es[1..])
  }

  predicate AllSkipped(marks: seq<Mark>) {
    forall m :: m in marks ==> m.Skipped?
  }

  lemma {:induction false} QuietVisible(es: seq<Event>)
    ensures Quiet(es) <==> AllSkipped(Visible(es))
    decreases |es|
  {
    if es != [] {
      QuietVisible(es[1..]);
      assert Visible(es) == (if es[0].Out? then [] else [MarkOf(es[0])]) + Visible(es[1..]);
      assert es[0].Out? || MarkOf(es[0]) in Visible(es);
    }
  }

  lemma {:induction false} TrailsVisible(es: seq<Event>)
    ensures Trails(es) <==> NoneFollows(Visible(es))
    decreases |es|
  {
    if es != [] {
      TrailsVisible(es[1..]);
      QuietVisible(es[1..]);
      var v, rest := Visible(es), Visible(es[1..]);
      if !es[0].Out? {
        assert v[1..] == rest && v == [v[0]] + rest;
        FollowsFirst(v);
      } else {
        assert v == rest;
      }
    }
  }

  lemma {:induction false} FollowsFirst(v: seq<Mark>)
    requires v != []
    ensures NoneFollows(v) <==> NoneFollows(v[1..]) && (v[0].Skipped? ==> AllSkipped(v[1..]))
    ensures AllSkipped(v[1..]) ==> NoneFollows(v[1..])
  {
    var rest := v[1..];
    if NoneFollows(v) {
      forall i, j | 0 <= i < j < |rest| && rest[i].Skipped? ensures rest[j].Skipped? {
        assert v[i + 1].Skipped? && v[j + 1] == rest[j];
      }
      if v[0].Skipped? {
        forall j | 0 <= j < |rest| ensures rest[j].Skipped? {
          assert rest[j] == v[j + 1];
        }
      }
    }
    if NoneFollows(rest) && (v[0].Skipped? ==> AllSkipped(rest)) {
      forall i, j | 0 <= i < j < |v| && v[i].Skipped? ensures v[j].Skipped? {
        assert v[j] == rest[j - 1];
        if i > 0 { assert rest[i - 1] == v[i]; }
      }
    }
  }

  /** Nothing empty is written. */
  predicate NoBlanks(es: seq<Event>) {
    es != [] ==> es[0] != Write("") && NoBlanks(es[1..])
  }

  /** Nothing empty is written after the first extra pop. */
  predicate BlanksFirst(es: seq<Event>) {
    es != [] ==> if es[0].Extra? then NoBlanks(es[1..]) else BlanksFirst(es[1..])
  }

  lemma {:induction false} NoBlanksVisible(es: seq<Event>)
    ensures NoBlanks(es) <==> Blank !in Visible(es)
    decreases |es|
  {
    if es != [] {
      NoBlanksVisible(es[1..]);
      assert Visible(es) == (if es[0].Out? then [] else [MarkOf(es[0])]) + Visible(es[1..]);
      assert es[0].Out? || MarkOf(es[0]) in Visible(es);
    }
  }

  lemma {:induction false} BlanksFirstVisible(es: seq<Event>)
    requires NoBlankFollows(Visible(es))
    ensures BlanksFirst(es)
    decreases |es|
  {
    if es != [] {
      var v, rest := Visible(es), Visible(es[1..]);
      if es[0].Extra? {
        assert v[0].Skipped? && forall i :: 0 <= i < |rest| ==> v[i + 1] == rest[i];
        assert Blank !in rest;
        NoBlanksVisible(es[1..]);
      } else {
        assert forall i :: 0 <= i < |rest| ==> rest[i] == v[if es[0].Out? then i else i + 1];
        BlanksFirstVisible(es[1..]);
      }
    }
  }

  // ---------------------------------------------------------------- pops alone do no harm

  lemma {:induction false} QuietCloses(c: Cursor, es: seq<Event>)
    requires IsCursor(c) && Quiet(es)
    ensures Closed(Play(c, es).spine) == Closed(c.spine)
    decreases |es|
  {
    if es != [] {
      QuietCloses(Step(c, es[0]), es[1..]);
    }
  }

  lemma {:induction false} QuietStrips(es: seq<Event>)
    requires Quiet(es)
    ensures Quiet(Strip(es))
    decreases |es|
  {
    if es != [] {
      QuietStrips(es[1..]);
      assert Strip(es) == (if es[0].Out? then [es[0]] else []) + Strip(es[1..]);
      assert es[0].Out? ==> Strip(es)[1..] == Strip(es[1..]);
      assert es[0].Extra? ==> Strip(es) == Strip(es[1..]);
    }
  }

  lemma {:induction false} TrailingCloses(c: Cursor, es: seq<Event>)
    requires IsCursor(c) && Trails(es)
    ensures Closed(Play(c, es).spine) == Closed(Play(c, Strip(es)).spine)
    decreases |es|
  {
    if es != [] {
      if es[0].Extra? {
        assert Strip(es) == Strip(es[1..]);
        QuietStrips(es[1..]);
        QuietCloses(Step(c, es[0]), es[1..]);
        QuietCloses(c, Strip(es[1..]));
        QuietCloses(c, [es[0]]);
      } else {
        assert Strip(es)[1..] == Strip(es[1..]);
        TrailingCloses(Step(c, es[0]), es[1..]);
      }
    }
  }
}
