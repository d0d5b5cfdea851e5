/**
 * The stream between a WASI module's Sync call and its consumer: two channels of capacity one, a
 * producer that sends messages and then closes both, and a consumer that selects between them.
 */
module WasiStream {

  type Message = string

  /** The module's behaviour: the messages it sends, and whether its call then returns an error. */
  datatype Module = Module(messages: seq<Message>, fails: bool)

  /** The producer has sent `sent` messages; once all are sent it reports, closes and closes. */
  datatype Producer = Sending | Returned | ClosingErrors | Done

  datatype Verdict = Waiting | Eof | Error | Abandoned

  datatype State = State(
    producer: Producer, sent: nat,
    chn: seq<Message>, chnClosed: bool,
    err: bool, errClosed: bool,
    received: seq<Message>, verdict: Verdict)

  const START := State(Sending, 0, [], false, false, false, [], Waiting)

  /** `Produce` is the producer's next step; the others are the branches of the consumer's select,
      and `Abandon` a consumer that stops receiving because it could not use a message. */
  datatype Action = Produce | TakeMessage | SeeMessagesClosed | TakeError | SeeErrorsClosed | Abandon

  /** Sends block on a full channel; a select branch is taken only when its channel is ready. */
  predicate Enabled(m: Module, s: State, a: Action) {
    match a
    case Produce => s.producer != Done && (s.producer == Sending && s.sent < |m.messages| ==> s.chn == [])
    case TakeMessage => s.verdict == Waiting && s.chn != []
    case SeeMessagesClosed => s.verdict == Waiting && s.chn == [] && s.chnClosed
    case TakeError => s.verdict == Waiting && s.err
    case SeeErrorsClosed => s.verdict == Waiting && !s.err && s.errClosed
    case Abandon => s.verdict == Waiting && s.received != []
  }

  function Step(m: Module, s: State, a: Action): State
    requires Enabled(m, s, a)
  {
    match a
    case Produce =>
      (match s.producer
       case Sending =>
         if s.sent < |m.messages| then s.(chn := [m.messages[s.sent]], sent := s.sent + 1)
         else s.(producer := Returned, err := m.fails)
       case Returned => s.(producer := ClosingErrors, chnClosed := true)
       case ClosingErrors => s.(producer := Done, errClosed := true)
       case Done => s)
    case TakeMessage => s.(chn := [], received := s.received + [s.chn[0]])
    case SeeMessagesClosed => s.(verdict := Eof)
    case TakeError => s.(verdict := Error, err := false)
    case SeeErrorsClosed => s.(verdict := Eof)
    case Abandon => s.(verdict := Abandoned)
  }

  ghost predicate IsRun(m: Module, ss: seq<State>, acts: seq<Action>) {
    && |ss| == |acts| + 1
    && ss[0] == START
    && forall i :: 0 <= i < |acts| ==> Enabled(m, ss[i], acts[i]) && ss[i + 1] == Step(m, ss[i], acts[i])
  }

  // ---------------------------------------------------------------- what every step keeps

  predicate Inv(m: Module, s: State) {
    && s.sent <= |m.messages| && |s.chn| <= 1
    && s.received + s.chn == m.messages[..s.sent]
    && (s.producer != Sending ==> s.sent == |m.messages|)
    && (s.chnClosed <==> s.producer == ClosingErrors || s.producer == Done)
    && (s.errClosed <==> s.producer == Done)
    && (s.err ==> m.fails && s.producer != Sending)
    && (m.fails && s.producer != Sending && !s.err ==> s.verdict == Error)
    && (s.verdict == Error ==> m.fails)
    && (s.verdict == Eof || s.verdict == Error ==> s.producer != Sending)
  }

  lemma StepKeepsInv(m: Module, s: State, a: Action)
    requires Inv(m, s) && Enabled(m, s, a)
    ensures Inv(m, Step(m, s, a))
  {
    if a == Produce && s.producer == Sending && s.sent < |m.messages| {
      assert m.messages[..s.sent + 1] == m.messages[..s.sent] + [m.messages[s.sent]];
      assert s.received + [] == s.received;
    }
    if a == TakeMessage {
      assert s.chn == [s.chn[0]];
      assert s.received + [s.chn[0]] + [] == s.received + s.chn;
    }
  }

  lemma {:induction false} InvInEveryRun(m: Module, ss: seq<State>, acts: seq<Action>)
    requires IsRun(m, ss, acts)
    ensures forall i :: 0 <= i < |ss| ==> Inv(m, ss[i])
  {
    var n := 0;
    while n < |acts|
      invariant 0 <= n <= |acts|
      invariant forall i :: 0 <= i <= n ==> Inv(m, ss[i])
    {
      StepKeepsInv(m, ss[n], acts[n]);
      n := n + 1;
    }
  }

  // ---------------------------------------------------------------- what the consumer gets

  /**
   * For every interleaving: what has been received is a prefix of what was sent, in order, and when
   * the stream ends the module call has returned and at most one of all its messages is missing.
   * An error is reported only if the module call failed.
   */
  lemma {:induction false} BoundedLoss(m: Module, ss: seq<State>, acts: seq<Action>, i: nat)
    requires IsRun(m, ss, acts) && i < |ss|
    ensures ss[i].sent <= |m.messages| && ss[i].received <= m.messages[..ss[i].sent]
    ensures ss[i].verdict in {Eof, Error} ==> ss[i].sent == |m.messages| <= |ss[i].received| + 1
    ensures ss[i].verdict == Error ==> m.fails
  {
    InvInEveryRun(m, ss, acts);
    assert Inv(m, ss[i]);
  }

  /** A select branch that ends the stream. */
  predicate Ends(a: Action) {
    a == SeeMessagesClosed || a == TakeError || a == SeeErrorsClosed
  }

  /**
   * The stream ends without loss exactly when the select that ended it did not pass over a buffered
   * message; and a failure is turned into an ordinary end exactly when that select took the closed
   * message channel although the error was waiting.
   */
  lemma {:induction false} EndOfStreamIff(m: Module, ss: seq<State>, acts: seq<Action>, i: nat)
    requires IsRun(m, ss, acts) && i < |acts| && Ends(acts[i])
    ensures ss[i + 1].received == m.messages <==> ss[i].chn == []
    ensures m.fails && ss[i + 1].verdict == Eof <==> ss[i].err && acts[i] == SeeMessagesClosed
  {
    InvInEveryRun(m, ss, acts);
    assert Inv(m, ss[i]) && Inv(m, ss[i + 1]);
    assert m.messages[..|m.messages|] == m.messages;
    if ss[i].chn == [] {
      assert ss[i].received + [] == ss[i].received;
    }
  }

  predicate Ended(s: State) {
    s.verdict == Eof || s.verdict == Error
  }

  /** One more step of a run. */
  lemma Does(m: Module, ss: seq<State>, acts: seq<Action>, a: Action) returns (ss': seq<State>, acts': seq<Action>)
    requires IsRun(m, ss, acts) && Enabled(m, ss[|acts|], a)
    ensures IsRun(m, ss', acts') && ss'[|acts'|] == Step(m, ss[|acts|], a)
  {
    ss', acts' := ss + [Step(m, ss[|acts|], a)], acts + [a];
  }

  /** A run in which the first `n` messages have been handed over one by one. */
  lemma {:induction false} HandsOver(m: Module, n: nat) returns (ss: seq<State>, acts: seq<Action>)
    requires n <= |m.messages|
    ensures IsRun(m, ss, acts) && ss[|acts|] == State(Sending, n, [], false, false, false, m.messages[..n], Waiting)
  {
    if n == 0 {
      ss, acts := [START], [];
    } else {
      ss, acts := HandsOver(m, n - 1);
      ss, acts := Does(m, ss, acts, Produce);
      ss, acts := Does(m, ss, acts, TakeMessage);
      assert m.messages[..n] == m.messages[..n - 1] + [m.messages[n - 1]];
    }
  }

  /** Whatever the module sends, the last message can be lost, whether its call then fails or not. */
  lemma {:induction false} MessageCanBeLost(m: Module) returns (ss: seq<State>, acts: seq<Action>)
    requires m.messages != []
    ensures IsRun(m, ss, acts) && Ended(ss[|acts|])
    ensures ss[|acts|].received == m.messages[..|m.messages| - 1]
  {
    ss, acts := HandsOver(m, |m.messages| - 1);
    ss, acts := Does(m, ss, acts, Produce);
    ss, acts := Does(m, ss, acts, Produce);
    if m.fails {
      ss, acts := Does(m, ss, acts, TakeError);
    } else {
      ss, acts := Does(m, ss, acts, Produce);
      ss, acts := Does(m, ss, acts, Produce);
      ss, acts := Does(m, ss, acts, SeeErrorsClosed);
    }
  }

  /** Every module whose call fails has a run in which that ends as an ordinary end of stream. */
  lemma {:induction false} FailureCanBeSwallowed(m: Module) returns (ss: seq<State>, acts: seq<Action>)
    requires m.fails
    ensures IsRun(m, ss, acts) && ss[|acts|].verdict == Eof && ss[|acts|].received == m.messages
  {
    ss, acts := HandsOver(m, |m.messages|);
    ss, acts := Does(m, ss, acts, Produce);
    ss, acts := Does(m, ss, acts, Produce);
    ss, acts := Does(m, ss, acts, SeeMessagesClosed);
    assert m.messages[..|m.messages|] == m.messages;
  }

  ghost predicate DeliversAlways(m: Module) {
    forall ss: seq<State>, acts :: IsRun(m, ss, acts) && Ended(ss[|acts|]) ==> ss[|acts|].received == m.messages
  }

  ghost predicate ReportsAlways(m: Module) {
    forall ss: seq<State>, acts :: IsRun(m, ss, acts) && Ended(ss[|acts|]) ==>
      (ss[|acts|].verdict == Error <==> m.fails)
  }

  /**
   * What a module can rely on: everything is delivered under every interleaving exactly when it sends
   * nothing, and the verdict always tells whether its call failed exactly when that does not fail.
   */
  lemma {:induction false} ReliableIff(m: Module)
    ensures DeliversAlways(m) <==> m.messages == []
    ensures ReportsAlways(m) <==> !m.fails
  {
    forall ss: seq<State>, acts | IsRun(m, ss, acts) && Ended(ss[|acts|])
      ensures m.messages == [] ==> ss[|acts|].received == []
      ensures !m.fails ==> ss[|acts|].verdict == Eof
    {
      InvInEveryRun(m, ss, acts);
      assert Inv(m, ss[|acts|]);
    }
    if m.messages != [] {
      var ss, acts := MessageCanBeLost(m);
      assert |ss[|acts|].received| < |m.messages|;
    }
    if m.fails {
      var ss, acts := FailureCanBeSwallowed(m);
    }
  }

  // ---------------------------------------------------------------- termination

  /** Steps left before the stream is over. */
  function Left(m: Module, s: State): int {
    2 * (|m.messages| - s.sent) + |s.chn|
    + (match s.producer case Sending => 3 case Returned => 2 case ClosingErrors => 1 case Done => 0)
    + (if s.verdict == Waiting then 1 else 0)
  }

  lemma StepsRunOut(m: Module, s: State, a: Action)
    requires Inv(m, s) && Enabled(m, s, a)
    ensures 0 <= Left(m, Step(m, s, a)) < Left(m, s)
  {
  }

  /** No run is longer than twice the number of messages plus four. */
  lemma {:induction false} RunsAreBounded(m: Module, ss: seq<State>, acts: seq<Action>)
    requires IsRun(m, ss, acts)
    ensures |acts| <= 2 * |m.messages| + 4
  {
    InvInEveryRun(m, ss, acts);
    var n := 0;
    while n < |acts|
      invariant 0 <= n <= |acts|
      invariant 0 <= Left(m, ss[n]) <= 2 * |m.messages| + 4 - n
    {
      assert Inv(m, ss[n]);
      StepsRunOut(m, ss[n], acts[n]);
      n := n + 1;
    }
  }

  predicate Stuck(m: Module, s: State) {
    forall a: Action :: !Enabled(m, s, a)
  }

  /**
   * A run that can go no further has given the consumer its verdict. The producer is finished too,
   * unless the consumer walked away with two or more messages outstanding: then it blocks for good.
   */
  lemma {:induction false} NoDeadlock(m: Module, ss: seq<State>, acts: seq<Action>)
    requires IsRun(m, ss, acts) && Stuck(m, ss[|acts|])
    ensures ss[|acts|].verdict != Waiting
    ensures ss[|acts|].producer == Done <==>
      ss[|acts|].verdict != Abandoned || |m.messages| <= |ss[|acts|].received| + 1
  {
    InvInEveryRun(m, ss, acts);
    var s := ss[|acts|];
    assert Inv(m, s) && !Enabled(m, s, Produce) && !Enabled(m, s, TakeMessage);
    assert !Enabled(m, s, TakeError) && !Enabled(m, s, SeeErrorsClosed);
    assert |s.received| + |s.chn| == s.sent;
  }
}
