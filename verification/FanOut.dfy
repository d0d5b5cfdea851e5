/**
 * The concurrent fan-out over extensions: one goroutine each, appending to shared accumulators.
 *
 * Assumption: each read and each write of a shared slice header is one atomic step. Appends under
 * the lock are one step; the append to `errs` in `run` is not locked and is a read and a write.
 */
module FanOut {
  import opened Collections

  // ---------------------------------------------------------------- run: the extension sync

  /** What goroutine `i` is going to meet: not to run, a request that cannot be built, or its call. */
  datatype Plan = Skips | BadRequest | Calls(breaks: bool)

  predicate Fails(p: Plan) {
    p == BadRequest || p == Calls(true)
  }

  /** `Holding` has read the shared slice and is about to write it back one longer. */
  datatype Thread = Ready | Streaming | Failing | Holding(copy: seq<nat>) | Finished

  datatype Fan = Fan(threads: seq<Thread>, started: seq<nat>, errs: seq<nat>)

  function Launch(n: nat): Fan {
    Fan(seq(n, _ => Ready), [], [])
  }

  /** The next step of goroutine `i`. */
  function Advance(plans: seq<Plan>, f: Fan, i: nat): Fan
    requires |plans| == |f.threads| && i < |plans|
  {
    match f.threads[i]
    case Ready =>
      (match plans[i]
       case Skips => f.(threads := f.threads[i := Finished])
       case BadRequest => f.(threads := f.threads[i := Failing])
       case Calls(_) => f.(threads := f.threads[i := Streaming], started := f.started + [i]))
    case Streaming => f.(threads := f.threads[i := if Fails(plans[i]) then Failing else Finished])
    case Failing => f.(threads := f.threads[i := Holding(f.errs)])
    case Holding(copy) => Fan(f.threads[i := Finished], f.started, copy + [i])
    case Finished => f
  }

  predicate IsSchedule(plans: seq<Plan>, schedule: seq<nat>) {
    forall k :: 0 <= k < |schedule| ==> schedule[k] < |plans|
  }

  /** The state after the goroutines have taken steps in the order of the schedule. */
  function Played(plans: seq<Plan>, schedule: seq<nat>): (f: Fan)
    requires IsSchedule(plans, schedule)
    ensures |f.threads| == |plans|
  {
    if schedule == [] then Launch(|plans|)
    else Advance(plans, Played(plans, schedule[..|schedule| - 1]), schedule[|schedule| - 1])
  }

  predicate AllFinished(f: Fan) {
    forall i :: 0 <= i < |f.threads| ==> f.threads[i] == Finished
  }

  /** A schedule that takes every goroutine to its end. */
  predicate Finishes(plans: seq<Plan>, schedule: seq<nat>) {
    IsSchedule(plans, schedule) && AllFinished(Played(plans, schedule))
  }

  /** The goroutines at work; `wg.Wait` returns once all are finished. */
  method Run(plans: seq<Plan>, schedule: seq<nat>) returns (f: Fan)
    requires IsSchedule(plans, schedule)
    ensures f == Played(plans, schedule)
  {
    f := Launch(|plans|);
    for k := 0 to |schedule|
      invariant f == Played(plans, schedule[..k])
    {
      assert schedule[..k + 1][..k] == schedule[..k];
      f := Advance(plans, f, schedule[k]);
    }
    assert schedule[..|schedule|] == schedule;
  }

  /** Only goroutines whose extension failed are ever in the error list. */
  predicate OnlyFailures(plans: seq<Plan>, errs: seq<nat>) {
    forall e :: e in errs ==> e < |plans| && Fails(plans[e])
  }

  ghost predicate FanInv(plans: seq<Plan>, f: Fan) {
    && |f.threads| == |plans|
    && NoDuplicates(f.started)
    && (forall i: nat :: i in f.started <==> i < |plans| && plans[i].Calls? && f.threads[i] != Ready)
    && (forall i :: 0 <= i < |plans| ==>
          (f.threads[i].Failing? || f.threads[i].Holding? ==> Fails(plans[i])) &&
          (f.threads[i].Streaming? ==> plans[i].Calls?) &&
          (f.threads[i].Holding? ==> OnlyFailures(plans, f.threads[i].copy)))
    && OnlyFailures(plans, f.errs)
    && (f.errs == [] ==> forall i :: 0 <= i < |plans| && f.threads[i] == Finished ==> !Fails(plans[i]))
  }

  lemma AdvanceKeepsInv(plans: seq<Plan>, f: Fan, i: nat)
    requires FanInv(plans, f) && i < |plans|
    ensures FanInv(plans, Advance(plans, f, i))
  {
  }

  lemma {:induction false} PlayedKeepsInv(plans: seq<Plan>, schedule: seq<nat>)
    requires IsSchedule(plans, schedule)
    ensures FanInv(plans, Played(plans, schedule))
  {
    if schedule != [] {
      PlayedKeepsInv(plans, schedule[..|schedule| - 1]);
      AdvanceKeepsInv(plans, Played(plans, schedule[..|schedule| - 1]), schedule[|schedule| - 1]);
    }
  }

  /**
   * Under every schedule, once all goroutines are done: the sync reports an error exactly when some
   * extension failed, although appends race; what it lists did fail; and the recorded extensions are
   * those that were to run, each once.
   */
  lemma {:induction false} SyncErrorIffSomeFailed(plans: seq<Plan>, schedule: seq<nat>)
    requires Finishes(plans, schedule)
    ensures
      var f := Played(plans, schedule);
      && (f.errs != [] <==> exists i :: 0 <= i < |plans| && Fails(plans[i]))
      && OnlyFailures(plans, f.errs)
      && NoDuplicates(f.started)
      && forall i: nat :: i in f.started <==> i < |plans| && plans[i].Calls?
  {
    PlayedKeepsInv(plans, schedule);
    var f := Played(plans, schedule);
    if f.errs != [] {
      assert f.errs[0] in f.errs;
    }
  }

  // ---------------------------------------------------------------- errors lost to the race

  ghost predicate ReportsAll(plans: seq<Plan>, errs: seq<nat>) {
    forall i: nat :: i < |plans| && Fails(plans[i]) ==> i in errs
  }

  /**
   * Every schedule reports every failing extension exactly when at most one extension fails: any two
   * failures have a schedule that loses one of them.
   */
  lemma {:induction false} ErrorsCompleteIff(plans: seq<Plan>)
    ensures
      (forall schedule :: Finishes(plans, schedule) ==> ReportsAll(plans, Played(plans, schedule).errs)) <==>
      (forall i, j :: 0 <= i < j < |plans| ==> !Fails(plans[i]) || !Fails(plans[j]))
  {
    if i, j :| 0 <= i < j < |plans| && Fails(plans[i]) && Fails(plans[j]) {
      var schedule := RacingErrorsCanBeLost(plans, i, j);
      assert !ReportsAll(plans, Played(plans, schedule).errs);
    } else {
      forall schedule | Finishes(plans, schedule)
        ensures ReportsAll(plans, Played(plans, schedule).errs)
      {
        SyncErrorIffSomeFailed(plans, schedule);
        var errs := Played(plans, schedule).errs;
        forall i: nat | i < |plans| && Fails(plans[i]) ensures i in errs {
          assert errs[0] in errs && errs[0] < |plans| && Fails(plans[errs[0]]);
          assert i == errs[0];
        }
      }
    }
  }

  /** Any two failing extensions: both read the empty list, and the second write buries the first. */
  lemma {:induction false} RacingErrorsCanBeLost(plans: seq<Plan>, i: nat, j: nat) returns (schedule: seq<nat>)
    requires i < |plans| && j < |plans| && i != j && Fails(plans[i]) && Fails(plans[j])
    ensures Finishes(plans, schedule) && i !in Played(plans, schedule).errs
  {
    schedule := [];
    schedule := ToFailing(plans, schedule, i);
    schedule := Also(plans, schedule, i);
    schedule := ToFailing(plans, schedule, j);
    schedule := Also(plans, schedule, j);
    schedule := Also(plans, schedule, i);
    schedule := Also(plans, schedule, j);
    var k := 0;
    while k < |plans|
      invariant 0 <= k <= |plans| && IsSchedule(plans, schedule)
      invariant i !in Played(plans, schedule).errs && Played(plans, schedule).threads[i] == Finished
      invariant AtRest(Played(plans, schedule))
      invariant forall l :: 0 <= l < k ==> Played(plans, schedule).threads[l] == Finished
    {
      schedule := ToEnd(plans, schedule, k);
      k := k + 1;
    }
  }

  /** One more step. */
  lemma Also(plans: seq<Plan>, schedule: seq<nat>, i: nat) returns (longer: seq<nat>)
    requires IsSchedule(plans, schedule) && i < |plans|
    ensures IsSchedule(plans, longer) && Played(plans, longer) == Advance(plans, Played(plans, schedule), i)
  {
    longer := schedule + [i];
    assert longer[..|longer| - 1] == schedule;
  }

  lemma ToFailing(plans: seq<Plan>, schedule: seq<nat>, i: nat) returns (longer: seq<nat>)
    requires IsSchedule(plans, schedule) && i < |plans| && Fails(plans[i])
    requires Played(plans, schedule).threads[i] == Ready
    ensures IsSchedule(plans, longer)
    ensures
      var f, g := Played(plans, schedule), Played(plans, longer);
      g.threads == f.threads[i := Failing] && g.errs == f.errs
  {
    longer := Also(plans, schedule, i);
    if plans[i].Calls? {
      longer := Also(plans, longer, i);
    }
  }

  predicate AtRest(f: Fan) {
    forall i :: 0 <= i < |f.threads| ==> f.threads[i] == Ready || f.threads[i] == Finished
  }

  /** A goroutine that runs to its end alone adds at most its own error. */
  lemma ToEnd(plans: seq<Plan>, schedule: seq<nat>, k: nat) returns (longer: seq<nat>)
    requires IsSchedule(plans, schedule) && k < |plans| && AtRest(Played(plans, schedule))
    ensures IsSchedule(plans, longer)
    ensures
      var f, g := Played(plans, schedule), Played(plans, longer);
      && g.threads == f.threads[k := Finished]
      && (g.errs == f.errs || (f.threads[k] == Ready && g.errs == f.errs + [k]))
  {
    longer := schedule;
    if Played(plans, schedule).threads[k] == Finished {
      return;
    }
    if Fails(plans[k]) {
      longer := ToFailing(plans, longer, k);
      longer := Also(plans, longer, k);
      longer := Also(plans, longer, k);
    } else {
      longer := Also(plans, longer, k);
      if plans[k].Calls? {
        longer := Also(plans, longer, k);
      }
    }
  }

  // ---------------------------------------------------------------- delete, default, validate: locked appends

  /** How the call to one extension ends: an error, a response, or a list of field errors. */
  datatype Outcome = Failure | Response | FieldErrors(errors: seq<string>)

  datatype Gathering = Gathering(errs: seq<nat>, resps: seq<nat>, fields: seq<string>)

  function Append(g: Gathering, i: nat, o: Outcome): Gathering {
    match o
    case Failure => g.(errs := g.errs + [i])
    case Response => g.(resps := g.resps + [i])
    case FieldErrors(es) => g.(fields := g.fields + es)
  }

  /** What the goroutines have gathered that got the lock so far, in that order. */
  function Gathered(launched: map<nat, Outcome>, order: seq<nat>): Gathering
    requires forall k :: 0 <= k < |order| ==> order[k] in launched
  {
    if order == [] then Gathering([], [], [])
    else
      var n := |order| - 1;
      Append(Gathered(launched, order[..n]), order[n], launched[order[n]])
  }

  function Ending(launched: map<nat, Outcome>, o: Outcome): set<nat> {
    set i | i in launched && launched[i] == o
  }

  /** All field errors of the listed goroutines. */
  function FieldSum(launched: map<nat, Outcome>, order: seq<nat>): multiset<string> {
    if order == [] then multiset{}
    else FieldSum(launched, order[..|order| - 1]) + FieldsOf(launched, order[|order| - 1])
  }

  /** The field errors of one goroutine. */
  function FieldsOf(launched: map<nat, Outcome>, i: nat): multiset<string> {
    if i in launched && launched[i].FieldErrors? then multiset(launched[i].errors) else multiset{}
  }

  /** Errors and responses gathered so far are those of the goroutines that have been through. */
  lemma {:induction false} GatheredTallies(launched: map<nat, Outcome>, order: seq<nat>)
    requires NoDuplicates(order) && forall i :: i in order ==> i in launched
    ensures
      var g := Gathered(launched, order);
      && Enumerates(g.errs, Ending(launched, Failure) * Range(order))
      && Enumerates(g.resps, Ending(launched, Response) * Range(order))
      && multiset(g.fields) == FieldSum(launched, order)
      && ((forall i :: i in launched ==> !launched[i].FieldErrors?) ==> |order| == |g.errs| + |g.resps|)
    decreases |order|
  {
    if order != [] {
      var n := |order| - 1;
      GatheredTallies(launched, order[..n]);
      assert order == order[..n] + [order[n]];
      assert order[n] !in order[..n];
      EnumeratesMore(Gathered(launched, order[..n]).errs, Ending(launched, Failure), order[..n], order[n]);
      EnumeratesMore(Gathered(launched, order[..n]).resps, Ending(launched, Response), order[..n], order[n]);
    }
  }

  lemma EnumeratesMore(s: seq<nat>, ids: set<nat>, order: seq<nat>, i: nat)
    requires Enumerates(s, ids * Range(order)) && i !in order
    ensures Enumerates(if i in ids then s + [i] else s, ids * Range(order + [i]))
  {
    assert Range(order + [i]) == Range(order) + {i};
    assert forall x :: x in s ==> x in order;
  }

  /**
   * Delete, and Default over the extensions with defaulting enabled: under every schedule each
   * launched extension ends up in exactly one of errors and responses, according to its own outcome.
   */
  lemma {:induction false} ErrorsPlusResponses(launched: map<nat, Outcome>, order: seq<nat>)
    requires Enumerates(order, launched.Keys)
    requires forall i :: i in launched ==> !launched[i].FieldErrors?
    ensures
      var g := Gathered(launched, order);
      && Enumerates(g.errs, Ending(launched, Failure))
      && Enumerates(g.resps, Ending(launched, Response))
      && |g.errs| + |g.resps| == |launched|
  {
    GatheredTallies(launched, order);
    assert Ending(launched, Failure) * Range(order) == Ending(launched, Failure);
    assert Ending(launched, Response) * Range(order) == Ending(launched, Response);
    EnumerationLength(order, launched.Keys);
  }

  /** Of a deletion: a request that cannot be built or a call that fails is an error, all else a response. */
  function DeleteOutcomes(plans: seq<Plan>): map<nat, Outcome> {
    map i: nat | i < |plans| :: if Fails(plans[i]) then Failure else Response
  }

  lemma DeleteErrorIffSomeFailed(plans: seq<Plan>, order: seq<nat>)
    requires Enumerates(order, DeleteOutcomes(plans).Keys)
    ensures Gathered(DeleteOutcomes(plans), order).errs != [] <==> exists i :: 0 <= i < |plans| && Fails(plans[i])
  {
    ErrorsEmptyIff(DeleteOutcomes(plans), order);
    if i :| 0 <= i < |plans| && Fails(plans[i]) {
      assert DeleteOutcomes(plans)[i].Failure?;
    }
  }

  datatype Verdict = Accepted | Invalid(fields: multiset<string>) | InternalError

  /** What Validate returns: errors first, then field errors, then acceptance. */
  function VerdictOf(g: Gathering): Verdict {
    if g.errs != [] then InternalError
    else if g.fields == [] then Accepted
    else Invalid(multiset(g.fields))
  }

  /** The same verdict, read off the outcomes without any schedule. */
  ghost predicate IsVerdict(launched: map<nat, Outcome>, v: Verdict) {
    match v
    case InternalError => exists i :: i in launched && launched[i].Failure?
    case Accepted =>
      forall i :: i in launched ==> !launched[i].Failure? && (launched[i].FieldErrors? ==> launched[i].errors == [])
    case Invalid(fields) =>
      && (forall i :: i in launched ==> !launched[i].Failure?)
      && (exists i :: i in launched && launched[i].FieldErrors? && launched[i].errors != [])
      && forall order :: Enumerates(order, launched.Keys) ==> fields == FieldSum(launched, order)
  }

  lemma {:induction false} FieldSumEmpty(launched: map<nat, Outcome>, order: seq<nat>)
    ensures FieldSum(launched, order) == multiset{} <==>
      forall i :: i in order && i in launched && launched[i].FieldErrors? ==> launched[i].errors == []
  {
    if order != [] {
      var n := |order| - 1;
      FieldSumEmpty(launched, order[..n]);
      assert order == order[..n] + [order[n]];
      var i := order[n];
      if i in launched && launched[i].FieldErrors? {
        assert multiset(launched[i].errors) == multiset{} <==> launched[i].errors == [] by {
          if launched[i].errors != [] { assert launched[i].errors[0] in multiset(launched[i].errors); }
        }
        assert |FieldSum(launched, order)| == |FieldSum(launched, order[..n])| + |launched[i].errors|;
      }
    }
  }

  lemma SameRangeEmpty(s: seq<nat>, t: seq<nat>)
    requires forall i :: i in s <==> i in t
    ensures s == [] <==> t == []
  {
    assert t != [] ==> t[0] in t;
    assert s != [] ==> s[0] in s;
  }

  /** The order does not matter for the field errors collected. */
  lemma {:induction false} FieldSumPermutes(launched: map<nat, Outcome>, s: seq<nat>, t: seq<nat>)
    requires NoDuplicates(s) && NoDuplicates(t) && forall i :: i in s <==> i in t
    ensures FieldSum(launched, s) == FieldSum(launched, t)
    decreases |s|
  {
    SameRangeEmpty(s, t);
    if s != [] {
      var j := SameWithoutLast(s, t);
      FieldSumPermutes(launched, s[..|s| - 1], t[..j] + t[j + 1..]);
      FieldSumRemove(launched, t, j);
    }
  }

  /** Taking the last element of `s` out of both leaves the same elements. */
  lemma SameWithoutLast(s: seq<nat>, t: seq<nat>) returns (j: nat)
    requires s != [] && NoDuplicates(s) && NoDuplicates(t) && forall i :: i in s <==> i in t
    ensures j < |t| && t[j] == s[|s| - 1]
    ensures NoDuplicates(s[..|s| - 1]) && NoDuplicates(t[..j] + t[j + 1..])
    ensures var rest := t[..j] + t[j + 1..]; forall i :: i in s[..|s| - 1] <==> i in rest
  {
    var n := |s| - 1;
    assert s[n] in t;
    j :| 0 <= j < |t| && t[j] == s[n];
    RestDistinct(t, j);
    forall i ensures i in s[..n] <==> i in t[..j] + t[j + 1..] {
      RestOf(t, j, i);
      RestOf(s, n, i);
      assert s[..n] + s[n + 1..] == s[..n];
    }
  }

  lemma {:induction false} FieldSumConcat(launched: map<nat, Outcome>, s: seq<nat>, t: seq<nat>)
    ensures FieldSum(launched, s + t) == FieldSum(launched, s) + FieldSum(launched, t)
    decreases |t|
  {
    if t == [] {
      assert s + t == s;
    } else {
      assert (s + t)[..|s + t| - 1] == s + t[..|t| - 1];
      FieldSumConcat(launched, s, t[..|t| - 1]);
    }
  }

  lemma FieldSumRemove(launched: map<nat, Outcome>, t: seq<nat>, j: nat)
    requires j < |t|
    ensures FieldSum(launched, t) == FieldSum(launched, t[..j] + t[j + 1..]) + FieldsOf(launched, t[j])
  {
    assert t == t[..j] + [t[j]] + t[j + 1..];
    assert [t[j]][..0] == [];
    FieldSumConcat(launched, t[..j] + [t[j]], t[j + 1..]);
    FieldSumConcat(launched, t[..j], [t[j]]);
    FieldSumConcat(launched, t[..j], t[j + 1..]);
  }

  /** A list without its `j`-th element. */
  lemma RestOf(t: seq<nat>, j: nat, i: nat)
    requires j < |t| && NoDuplicates(t)
    ensures i in t[..j] + t[j + 1..] <==> i in t && i != t[j]
  {
    if i in t && i != t[j] {
      var l :| 0 <= l < |t| && t[l] == i;
      if l < j { assert t[..j][l] == i; } else { assert t[j + 1..][l - j - 1] == i; }
    }
  }

  lemma RestDistinct(t: seq<nat>, j: nat)
    requires j < |t| && NoDuplicates(t)
    ensures NoDuplicates(t[..j] + t[j + 1..])
  {
  }

  /** Validate's verdict is that of the outcomes, and so the same under every schedule. */
  lemma {:induction false} ValidateIndependentOfSchedule(launched: map<nat, Outcome>, s: seq<nat>, t: seq<nat>)
    requires Enumerates(s, launched.Keys) && Enumerates(t, launched.Keys)
    ensures IsVerdict(launched, VerdictOf(Gathered(launched, s)))
    ensures VerdictOf(Gathered(launched, s)) == VerdictOf(Gathered(launched, t))
  {
    var g, h := Gathered(launched, s), Gathered(launched, t);
    GatheredTallies(launched, s);
    GatheredTallies(launched, t);
    forall order | Enumerates(order, launched.Keys) ensures FieldSum(launched, order) == multiset(g.fields) {
      FieldSumPermutes(launched, s, order);
    }
    FieldSumEmpty(launched, s);
    ErrorsEmptyIff(launched, s);
    ErrorsEmptyIff(launched, t);
    EmptyAsMultiset(g.fields);
    EmptyAsMultiset(h.fields);
  }

  lemma ErrorsEmptyIff(launched: map<nat, Outcome>, order: seq<nat>)
    requires Enumerates(order, launched.Keys)
    ensures Gathered(launched, order).errs != [] <==> exists i :: i in launched && launched[i].Failure?
  {
    GatheredTallies(launched, order);
    var errs := Gathered(launched, order).errs;
    if errs != [] { assert errs[0] in errs; }
    if i :| i in launched && launched[i].Failure? {
      assert i in Ending(launched, Failure) * Range(order);
    }
  }

  lemma EmptyAsMultiset(s: seq<string>)
    ensures s == [] <==> multiset(s) == multiset{}
  {
    if s != [] { assert s[0] in multiset(s); }
  }
}
