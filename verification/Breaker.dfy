/** The circuit breaker in front of a MySQL server: after connection failures
    one operation per cooldown goes through. */
module Breaker {
  import opened Doubling

  const CAP: nat := 300

  /** What an admitted operation came back with: an answer from the server (also
      a refusal), the end of the caller's context, or a connection failure. */
  datatype Outcome = Answered | ContextEnded | ConnectionFailed

  datatype Event = Admit | Report(outcome: Outcome)

  /** Consecutive connection failures and, while there are any, the time until
      which operations are held back. */
  datatype State = State(failures: nat, until: int)

  /** Whether an operation asking at time `now` goes through. */
  predicate Admits(s: State, now: int) {
    s.failures == 0 || now >= s.until
  }

  function Step(s: State, e: Event, now: int): State {
    match e
    case Admit =>
      if s.failures > 0 && Admits(s, now) then s.(until := now + Doubled(s.failures, CAP)) else s
    case Report(Answered) => s.(failures := 0)
    case Report(ContextEnded) => s
    case Report(ConnectionFailed) => State(s.failures + 1, now + Doubled(s.failures + 1, CAP))
  }

  class Conn {
    var failures: nat
    var until: int

    function Value(): State
      reads this
    {
      State(failures, until)
    }

    constructor ()
      ensures failures == 0
    {
      failures, until := 0, 0;
    }

    method Cooldown() returns (d: nat)
      requires failures > 0
      ensures d == Doubled(failures, CAP)
    {
      d := 2;
      var i := 1;
      while i < failures && d < CAP
        invariant 1 <= i <= failures
        invariant d == 2 * Pow2(i - 1) && (i > 1 ==> Pow2(i - 2) * 2 < CAP)
      {
        d := d * 2;
        i := i + 1;
      }
      DoubledMonotone(i, failures, CAP);
      d := Min(d, CAP);
    }

    method Admit(now: int) returns (ok: bool)
      modifies this
      ensures ok == Admits(old(Value()), now) && Value() == Step(old(Value()), Event.Admit, now)
      ensures ok <==> old(failures) == 0 || now >= old(until)
      ensures failures == old(failures)
      ensures until == if ok && failures > 0 then now + Doubled(failures, CAP) else old(until)
    {
      if failures == 0 {
        return true;
      }
      if now < until {
        return false;
      }
      var d := Cooldown();
      until := now + d;
      return true;
    }

    method Report(outcome: Outcome, now: int)
      modifies this
      ensures Value() == Step(old(Value()), Event.Report(outcome), now)
      ensures failures == match outcome case Answered => 0 case ContextEnded => old(failures) case ConnectionFailed => old(failures) + 1
      ensures until == if outcome.ConnectionFailed? then now + Doubled(failures, CAP) else old(until)
    {
      match outcome {
        case Answered => failures := 0;
        case ContextEnded =>
        case ConnectionFailed =>
          failures := failures + 1;
          var d := Cooldown();
          until := now + d;
      }
    }
  }

  // ---- Runs ----

  /** An event at a time. */
  datatype Timed = Timed(at: int, event: Event)

  function Run(s: State, events: seq<Timed>): State
    decreases |events|
  {
    if events == [] then s else Run(Step(s, events[0].event, events[0].at), events[1..])
  }

  predicate Ordered(start: int, events: seq<Timed>) {
    && (forall i | 0 <= i < |events| :: start <= events[i].at)
    && (forall i, j | 0 <= i < j < |events| :: events[i].at <= events[j].at)
  }

  predicate Unanswered(events: seq<Timed>) {
    forall i | 0 <= i < |events| :: events[i].event != Report(Answered)
  }

  /** The hold never reaches past one cooldown from the last event. */
  predicate Sane(s: State, now: int) {
    s.failures > 0 ==> s.until <= now + Doubled(s.failures, CAP)
  }

  function Clock(start: int, events: seq<Timed>): int {
    if events == [] then start else events[|events| - 1].at
  }

  /** Kept by every run; a closed breaker has it whatever its fields. */
  lemma {:induction false} RunSane(s: State, start: int, events: seq<Timed>)
    requires Sane(s, start) && Ordered(start, events)
    ensures Sane(Run(s, events), Clock(start, events))
    decreases |events|
  {
    if events != [] {
      assert events[1..] != [] ==> events[1..][|events[1..]| - 1] == events[|events| - 1];
      RunSane(Step(s, events[0].event, events[0].at), events[0].at, events[1..]);
    }
  }

  /** Until the server answers, failures and the end of the hold only grow,
      whatever is reported in whatever order. */
  lemma {:induction false} HoldNeverShrinks(s: State, start: int, events: seq<Timed>)
    requires Sane(s, start) && s.failures > 0 && Ordered(start, events) && Unanswered(events)
    ensures Run(s, events).failures >= s.failures && Run(s, events).until >= s.until
    decreases |events|
  {
    if events != [] {
      DoubledStep(s.failures, CAP);
      HoldNeverShrinks(Step(s, events[0].event, events[0].at), events[0].at, events[1..]);
    }
  }

  /** Nobody is held back for longer than a cooldown: after any run an operation
      that asks one cooldown after the last event, or later, goes through. */
  lemma AdmittedInTime(s: State, start: int, events: seq<Timed>, now: int)
    requires Sane(s, start) && Ordered(start, events)
    requires var end := Run(s, events); end.failures > 0 ==> now >= Clock(start, events) + Doubled(end.failures, CAP)
    ensures Admits(Run(s, events), now)
  {
    RunSane(s, start, events);
  }

  /** The end of a caller's context leaves no trace in a run. */
  lemma {:induction false} ContextEndsUnseen(s: State, before: seq<Timed>, at: int, after: seq<Timed>)
    ensures Run(s, before + ([Timed(at, Report(ContextEnded))] + after)) == Run(s, before + after)
    decreases |before|
  {
    var ended := [Timed(at, Report(ContextEnded))] + after;
    if before == [] {
      assert before + ended == ended && before + after == after && ended[1..] == after;
    } else {
      assert (before + ended)[1..] == before[1..] + ended && (before + after)[1..] == before[1..] + after;
      ContextEndsUnseen(Step(s, before[0].event, before[0].at), before[1..], at, after);
    }
  }

  /** Two admissions with no answer in between are a cooldown apart: the cooldown
      of the failures known at the first. */
  lemma AdmissionsSpaced(s: State, start: int, events: seq<Timed>, now: int)
    requires Sane(s, start) && s.failures > 0 && Admits(s, start)
    requires Ordered(start, events) && Unanswered(events)
    requires now >= Clock(start, events) && Admits(Run(Step(s, Admit, start), events), now)
    ensures now >= start + Doubled(s.failures, CAP)
  {
    HoldNeverShrinks(Step(s, Admit, start), start, events);
  }

  /** An outage leaves no trace once the server answers. */
  lemma {:induction false} AnswerCloses(s: State, events: seq<Timed>, now: int)
    ensures Admits(Run(s, events + [Timed(now, Report(Answered))]), now)
    decreases |events|
  {
    var all := events + [Timed(now, Report(Answered))];
    if events != [] {
      assert all[1..] == events[1..] + [Timed(now, Report(Answered))];
      AnswerCloses(Step(s, events[0].event, events[0].at), events[1..], now);
    }
  }

  // ---- How long an outage takes per attempt ----

  function Sum(n: nat): nat {
    if n == 0 then 0 else Sum(n - 1) + Doubled(n, CAP)
  }

  lemma {:induction false} SumFromEight(n: nat)
    requires n >= 8
    ensures Sum(n) == 300 * n - 1890
  {
    if n == 8 {
      assert Pow2(0) == 1 && Pow2(1) == 2 && Pow2(2) == 4 && Pow2(3) == 8;
      assert Pow2(4) == 16 && Pow2(5) == 32 && Pow2(6) == 64 && Pow2(7) == 128;
      assert Sum(1) == 2 && Sum(2) == 6 && Sum(3) == 14 && Sum(4) == 30;
      assert Sum(5) == 62 && Sum(6) == 126 && Sum(7) == 254 && Sum(8) == 510;
    } else {
      SumFromEight(n - 1);
      assert Pow2(7) == 128;
      assert Doubled(9, CAP) == 300 by { assert Pow2(8) == 256; }
      DoubledMonotone(9, n, CAP);
    }
  }

  /** Every reported failure is that of an attempt admitted after the failure
      reported before it: nothing fails late.  `pending`: an attempt is under way. */
  predicate InTurn(s: State, pending: bool, events: seq<Timed>)
    decreases |events|
  {
    events == [] ||
    (var e := events[0];
     match e.event
     case Admit => InTurn(Step(s, Admit, e.at), pending || Admits(s, e.at), events[1..])
     case Report(outcome) => pending && outcome != Answered && InTurn(Step(s, e.event, e.at), false, events[1..]))
  }

  /** Admitted at `now` after f failures, the first of them at `first`: no earlier
      than the sum of the f cooldowns after it. */
  lemma {:induction false} AttemptsPaced(s: State, pending: bool, start: int, first: int, events: seq<Timed>, now: int)
    requires s.failures > 0 && Ordered(start, events) && now >= Clock(start, events)
    requires InTurn(s, pending, events)
    requires s.until >= first + Sum(s.failures)
    requires pending ==> start >= first + Sum(s.failures)
    ensures
      var end := Run(s, events);
      end.failures > 0 && end.until >= first + Sum(end.failures) && (Admits(end, now) ==> now >= first + Sum(end.failures))
    decreases |events|
  {
    if events != [] {
      var e := events[0];
      var next := Step(s, e.event, e.at);
      assert events[1..] != [] ==> events[1..][|events[1..]| - 1] == events[|events| - 1];
      var pending' := e.event.Admit? && (pending || Admits(s, e.at));
      AttemptsPaced(next, pending', e.at, first, events[1..], now);
    }
  }

  /** From a closed breaker: the first failure at `first`, then attempts in turn.
      The attempt after f failures comes no earlier than first + Sum(f). */
  lemma OutagePaced(first: int, events: seq<Timed>, now: int)
    requires Ordered(first, events) && now >= Clock(first, events)
    requires InTurn(Step(State(0, 0), Report(ConnectionFailed), first), false, events)
    ensures
      var end := Run(Step(State(0, 0), Report(ConnectionFailed), first), events);
      Admits(end, now) ==> now >= first + Sum(end.failures)
  {
    var s := Step(State(0, 0), Report(ConnectionFailed), first);
    assert Sum(1) == Sum(0) + Doubled(1, CAP);
    AttemptsPaced(s, false, first, first, events, now);
  }
}
