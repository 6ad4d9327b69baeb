// The node RPC breaker: how often the node can be called while it keeps failing, however often the page asks.
module Breaker {
  import opened Options

  // Seconds to wait, indexed by the number of consecutive failures so far.
  const DELAYS: seq<int> := [0, 5, 15, 30, 60, 120, 300, 600]

  datatype Reply = Height(n: int) | Fail(msg: string)

  // One invocation: the clock when it looks, the clock when the node's answer is handled, and what the node would say.
  datatype Ask = Ask(at: int, done: int, reply: Reply)

  // No nextTryAt is the zero time, which is always in the past.
  datatype State = State(failures: nat, nextTryAt: Option<int>, lastErr: string)

  const INITIAL := State(0, None, "")

  // The failure count is incremented before it is used as an index.
  function DelayAfter(failures: nat): int {
    DELAYS[if failures >= |DELAYS| then |DELAYS| - 1 else failures]
  }

  function Truncate(msg: string): string {
    if |msg| > 80 then msg[..77] + "..." else msg
  }

  predicate Allowed(s: State, at: int) {
    s.nextTryAt.None? || s.nextTryAt.value <= at
  }

  function Next(s: State, q: Ask): State {
    if !Allowed(s, q.at) then s
    else if q.reply.Height? then INITIAL
    else
      var delay := DelayAfter(s.failures + 1);
      State(s.failures + 1, if delay > 0 then Some(q.done + delay) else s.nextTryAt, Truncate(q.reply.msg))
  }

  class RpcBreaker {
    var failures: nat
    var nextTryAt: Option<int>
    var lastErr: string

    constructor ()
      ensures View() == INITIAL
    {
      failures, nextTryAt, lastErr := 0, None, "";
    }

    ghost function View(): State
      reads this
    {
      State(failures, nextTryAt, lastErr)
    }

    // During back-off the node is not called and the cached error is shown.
    method Query(configured: bool, q: Ask) returns (height: int, available: bool, msg: string)
      modifies this
      ensures View() == if configured then Next(old(View()), q) else old(View())
      ensures configured && !Allowed(old(View()), q.at) ==> View() == old(View())
      ensures available ==> failures == 0 && nextTryAt == None && lastErr == ""
      ensures available <==> configured && Allowed(old(View()), q.at) && q.reply.Height?
      ensures available ==> height == q.reply.n && msg == ""
      ensures !available ==> height == 0
      ensures configured && !Allowed(old(View()), q.at) ==> old(lastErr) <= msg
      ensures configured && Allowed(old(View()), q.at) && q.reply.Fail? ==> msg == q.reply.msg
      ensures !configured ==> msg == "RPC not configured"
    {
      if !configured {
        return 0, false, "RPC not configured";
      }
      if nextTryAt.Some? && nextTryAt.value - q.at > 0 {
        return 0, false, lastErr + " (retry later)";
      }
      match q.reply
      case Fail(err) =>
        failures := failures + 1;
        var idx := failures;
        if idx >= |DELAYS| {
          idx := |DELAYS| - 1;
        }
        var delay := DELAYS[idx];
        if delay > 0 {
          nextTryAt := Some(q.done + delay);
        }
        lastErr := Truncate(err);
        return 0, false, err;
      case Height(n) =>
        failures := 0;
        nextTryAt := None;
        lastErr := "";
        return n, true, "";
    }
  }

  /******* Runs of the breaker *******/

  // A clock that never goes back.
  ghost predicate Monotone(qs: seq<Ask>) {
    && (forall i :: 0 <= i < |qs| ==> qs[i].at <= qs[i].done)
    && (forall i :: 0 < i < |qs| ==> qs[i - 1].done <= qs[i].at)
  }

  // The state after some asks, how many of them reached the node, when the first of these was done and the last began.
  datatype Trace = Trace(s: State, calls: nat, firstDone: int, lastAt: int)

  function Run(s: State, qs: seq<Ask>): Trace {
    if qs == [] then Trace(s, 0, 0, 0)
    else
      var t, q := Run(s, qs[..|qs| - 1]), qs[|qs| - 1];
      if Allowed(t.s, q.at) then Trace(Next(t.s, q), t.calls + 1, if t.calls == 0 then q.done else t.firstDone, q.at)
      else t
  }

  // Every call that reaches the node fails. What the node would have said to a suppressed ask does not matter.
  ghost predicate CallsFail(s: State, qs: seq<Ask>) {
    qs == [] ||
    (var rest, q := qs[..|qs| - 1], qs[|qs| - 1];
     CallsFail(s, rest) && (Allowed(Run(s, rest).s, q.at) ==> q.reply.Fail?))
  }

  // Total wait between n calls that all fail, starting from f earlier failures.
  function Span(f: nat, n: nat): int {
    if n <= 1 then 0 else Span(f, n - 1) + DelayAfter(f + n - 1)
  }

  lemma {:induction false} SpanGrows(f: nat, n: nat)
    ensures Span(f, n) >= Span(0, n)
  {
    if n <= 1 {
    } else {
      SpanGrows(f, n - 1);
      DelaysRise(n - 1, f + n - 1);
    }
  }

  lemma DelaysRise(i: nat, j: nat)
    requires i <= j
    ensures DelayAfter(i) <= DelayAfter(j)
  {
  }

  // Entry 0 of the table is never used: already the first failure is followed by five seconds of silence.
  lemma EveryFailureWaits(s: State, q: Ask)
    requires Allowed(s, q.at) && q.reply.Fail?
    ensures var d := DelayAfter(s.failures + 1); d >= 5 && Next(s, q).nextTryAt == Some(q.done + d)
    ensures s.failures == 0 ==> Next(s, q).nextTryAt == Some(q.done + 5)
  {
  }

  // The wait after each failure in a row, the first included.
  lemma DelaysAre(s: State, q: Ask)
    requires Allowed(s, q.at) && q.reply.Fail?
    ensures Next(s, q).failures == s.failures + 1 && Next(s, q).nextTryAt.Some?
    ensures Next(s, q).nextTryAt.value - q.done ==
            match s.failures
            case 0 => 5
            case 1 => 15
            case 2 => 30
            case 3 => 60
            case 4 => 120
            case 5 => 300
            case _ => 600
  {
  }

  // The node's last answer, if it was asked at all.
  function LastReply(s: State, qs: seq<Ask>): Option<Reply> {
    if qs == [] then None
    else
      var rest, q := qs[..|qs| - 1], qs[|qs| - 1];
      if Allowed(Run(s, rest).s, q.at) then Some(q.reply) else LastReply(s, rest)
  }

  // The text shown while the node is not asked is that of its last answer, if that was a failure: the whole of it, or
  // its first 77 characters and three dots if it has more than 80.
  lemma {:induction false} CachedError(s: State, qs: seq<Ask>)
    ensures var err := Run(s, qs).s.lastErr;
            match LastReply(s, qs)
            case None => err == s.lastErr
            case Some(Height(_)) => err == ""
            case Some(Fail(msg)) =>
              if |msg| <= 80 then err == msg else |err| == 80 && err[..77] == msg[..77] && err[77..] == "..."
  {
    if qs == [] {
    } else {
      CachedError(s, qs[..|qs| - 1]);
    }
  }

  lemma {:induction false} SpanIs(n: nat)
    requires n >= 7
    ensures Span(0, n) == 530 + 600 * (n - 7)
  {
    if n == 7 {
      assert Span(0, 1) == 0 && Span(0, 2) == 5 && Span(0, 3) == 20 && Span(0, 4) == 50;
      assert Span(0, 5) == 110 && Span(0, 6) == 230;
    } else {
      SpanIs(n - 1);
    }
  }

  lemma {:induction false} CallsSpaced(s: State, qs: seq<Ask>)
    requires Monotone(qs) && CallsFail(s, qs)
    ensures var t := Run(s, qs);
            && (t.calls == 0 ==> t.s == s)
            && (t.calls > 0 ==>
                  && t.s.failures == s.failures + t.calls
                  && t.s.nextTryAt.Some? && t.s.nextTryAt.value - t.firstDone >= Span(s.failures, t.calls + 1))
            && (t.calls > 1 ==> t.lastAt - t.firstDone >= Span(s.failures, t.calls))
  {
    if qs == [] {
    } else {
      var rest, q := qs[..|qs| - 1], qs[|qs| - 1];
      CallsSpaced(s, rest);
      var t := Run(s, rest);
      if Allowed(t.s, q.at) {
        EveryFailureWaits(t.s, q);
        if t.calls == 0 {
          assert Span(s.failures, 1) == 0;
        }
      }
    }
  }

  // The rate bound, from any state the breaker may be in and for any number of asks: n calls in a row that all fail
  // take at least 530 + 600 (n - 7) seconds once n is 7 or more.
  lemma RateBound(s: State, qs: seq<Ask>)
    requires Monotone(qs) && CallsFail(s, qs)
    ensures var t := Run(s, qs);
            && (t.calls > 1 ==> t.lastAt - t.firstDone >= Span(0, t.calls))
            && (t.calls >= 7 ==> t.lastAt - t.firstDone >= 530 + 600 * (t.calls - 7))
  {
    CallsSpaced(s, qs);
    var t := Run(s, qs);
    SpanGrows(s.failures, t.calls);
    if t.calls >= 7 {
      SpanIs(t.calls);
    }
  }

  // Asking the moment each wait is over, with a node that fails at once.
  function Eager(n: nat): seq<Ask> {
    if n == 0 then [] else Eager(n - 1) + [Ask(Span(0, n), Span(0, n), Fail("down"))]
  }

  lemma SpanRises(n: nat)
    requires n > 0
    ensures Span(0, n - 1) <= Span(0, n)
  {
    DelaysRise(0, n - 1);
  }

  // One more ask after a run of failing calls.
  lemma AskMore(s: State, rest: seq<Ask>, q: Ask)
    requires Monotone(rest) && CallsFail(s, rest) && q.reply.Fail?
    requires q.at <= q.done && (rest != [] ==> rest[|rest| - 1].done <= q.at)
    ensures Monotone(rest + [q]) && CallsFail(s, rest + [q])
  {
    hide Run;
    assert (rest + [q])[..|rest + [q]| - 1] == rest;
  }

  lemma {:induction false} EagerIs(n: nat)
    ensures Monotone(Eager(n)) && CallsFail(INITIAL, Eager(n)) && |Eager(n)| == n
    ensures n > 0 ==> Eager(n)[n - 1] == Ask(Span(0, n), Span(0, n), Fail("down"))
  {
    hide Run, Span, Monotone, CallsFail;
    if n == 0 {
      NoAsks();
    } else {
      EagerIs(n - 1);
      SpanRises(n);
      AskMore(INITIAL, Eager(n - 1), Ask(Span(0, n), Span(0, n), Fail("down")));
    }
  }

  lemma NoAsks()
    ensures Monotone([]) && CallsFail(INITIAL, [])
    ensures Run(INITIAL, []) == Trace(INITIAL, 0, 0, 0) && Eager(0) == []
  {
  }

  // The bound is exact: an eager caller attains it.
  lemma {:induction false} RateAttained(n: nat)
    requires n > 0
    ensures Monotone(Eager(n)) && CallsFail(INITIAL, Eager(n))
    ensures var t := Run(INITIAL, Eager(n)); t.calls == n && t.lastAt - t.firstDone == Span(0, n)
    ensures Run(INITIAL, Eager(n)).firstDone == 0
    ensures var s := Run(INITIAL, Eager(n)).s; s.failures == n && s.nextTryAt == Some(Span(0, n + 1))
  {
    hide Monotone, CallsFail, Next, Run, Allowed, DelayAfter, Span;
    EagerIs(n);
    var rest, q := Eager(n - 1), Ask(Span(0, n), Span(0, n), Fail("down"));
    RunMore(INITIAL, rest, q);
    SpanMore(n);
    if n == 1 {
      NoAsks();
    } else {
      RateAttained(n - 1);
    }
    AllowedAfter(Run(INITIAL, rest).s, q.at);
    EveryFailureWaits(Run(INITIAL, rest).s, q);
    FailureCounted(Run(INITIAL, rest).s, q);
  }

  lemma RunMore(s: State, rest: seq<Ask>, q: Ask)
    ensures var t, u := Run(s, rest), Run(s, rest + [q]);
            if Allowed(t.s, q.at)
            then u == Trace(Next(t.s, q), t.calls + 1, if t.calls == 0 then q.done else t.firstDone, q.at)
            else u == t
  {
    assert (rest + [q])[..|rest|] == rest;
  }

  lemma SpanMore(n: nat)
    requires n > 0
    ensures Span(0, 1) == 0 && Span(0, n + 1) == Span(0, n) + DelayAfter(n)
  {
  }

  lemma AllowedAfter(s: State, at: int)
    requires s.nextTryAt.Some? ==> s.nextTryAt.value <= at
    ensures Allowed(s, at)
  {
  }

  lemma FailureCounted(s: State, q: Ask)
    requires Allowed(s, q.at) && q.reply.Fail?
    ensures Next(s, q).failures == s.failures + 1
  {
  }

  // One success forgets every failure, whatever came before.
  lemma SuccessResets(s: State, qs: seq<Ask>, q: Ask)
    requires Allowed(Run(s, qs).s, q.at) && q.reply.Height?
    ensures Run(s, qs + [q]).s == INITIAL
  {
  }
}
