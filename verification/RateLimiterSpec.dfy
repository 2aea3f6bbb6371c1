/** The token bucket of src/common/rate_limiter.h, for positive rates, with a clock in whole microseconds
    and exact rationals for `tokens_`. */
module RateLimiterSpec {
  import opened Bytes

  type Rate = r: int | r > 0 witness 1

  /** `waiting` are the byte counts of `waiting_handlers_`, `deadline` the expiry of the armed timer.
      `granted` (who was let through, in order) and `disturbed` (since the timer was armed the rate has been
      lowered, or changed while it was below the head request) are histories. */
  datatype Limiter = Limiter(
    rate: Rate,
    tokens: real,
    last: int,
    waiting: seq<nat>,
    deadline: Option<int>,
    granted: seq<nat>,
    disturbed: bool)

  /** The readings of the clock that one call makes, in order. */
  type Clock = nat -> int

  ghost predicate Ticking(clock: Clock) {
    forall i: nat, j: nat :: i <= j ==> clock(i) <= clock(j)
  }

  /** What happens to a limiter, and when. */
  datatype Event = Wait(bytes: nat, clock: Clock) | Fire(clock: Clock) | SetRate(rate: Rate)

  function New(rate: Rate, now: int): Limiter {
    Limiter(rate, rate as real, now, [], None, [], false)
  }

  function MinReal(a: real, b: real): real {
    if a <= b then a else b
  }

  /** Tokens earned in `us` microseconds. */
  function Earned(us: int, rate: Rate): real {
    us as real * rate as real / 1000000.0
  }

  function Update(s: Limiter, now: int): Limiter {
    s.(last := now, tokens := MinReal(s.tokens + Earned(now - s.last, s.rate), s.rate as real))
  }

  /** Microseconds until the head request can be served. */
  function Delay(s: Limiter): int
    requires s.waiting != []
  {
    ((s.waiting[0] as real - s.tokens) * 1000000.0 / s.rate as real).Floor
  }

  function Grant(u: Limiter): Limiter
    requires u.waiting != []
  {
    u.(tokens := u.tokens - u.waiting[0] as real, waiting := u.waiting[1..], granted := u.granted + [u.waiting[0]])
  }

  /** `schedule_timer`: serves waiting requests while there are tokens, then arms the timer. Every turn reads the
      clock anew, from reading `k` on, and so does arming the timer. */
  function Schedule(s: Limiter, clock: Clock, k: nat): Limiter
    decreases |s.waiting|
  {
    if s.waiting == [] then s
    else
      var u := Update(s, clock(k));
      if u.tokens >= u.waiting[0] as real then Schedule(Grant(u), clock, k + 1)
      else u.(deadline := Some(clock(k + 1) + Delay(u)), disturbed := false)
  }

  function AsyncWait(s: Limiter, bytes: nat, clock: Clock): Limiter {
    var u := Update(s, clock(0));
    if u.waiting == [] && u.tokens >= bytes as real then
      u.(tokens := u.tokens - bytes as real, granted := u.granted + [bytes])
    else
      var q := u.(waiting := u.waiting + [bytes]);
      if |q.waiting| == 1 then Schedule(q, clock, 1) else q
  }

  /** The timer fires at the first reading, at its deadline or later. */
  function TimerFires(s: Limiter, clock: Clock): Limiter {
    if s.deadline.None? || clock(0) < s.deadline.value then s else Schedule(s.(deadline := None), clock, 0)
  }

  function ChangeRate(s: Limiter, rate: Rate): Limiter {
    s.(rate := rate, tokens := MinReal(s.tokens, rate as real), disturbed := s.disturbed || rate < s.rate || (s.waiting != [] && s.waiting[0] > s.rate))
  }

  function Apply(s: Limiter, e: Event): Limiter {
    match e
    case Wait(bytes, clock) => AsyncWait(s, bytes, clock)
    case Fire(clock) => TimerFires(s, clock)
    case SetRate(rate) => ChangeRate(s, rate)
  }

  function Run(s: Limiter, events: seq<Event>): Limiter
    decreases |events|
  {
    if events == [] then s else Run(Apply(s, events[0]), events[1..])
  }

  // ---------- invariant ----------

  /** Tokens there will be at time `t`, if nothing else happens. */
  function TokensAt(s: Limiter, t: int): real {
    MinReal(s.tokens + Earned(t - s.last, s.rate), s.rate as real)
  }

  /** From one microsecond past the deadline on there are tokens for the head request, if its size does
      not exceed the rate and the rate has not been lowered meanwhile. */
  ghost predicate DeadlineOk(s: Limiter) {
    s.waiting != [] && s.deadline.Some? && !s.disturbed && s.waiting[0] <= s.rate ==>
      forall t: int :: t >= s.last && t > s.deadline.value ==> TokensAt(s, t) >= s.waiting[0] as real
  }

  /** Tokens stay between 0 and the rate, and a non-empty queue always has an armed timer. */
  ghost predicate Valid(s: Limiter) {
    && 0.0 <= s.tokens <= s.rate as real
    && (s.waiting != [] ==> s.deadline.Some?)
    && DeadlineOk(s)
  }

  lemma EarnedFacts(a: int, b: int, rate: Rate)
    requires a >= 0 && b >= 0
    ensures Earned(a, rate) >= 0.0
    ensures Earned(a + b, rate) == Earned(a, rate) + Earned(b, rate)
  {
    assert (a + b) as real == a as real + b as real;
  }

  lemma EarnedMonotone(us: int, rate: Rate, rate': Rate)
    requires us >= 0 && rate <= rate'
    ensures Earned(us, rate) <= Earned(us, rate')
  {
    assert us as real * rate as real <= us as real * rate' as real;
  }

  lemma UpdateValid(s: Limiter, now: int)
    requires Valid(s) && now >= s.last
    ensures Valid(Update(s, now))
  {
    var u := Update(s, now);
    EarnedFacts(now - s.last, 0, s.rate);
    if u.waiting != [] && u.deadline.Some? && !u.disturbed && u.waiting[0] <= u.rate {
      forall t: int | t >= u.last && t > u.deadline.value ensures TokensAt(u, t) >= u.waiting[0] as real {
        EarnedFacts(now - s.last, t - now, s.rate);
        assert TokensAt(s, t) >= s.waiting[0] as real;
      }
    }
  }

  /** The computed delay is long enough, up to less than one microsecond. */
  lemma DelayEnough(u: Limiter, t: int)
    requires u.waiting != [] && 0.0 <= u.tokens < u.waiting[0] as real
    requires t > u.last + Delay(u)
    ensures u.tokens + Earned(t - u.last, u.rate) >= u.waiting[0] as real
    ensures Delay(u) >= 0
  {
    var needed, r := u.waiting[0] as real - u.tokens, u.rate as real;
    var x := needed * 1000000.0 / r;
    assert x >= 0.0;
    var us := (t - u.last) as real;
    assert us >= x;
    assert us * r >= needed * 1000000.0 by {
      assert x * r == needed * 1000000.0;
      assert us * r >= x * r;
    }
  }

  lemma {:induction false} ScheduleValid(s: Limiter, clock: Clock, k: nat, to: int)
    requires 0.0 <= s.tokens <= s.rate as real && Ticking(clock) && clock(k) >= s.last
    requires s.last <= to && forall i: nat :: clock(i) <= to
    ensures Valid(Schedule(s, clock, k)) && Schedule(s, clock, k).rate == s.rate
    ensures s.last <= Schedule(s, clock, k).last <= to
    decreases |s.waiting|
  {
    if s.waiting != [] {
      EarnedFacts(clock(k) - s.last, 0, s.rate);
      var u := Update(s, clock(k));
      assert clock(k) <= clock(k + 1);
      if u.tokens >= u.waiting[0] as real {
        ScheduleValid(Grant(u), clock, k + 1, to);
      } else {
        var armed := Schedule(s, clock, k);
        forall t: int | t >= armed.last && t > armed.deadline.value && armed.waiting[0] <= armed.rate
          ensures TokensAt(armed, t) >= armed.waiting[0] as real
        {
          DelayEnough(u, t);
        }
      }
    }
  }

  /** The readings lie in [from, to], and the clock has not gone back since the last one. */
  ghost predicate Within(s: Limiter, e: Event, from: int, to: int) {
    match e
    case SetRate(_) => true
    case Wait(_, clock) => Ticking(clock) && from <= clock(0) && s.last <= clock(0) && forall i: nat :: clock(i) <= to
    case Fire(clock) => Ticking(clock) && from <= clock(0) && s.last <= clock(0) && forall i: nat :: clock(i) <= to
  }

  lemma SetRateValid(s: Limiter, rate: Rate)
    requires Valid(s)
    ensures Valid(ChangeRate(s, rate))
  {
    var c := ChangeRate(s, rate);
    if c.waiting != [] && c.deadline.Some? && !c.disturbed && c.waiting[0] <= c.rate {
      forall t: int | t >= c.last && t > c.deadline.value ensures TokensAt(c, t) >= c.waiting[0] as real {
        assert TokensAt(s, t) >= s.waiting[0] as real;
        EarnedMonotone(t - c.last, s.rate, rate);
      }
    }
  }

  lemma ApplyValid(s: Limiter, e: Event, from: int, to: int)
    requires Valid(s) && Within(s, e, from, to) && s.last <= to
    ensures Valid(Apply(s, e)) && s.last <= Apply(s, e).last <= to
  {
    hide DeadlineOk, Schedule;
    match e
    case Wait(bytes, clock) =>
      EarnedFacts(clock(0) - s.last, 0, s.rate);
      UpdateValid(s, clock(0));
      var u := Update(s, clock(0));
      var q := u.(waiting := u.waiting + [bytes]);
      assert clock(0) <= clock(1) && clock(0) <= to;
      ScheduleValid(q, clock, 1, to);
      QueueValid(u, bytes);
    case Fire(clock) => ScheduleValid(s.(deadline := None), clock, 0, to);
    case SetRate(rate) => SetRateValid(s, rate);
  }

  lemma QueueValid(u: Limiter, bytes: nat)
    requires Valid(u)
    ensures u.waiting != [] ==> Valid(u.(waiting := u.waiting + [bytes]))
    ensures u.waiting == [] && u.tokens >= bytes as real ==>
              Valid(u.(tokens := u.tokens - bytes as real, granted := u.granted + [bytes]))
  {
    var q := u.(waiting := u.waiting + [bytes]);
    if u.waiting != [] {
      assert q.waiting[0] == u.waiting[0];
      assert forall t :: TokensAt(q, t) == TokensAt(u, t);
    }
  }

  // ---------- runs ----------

  /** Events in time order, all in [from, to]. */
  ghost predicate InTime(s: Limiter, events: seq<Event>, from: int, to: int)
    decreases |events|
  {
    events == [] || (Within(s, events[0], from, to) && InTime(Apply(s, events[0]), events[1..], from, to))
  }

  predicate RatesUpTo(events: seq<Event>, r: Rate) {
    forall i :: 0 <= i < |events| ==> events[i].SetRate? ==> events[i].rate <= r
  }

  function Sum(grants: seq<nat>): nat {
    if grants == [] then 0 else Sum(grants[..|grants| - 1]) + grants[|grants| - 1]
  }

  lemma SumSnoc(grants: seq<nat>, g: nat)
    ensures Sum(grants + [g]) == Sum(grants) + g
  {
    assert (grants + [g])[..|grants|] == grants;
  }

  lemma {:induction false} RunValid(s: Limiter, events: seq<Event>, from: int, to: int)
    requires Valid(s) && s.last <= to && InTime(s, events, from, to)
    ensures Valid(Run(s, events)) && Run(s, events).last <= to
    decreases |events|
  {
    hide Valid, Apply, Within;
    if events != [] {
      ApplyValid(s, events[0], from, to);
      RunValid(Apply(s, events[0]), events[1..], from, to);
    }
  }

  // ---------- first come, first served ----------

  /** The requests made, in order. */
  function Requests(events: seq<Event>): seq<nat> {
    if events == [] then []
    else (if events[0].Wait? then [events[0].bytes] else []) + Requests(events[1..])
  }

  lemma {:induction false} ScheduleFifo(s: Limiter, clock: Clock, k: nat)
    ensures Schedule(s, clock, k).granted + Schedule(s, clock, k).waiting == s.granted + s.waiting
    decreases |s.waiting|
  {
    if s.waiting != [] {
      var u := Update(s, clock(k));
      if u.tokens >= u.waiting[0] as real {
        ScheduleFifo(Grant(u), clock, k + 1);
        Assoc(s.granted, [s.waiting[0]], s.waiting[1..]);
        assert s.waiting == [s.waiting[0]] + s.waiting[1..];
      }
    }
  }

  /** Requests are granted in the order they were made: those granted, then those waiting, are all. */
  lemma {:induction false} Fifo(s: Limiter, events: seq<Event>)
    ensures Run(s, events).granted + Run(s, events).waiting == s.granted + s.waiting + Requests(events)
    decreases |events|
  {
    hide Schedule, Update;
    if events == [] {
      assert s.granted + s.waiting + [] == s.granted + s.waiting;
    } else {
      var e, s' := events[0], Apply(s, events[0]);
      Fifo(s', events[1..]);
      match e
      case Wait(bytes, clock) =>
        var u := Update(s, clock(0));
        assert u.granted == s.granted && u.waiting == s.waiting by { UpdateKeepsQueue(s, clock(0)); }
        var q := u.(waiting := u.waiting + [bytes]);
        ScheduleFifo(q, clock, 1);
        Assoc(s.granted, s.waiting, [bytes]);
        Assoc(s.granted + s.waiting, [bytes], Requests(events[1..]));
        if u.waiting == [] {
          assert s.granted + [bytes] + [] == s.granted + [] + [bytes];
        }
      case Fire(clock) =>
        ScheduleFifo(s.(deadline := None), clock, 0);
        assert [] + Requests(events[1..]) == Requests(events[1..]);
      case SetRate(_) =>
        assert [] + Requests(events[1..]) == Requests(events[1..]);
    }
  }

  lemma UpdateKeepsQueue(s: Limiter, now: int)
    ensures Update(s, now).granted == s.granted && Update(s, now).waiting == s.waiting
  {
  }

  // ---------- the token-bucket bound ----------

  /** What may have been granted since time `start`, when `base` bytes had been granted: nothing before the
      first refill, and afterwards no more than one bucket and what was earned, less what is left. */
  ghost predicate Credit(s: Limiter, base: nat, start: int, r: Rate) {
    && s.rate <= r
    && 0.0 <= s.tokens <= r as real
    && (s.last < start ==> Sum(s.granted) == base)
    && (s.last >= start ==> Sum(s.granted) as real + s.tokens <= base as real + r as real + Earned(s.last - start, r))
  }

  lemma UpdateCredit(s: Limiter, now: int, base: nat, start: int, r: Rate)
    requires Credit(s, base, start, r) && now >= s.last && now >= start
    ensures Credit(Update(s, now), base, start, r)
  {
    EarnedFacts(now - s.last, 0, s.rate);
    if s.last < start {
      EarnedFacts(now - start, 0, r);
    } else {
      EarnedFacts(s.last - start, now - s.last, r);
      EarnedMonotone(now - s.last, s.rate, r);
    }
  }

  /** Granting moves tokens into the sum. */
  lemma GrantCredit(u: Limiter, g: nat, rest: seq<nat>, base: nat, start: int, r: Rate)
    requires Credit(u, base, start, r) && u.last >= start && u.tokens >= g as real
    ensures Credit(u.(tokens := u.tokens - g as real, waiting := rest, granted := u.granted + [g]), base, start, r)
  {
    hide Earned, Sum;
    SumSnoc(u.granted, g);
  }

  lemma {:induction false} ScheduleCredit(s: Limiter, clock: Clock, k: nat, base: nat, start: int, r: Rate)
    requires Credit(s, base, start, r) && Ticking(clock) && clock(k) >= s.last && clock(k) >= start
    ensures Credit(Schedule(s, clock, k), base, start, r)
    decreases |s.waiting|
  {
    if s.waiting != [] {
      UpdateCredit(s, clock(k), base, start, r);
      var u := Update(s, clock(k));
      if u.tokens >= u.waiting[0] as real {
        assert clock(k) <= clock(k + 1);
        GrantCredit(u, u.waiting[0], u.waiting[1..], base, start, r);
        ScheduleCredit(Grant(u), clock, k + 1, base, start, r);
      }
    }
  }

  lemma ApplyCredit(s: Limiter, e: Event, from: int, to: int, base: nat, r: Rate)
    requires Credit(s, base, from, r) && Within(s, e, from, to)
    requires e.SetRate? ==> e.rate <= r
    ensures Credit(Apply(s, e), base, from, r)
  {
    hide Schedule;
    match e
    case Wait(bytes, clock) =>
      UpdateCredit(s, clock(0), base, from, r);
      var u := Update(s, clock(0));
      if u.waiting == [] && u.tokens >= bytes as real {
        GrantCredit(u, bytes, u.waiting, base, from, r);
      }
      assert clock(0) <= clock(1);
      ScheduleCredit(u.(waiting := u.waiting + [bytes]), clock, 1, base, from, r);
    case Fire(clock) => ScheduleCredit(s.(deadline := None), clock, 0, base, from, r);
    case SetRate(_) =>
  }

  lemma RatesRest(events: seq<Event>, r: Rate)
    requires events != [] && RatesUpTo(events, r)
    ensures RatesUpTo(events[1..], r) && (events[0].SetRate? ==> events[0].rate <= r)
  {
    assert forall i :: 0 <= i < |events| - 1 ==> events[1..][i] == events[i + 1];
  }

  lemma {:induction false} RunCredit(s: Limiter, events: seq<Event>, from: int, to: int, base: nat, r: Rate)
    requires Valid(s) && s.last <= to && InTime(s, events, from, to)
    requires Credit(s, base, from, r) && RatesUpTo(events, r)
    ensures Credit(Run(s, events), base, from, r)
    decreases |events|
  {
    hide Valid, Apply, Credit, RatesUpTo, Within;
    if events != [] {
      var e := events[0];
      RatesRest(events, r);
      ApplyValid(s, e, from, to);
      ApplyCredit(s, e, from, to, base, r);
      RunCredit(Apply(s, e), events[1..], from, to, base, r);
    }
  }

  /** In any window [from, to] no more is granted than one bucket and what the window earns, both at the
      largest rate in force during the window. */
  lemma WindowBound(s: Limiter, events: seq<Event>, from: int, to: int, r: Rate)
    requires Valid(s) && s.last <= from <= to && InTime(s, events, from, to)
    requires s.rate <= r && RatesUpTo(events, r)
    ensures Sum(Run(s, events).granted) as real <= Sum(s.granted) as real + r as real + Earned(to - from, r)
  {
    hide Run, RatesUpTo, InTime, DeadlineOk;
    var base, s' := Sum(s.granted), Run(s, events);
    assert Credit(s, base, from, r) by { EarnedFacts(0, 0, r); }
    RunCredit(s, events, from, to, base, r);
    RunValid(s, events, from, to);
    EarnedFacts(to - from, 0, r);
    if s'.last >= from {
      EarnedFacts(s'.last - from, to - s'.last, r);
    }
  }

  // ---------- progress ----------

  lemma {:induction false} ScheduleGrows(s: Limiter, clock: Clock, k: nat)
    ensures s.granted <= Schedule(s, clock, k).granted
    decreases |s.waiting|
  {
    if s.waiting != [] {
      var u := Update(s, clock(k));
      if u.tokens >= u.waiting[0] as real {
        ScheduleGrows(Grant(u), clock, k + 1);
      }
    }
  }

  /** `us` microseconds earn at most `bytes` tokens. */
  predicate EarnsAtMost(us: int, rate: Rate, bytes: nat) {
    us >= 0 && Earned(us, rate) <= bytes as real
  }

  /** The timer is armed for no longer than the head request takes to earn, from a reading `j` of the clock on. */
  lemma {:induction false} ArmedSoon(s: Limiter, clock: Clock, k: nat) returns (j: nat)
    requires 0.0 <= s.tokens <= s.rate as real && Ticking(clock) && clock(k) >= s.last
    ensures var s' := Schedule(s, clock, k);
            s'.waiting != [] ==>
              s'.deadline.Some? && j > k && EarnsAtMost(s'.deadline.value - clock(j), s.rate, s'.waiting[0])
    decreases |s.waiting|
  {
    hide Delay, Earned, EarnsAtMost;
    j := k + 1;
    if s.waiting != [] {
      EarnedFacts(clock(k) - s.last, 0, s.rate);
      var u := Update(s, clock(k));
      if u.tokens >= u.waiting[0] as real {
        assert clock(k) <= clock(k + 1);
        j := ArmedSoon(Grant(u), clock, k + 1);
      } else {
        DelayBrief(u);
      }
    }
  }

  lemma DelayBrief(u: Limiter)
    requires u.waiting != [] && 0.0 <= u.tokens < u.waiting[0] as real
    ensures EarnsAtMost(Delay(u), u.rate, u.waiting[0])
  {
    var needed, r := (u.waiting[0] as real - u.tokens) * 1000000.0, u.rate as real;
    var x := needed / r;
    assert x * r == needed;
    assert x >= 0.0;
    FloorTimes(x, r);
  }

  lemma FloorTimes(x: real, r: real)
    requires r > 0.0
    ensures x.Floor as real * r <= x * r
  {
  }

  /** A head request within the rate is granted by the first firing more than one microsecond tick past the
      deadline, unless the rate changed for the worse since the timer was armed. */
  lemma HeadGranted(s: Limiter, clock: Clock)
    requires Valid(s) && s.waiting != [] && !s.disturbed && s.waiting[0] <= s.rate
    requires clock(0) >= s.last && clock(0) > s.deadline.value
    ensures s.granted + [s.waiting[0]] <= TimerFires(s, clock).granted
  {
    assert TokensAt(s, clock(0)) >= s.waiting[0] as real;
    ScheduleGrows(Grant(Update(s.(deadline := None), clock(0))), clock, 1);
  }

  /** Nothing is granted, and the queue only grows, while the head request exceeds every rate in force. */
  lemma {:induction false} HeadBlocked(s: Limiter, events: seq<Event>, from: int, to: int, r: Rate)
    requires Valid(s) && s.last <= to && InTime(s, events, from, to)
    requires s.rate <= r && RatesUpTo(events, r)
    requires s.waiting != [] && s.waiting[0] > r
    ensures Run(s, events).granted == s.granted && s.waiting <= Run(s, events).waiting
    decreases |events|
  {
    hide Valid, Apply, RatesUpTo, Within;
    if events != [] {
      var e := events[0];
      RatesRest(events, r);
      ApplyValid(s, e, from, to);
      ApplyBlocked(s, e);
      HeadBlocked(Apply(s, e), events[1..], from, to, r);
    }
  }

  lemma ApplyBlocked(s: Limiter, e: Event)
    requires s.waiting != [] && s.waiting[0] > s.rate
    ensures Apply(s, e).granted == s.granted && s.waiting <= Apply(s, e).waiting
    ensures Apply(s, e).rate == if e.SetRate? then e.rate else s.rate
  {
  }
}
