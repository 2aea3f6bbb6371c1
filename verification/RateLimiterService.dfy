/** What the token bucket owes its users: nothing earned is lost, whether or not anybody waits. The lower bound beside
    `RateLimiterSpec.WindowBound`. */
module RateLimiterService {
  import opened Bytes
  import opened RateLimiterSpec

  /** What a bucket holding `tokens` at `last` has earned by `now`, before it is capped. */
  function Filled(tokens: real, last: int, now: int, rate: Rate): real {
    tokens + (now - last) as real * rate as real / 1000000.0
  }

  /** With nobody waiting, a request is granted within the call exactly if it is no larger than the rate and than what the
      bucket held and has earned by the second reading of the clock, however long ago it was looked at. Otherwise it waits. */
  lemma GrantedAtOnceIff(s: Limiter, b: nat, clock: Clock)
    requires 0.0 <= s.tokens <= s.rate as real && s.waiting == [] && Ticking(clock) && s.last <= clock(0)
    ensures var r := AsyncWait(s, b, clock);
            && (b <= s.rate && b as real <= Filled(s.tokens, s.last, clock(1), s.rate) <==> r.granted == s.granted + [b])
            && (r.granted == s.granted + [b] <==> r.waiting == [])
            && (r.granted == s.granted <==> r.waiting == [b])
  {
    var u := Update(s, clock(0));
    var q := u.(waiting := [b]);
    assert u.waiting + [b] == [b] && [b][1..] == [];
    RefilledTwice(s, clock(0), clock(1), q);
    hide Update, Filled;
    assert Schedule(Grant(Update(q, clock(1))), clock, 2) == Grant(Update(q, clock(1))) by { UpdateKeepsQueue(q, clock(1)); }
    UpdateKeepsQueue(s, clock(0));
    UpdateKeepsQueue(q, clock(1));
    assert |s.granted + [b]| == |s.granted| + 1;
  }

  /** Looking at the clock once more on the way changes nothing. */
  lemma RefilledTwice(s: Limiter, t: int, now: int, q: Limiter)
    requires 0.0 <= s.tokens <= s.rate as real && s.last <= t <= now
    requires q == Update(s, t).(waiting := q.waiting)
    ensures Update(q, now).tokens == MinReal(Filled(s.tokens, s.last, now, s.rate), s.rate as real)
    ensures q.tokens <= Update(q, now).tokens
  {
    EarnedFacts(t - s.last, now - t, s.rate);
    assert Filled(s.tokens, s.last, now, s.rate) == s.tokens + Earned(t - s.last, s.rate) + Earned(now - t, s.rate);
  }

  /** A request that the first reading covers is paid from what was earned by then, up to the rate. */
  lemma PaidFromEarned(s: Limiter, b: nat, clock: Clock)
    requires 0.0 <= s.tokens <= s.rate as real && s.waiting == [] && s.last <= clock(0)
    requires b <= s.rate && b as real <= Filled(s.tokens, s.last, clock(0), s.rate)
    ensures var r, filled := AsyncWait(s, b, clock), Filled(s.tokens, s.last, clock(0), s.rate);
            && r.granted == s.granted + [b] && r.waiting == [] && r.last == clock(0) && r.rate == s.rate
            && r.tokens + b as real == if filled <= s.rate as real then filled else s.rate as real
  {
  }

  /** Serving the queue stops only at a request that is not covered. */
  lemma {:induction false} ServesAll(s: Limiter, clock: Clock, k: nat)
    ensures var r := Schedule(s, clock, k); r.waiting != [] ==> r.tokens < r.waiting[0] as real && r.deadline.Some?
    decreases |s.waiting|
  {
    if s.waiting != [] {
      var u := Update(s, clock(k));
      if u.tokens >= u.waiting[0] as real {
        ServesAll(Grant(u), clock, k + 1);
      }
    }
  }

  // ---------- runs ----------

  /** The bytes asked for. */
  function Demand(events: seq<Event>): nat {
    if events == [] then 0 else (if events[0].Wait? then events[0].bytes else 0) + Demand(events[1..])
  }

  /** Up to each request no more is asked for than `tokens` at time `last` and what is earned since. */
  ghost predicate Covered(events: seq<Event>, tokens: real, last: int, r: Rate) {
    forall j :: 0 <= j < |events| && events[j].Wait? ==>
      Demand(events[..j + 1]) as real <= Filled(tokens, last, events[j].clock(0), r)
  }

  /** Between any two requests no more is asked for than one bucket and what is earned meanwhile. */
  ghost predicate Sustained(events: seq<Event>, r: Rate) {
    forall i, j :: 0 <= i <= j < |events| && events[i].Wait? && events[j].Wait? ==>
      Demand(events[i..j + 1]) as real <= Filled(r as real, events[i].clock(0), events[j].clock(0), r)
  }

  predicate RatesFrom(events: seq<Event>, r: Rate) {
    forall i :: 0 <= i < |events| ==> events[i].SetRate? ==> events[i].rate >= r
  }

  lemma TailFacts(events: seq<Event>, r: Rate)
    requires events != [] && Sustained(events, r) && RatesFrom(events, r)
    ensures Sustained(events[1..], r) && RatesFrom(events[1..], r)
  {
    var rest := events[1..];
    forall i, j | 0 <= i <= j < |rest| && rest[i].Wait? && rest[j].Wait?
      ensures Demand(rest[i..j + 1]) as real <= Filled(r as real, rest[i].clock(0), rest[j].clock(0), r)
    {
      assert rest[i] == events[i + 1] && rest[j] == events[j + 1];
      assert rest[i..j + 1] == events[i + 1..j + 2];
    }
    assert forall i :: 0 <= i < |rest| ==> rest[i] == events[i + 1];
  }

  /** What is covered by `level` tokens at time `last` stays covered once the first request has been paid at `t`. */
  lemma PaidCovered(events: seq<Event>, level: real, last: int, r: Rate)
    requires events != [] && events[0].Wait? && Covered(events, level, last, r) && Sustained(events, r)
    ensures var e := events[0];
            var filled := Filled(level, last, e.clock(0), r);
            && e.bytes as real <= filled && e.bytes as real <= r as real
            && Covered(events[1..], MinReal(filled, r as real) - e.bytes as real, e.clock(0), r)
  {
    var e, rest := events[0], events[1..];
    var t, filled := e.clock(0), Filled(level, last, e.clock(0), r);
    assert events[..1] == [e] && events[0..1] == [e] && [e][1..] == [];
    assert Demand([e]) == e.bytes;
    forall j | 0 <= j < |rest| && rest[j].Wait?
      ensures Demand(rest[..j + 1]) as real <= Filled(MinReal(filled, r as real) - e.bytes as real, t, rest[j].clock(0), r)
    {
      assert rest[j] == events[j + 1];
      assert events[..j + 2][1..] == rest[..j + 1];
      assert events[0..j + 2] == events[..j + 2];
      assert Demand(events[..j + 2]) == e.bytes + Demand(rest[..j + 1]);
      FilledFurther(level, last, t, rest[j].clock(0), r);
      assert Demand(events[..j + 2]) as real <= Filled(r as real, t, rest[j].clock(0), r);
    }
  }

  lemma FilledFurther(tokens: real, last: int, t: int, now: int, r: Rate)
    ensures Filled(Filled(tokens, last, t, r), t, now, r) == Filled(tokens, last, now, r)
  {
    assert (now - last) as real == (now - t) as real + (t - last) as real;
  }

  /** A step that asks for nothing changes neither the time nor what covers the requests to come. */
  lemma SkipCovered(events: seq<Event>, level: real, last: int, r: Rate)
    requires events != [] && !events[0].Wait? && Covered(events, level, last, r)
    ensures Covered(events[1..], level, last, r)
  {
    var rest := events[1..];
    forall j | 0 <= j < |rest| && rest[j].Wait?
      ensures Demand(rest[..j + 1]) as real <= Filled(level, last, rest[j].clock(0), r)
    {
      assert rest[j] == events[j + 1];
      assert events[..j + 2][1..] == rest[..j + 1];
    }
  }

  lemma FilledMore(level: real, tokens: real, last: int, now: int, r: Rate, rate: Rate)
    requires level <= tokens && r <= rate && last <= now
    ensures Filled(level, last, now, r) <= Filled(tokens, last, now, rate)
  {
    EarnedMonotone(now - last, r, rate);
  }

  /** Paying the first request of a covered run leaves the bucket above the level that covers the others. */
  lemma PaysFirst(s: Limiter, b: nat, clock: Clock, level: real, r: Rate)
    requires 0.0 <= s.tokens <= s.rate as real && s.waiting == [] && s.last <= clock(0)
    requires r <= s.rate && level <= s.tokens && level <= r as real
    requires b as real <= Filled(level, s.last, clock(0), r) && b <= r
    ensures var s', l := AsyncWait(s, b, clock), MinReal(Filled(level, s.last, clock(0), r), r as real) - b as real;
            && s'.granted == s.granted + [b] && s'.waiting == [] && s'.last == clock(0) && s'.rate == s.rate
            && l <= s'.tokens && l <= r as real
  {
    FilledMore(level, s.tokens, s.last, clock(0), r, s.rate);
    hide Filled, AsyncWait;
    PaidFromEarned(s, b, clock);
  }

  /** Requests that keep within a bucket of rate `r`, which no rate in force is below, are all granted in the calls that
      make them, whatever else happens: nobody ever waits. */
  lemma {:induction false} SustainedNeverWaits(s: Limiter, events: seq<Event>, from: int, to: int, level: real, r: Rate)
    requires Valid(s) && s.waiting == [] && s.last <= to && InTime(s, events, from, to)
    requires r <= s.rate && RatesFrom(events, r)
    requires level <= s.tokens && level <= r as real && Covered(events, level, s.last, r) && Sustained(events, r)
    ensures Run(s, events).granted == s.granted + Requests(events) && Run(s, events).waiting == []
    decreases |events|
  {
    hide Covered, Sustained, RatesFrom, DeadlineOk, Within, Schedule, AsyncWait;
    if events == [] {
      assert s.granted + [] == s.granted;
    } else {
      var e, rest, s' := events[0], events[1..], Apply(s, events[0]);
      ApplyValid(s, e, from, to);
      TailFacts(events, r);
      match e
      case Wait(b, clock) =>
        FirstInTime(s, events, from, to);
        PaidCovered(events, level, s.last, r);
        PaysFirst(s, b, clock, level, r);
        SustainedNeverWaits(s', rest, from, to, MinReal(Filled(level, s.last, clock(0), r), r as real) - b as real, r);
        Assoc(s.granted, [b], Requests(rest));
      case Fire(clock) =>
        SkipCovered(events, level, s.last, r);
        NothingToServe(s, clock);
        SustainedNeverWaits(s', rest, from, to, level, r);
        assert [] + Requests(rest) == Requests(rest);
      case SetRate(rate) =>
        SkipCovered(events, level, s.last, r);
        FirstRate(events, r);
        SustainedNeverWaits(s', rest, from, to, level, r);
        assert [] + Requests(rest) == Requests(rest);
    }
  }

  lemma FirstInTime(s: Limiter, events: seq<Event>, from: int, to: int)
    requires events != [] && InTime(s, events, from, to) && events[0].Wait?
    ensures s.last <= events[0].clock(0)
  {
  }

  lemma FirstRate(events: seq<Event>, r: Rate)
    requires events != [] && RatesFrom(events, r)
    ensures events[0].SetRate? ==> events[0].rate >= r
  {
  }

  lemma NothingToServe(s: Limiter, clock: Clock)
    requires s.waiting == []
    ensures var s' := TimerFires(s, clock); s' == s.(deadline := s'.deadline)
  {
  }
}
