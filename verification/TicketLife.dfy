/** The life of a ticket: what an accepted registration adds to the table, and over whole runs when a ticket is found. */
module TicketLife {
  import opened TicketSpec

  /** Registering cleans up first. Unless 512 tickets are left then, the ticket is pending afterwards, of the kind asked for,
      with the data given or, if it was pending before, with what it had; and whatever else the cleanup left is as it was. A
      full table is left as the cleanup left it. */
  lemma RegisteredIs(s: Table, isUdp: bool, t: Ticket, info: Info, cleanup: int)
    ensures var c, r := Cleaned(s, cleanup), Registered(s, isUdp, t, info, cleanup);
            if |c.tcp| + |c.udp| >= 512 then
              r == c.(clock := cleanup)
            else
              && t in Pending(r, isUdp)
              && Pending(r, isUdp)[t] == (if t in Pending(c, isUdp) then Pending(c, isUdp)[t] else info)
              && Pending(r, !isUdp) == Pending(c, !isUdp)
              && (forall x :: x != t ==> (x in Pending(r, isUdp) <==> x in Pending(c, isUdp)))
              && (forall x :: x != t && x in Pending(c, isUdp) ==> Pending(r, isUdp)[x] == Pending(c, isUdp)[x])
              && r.registered == c.registered + multiset{t} && r.redeemed == c.redeemed
              && r.queue == c.queue + [TicketExpiration(t, isUdp, info.createdAt + 10)]
  {
    hide Cleaned;
  }

  /** A pending ticket survives the cleanup exactly if no entry for it, of its kind, has expired; its data are kept. */
  lemma {:induction false} SurvivesIff(s: Table, now: int, u: bool, t: Ticket)
    requires QueueOk(s)
    ensures t in Pending(Cleaned(s, now), u) <==>
              t in Pending(s, u) && forall q :: q in s.queue && q.ticket == t && q.isUdp == u ==> now < q.expiresAt
    ensures t in Pending(Cleaned(s, now), u) ==> Pending(Cleaned(s, now), u)[t] == Pending(s, u)[t]
    decreases |s.queue|
  {
    if s.queue == [] || now < s.queue[0].expiresAt {
      OldestFirst(s, now);
    } else {
      var d := DropOldest(s);
      DropQueueOk(s);
      SurvivesIff(d, now, u, t);
      DropOne(s, u, t);
      hide DropOldest, QueueOk, Pending;
      assert s.queue == [s.queue[0]] + d.queue;
      assert forall q :: q in s.queue <==> q == s.queue[0] || q in d.queue;
    }
  }

  lemma OldestFirst(s: Table, now: int)
    requires QueueOk(s) && (s.queue == [] || now < s.queue[0].expiresAt)
    ensures forall q :: q in s.queue ==> now < q.expiresAt
  {
    forall q | q in s.queue ensures now < q.expiresAt {
      var k :| 0 <= k < |s.queue| && s.queue[k] == q;
      assert k == 0 || s.queue[0].expiresAt <= q.expiresAt;
    }
  }

  /** Dropping the oldest entry takes away its own ticket, of its own kind. */
  lemma DropOne(s: Table, u: bool, t: Ticket)
    requires s.queue != []
    ensures var d, q := DropOldest(s), s.queue[0];
            && d.queue == s.queue[1..]
            && (t in Pending(d, u) <==> t in Pending(s, u) && !(q.ticket == t && q.isUdp == u))
            && (t in Pending(d, u) ==> Pending(d, u)[t] == Pending(s, u)[t])
  {
  }

  /** Redeeming a pending ticket takes it out of its table, and nothing else, and counts it once. */
  lemma RedeemedIs(s: Table, t: Ticket)
    ensures var r, isUdp := Redeemed(s, t), t !in s.tcp;
            if t in s.tcp || t in s.udp then
              && t !in Pending(r, isUdp) && Pending(r, !isUdp) == Pending(s, !isUdp)
              && (forall x :: x != t ==> (x in Pending(r, isUdp) <==> x in Pending(s, isUdp)))
              && (forall x :: x != t && x in Pending(s, isUdp) ==> Pending(r, isUdp)[x] == Pending(s, isUdp)[x])
              && r.redeemed[t] == s.redeemed[t] + 1 && r.registered == s.registered
            else
              r == s
  {
  }

  // ---------- runs ----------

  lemma {:induction false} RunAppend(s: Table, a: seq<Event>, b: seq<Event>)
    ensures Run(s, a + b) == Run(Run(s, a), b)
    ensures Timely(s, a + b) <==> Timely(s, a) && Timely(Run(s, a), b)
    decreases |a|
  {
    hide Apply, InTime;
    if a == [] {
      assert a + b == b;
    } else {
      assert (a + b)[0] == a[0] && (a + b)[1..] == a[1..] + b;
      RunAppend(Apply(s, a[0]), a[1..], b);
    }
  }

  lemma {:induction false} RegistrationsAppend(a: seq<Event>, b: seq<Event>, t: Ticket)
    ensures Registrations(a + b, t) == Registrations(a, t) + Registrations(b, t)
    decreases |a|
  {
    if a == [] {
      assert a + b == b;
    } else {
      assert (a + b)[0] == a[0] && (a + b)[1..] == a[1..] + b;
      RegistrationsAppend(a[1..], b, t);
    }
  }

  /** A ticket that was never registered is nowhere. */
  lemma NeverRegistered(events: seq<Event>, start: int, t: Ticket)
    requires Timely(New(start), events) && Registrations(events, t) == 0
    ensures var s := Run(New(start), events);
            Valid(s) && s.registered[t] == 0 && s.redeemed[t] == 0 && t !in s.tcp && t !in s.udp
  {
    assert Valid(New(start));
    EveryRunValid(New(start), events);
    RegisteredBy(New(start), events, t);
    var s := Run(New(start), events);
    hide Run, Timely;
    assert s.redeemed[t] + Count(s.tcp, t) + Count(s.udp, t) <= s.registered[t];
  }

  /** The first registration of a ticket makes it pending with the data given, exactly if the table is not full after the
      cleanup. */
  lemma FirstRegistration(s: Table, e: Event)
    requires Valid(s) && e.Register? && InTime(s, e)
    requires s.registered[e.ticket] == 0
    ensures var c, r, info := Cleaned(s, e.cleanup), Apply(s, e), Info(e.handle, e.proxyName, e.now);
            && Valid(r)
            && (if |c.tcp| + |c.udp| < 512 then
                  r.registered[e.ticket] == 1 && e.ticket in Pending(r, e.isUdp) && Pending(r, e.isUdp)[e.ticket] == info
                else
                  r.registered[e.ticket] == 0 && e.ticket !in r.tcp && e.ticket !in r.udp)
  {
    var t := e.ticket;
    ApplyValid(s, e);
    CleanupExact(s, e.cleanup);
    RegisteredIs(s, e.isUdp, t, Info(e.handle, e.proxyName, e.now), e.cleanup);
    var c := Cleaned(s, e.cleanup);
    assert c.registered == s.registered;
    assert c.redeemed[t] + Count(c.tcp, t) + Count(c.udp, t) <= c.registered[t];
    hide Cleaned, Valid;
  }

  /** While it is pending a ticket registered once keeps its data. */
  lemma {:induction false} KeepsData(s: Table, events: seq<Event>, u: bool, t: Ticket)
    requires Valid(s) && Timely(s, events) && t in Pending(s, u) && s.registered[t] == 1
    requires Registrations(events, t) == 0
    ensures t in Pending(Run(s, events), u) ==> Pending(Run(s, events), u)[t] == Pending(s, u)[t]
    decreases |events|
  {
    hide Valid, Apply, InTime, Ends;
    if events != [] {
      var e, s' := events[0], Apply(s, events[0]);
      ApplyValid(s, e);
      StepEnds(s, e, u, t);
      if t in Pending(s', u) {
        KeepsData(s', events[1..], u, t);
      } else {
        StaysAway(s', events[1..], u, t);
      }
    }
  }

  /** The state after a registration in the middle of a run. */
  lemma Around(start: int, before: seq<Event>, e: Event, since: seq<Event>)
    requires e.Register? && Timely(New(start), before + [e] + since)
    requires Registrations(before + [e] + since, e.ticket) == 1
    ensures var s := Run(New(start), before);
            && Timely(New(start), before) && InTime(s, e) && Timely(Apply(s, e), since)
            && Run(New(start), before + [e] + since) == Run(Apply(s, e), since)
            && Registrations(before, e.ticket) == 0 && Registrations(since, e.ticket) == 0
  {
    hide Apply, InTime;
    assert before + [e] + since == before + ([e] + since);
    RunAppend(New(start), before, [e] + since);
    assert ([e] + since)[0] == e && ([e] + since)[1..] == since;
    RegistrationsAppend(before, [e] + since, e.ticket);
  }

  /** A ticket registered once can be redeemed at some point of a run, with the data it was registered with, if and only if
      the table was not full when it was registered and since then it has not been redeemed, its proxy has not been cleared,
      and nothing was registered at or after its expiry. */
  lemma FoundIff(start: int, before: seq<Event>, e: Event, since: seq<Event>)
    requires e.Register? && Timely(New(start), before + [e] + since)
    requires Registrations(before + [e] + since, e.ticket) == 1
    ensures var s, r := Run(New(start), before), Run(New(start), before + [e] + since);
            var c, info := Cleaned(s, e.cleanup), Info(e.handle, e.proxyName, e.now);
            && (e.ticket in Pending(r, e.isUdp) <==>
                  |c.tcp| + |c.udp| < 512 && forall x :: x in since ==> !Ends(x, e.ticket, info))
            && e.ticket !in Pending(r, !e.isUdp)
            && (e.ticket in Pending(r, e.isUdp) ==> Pending(r, e.isUdp)[e.ticket] == info)
  {
    hide Run, Timely, Valid, Cleaned, Apply, InTime, Registrations, Ends;
    var s, t, u := Run(New(start), before), e.ticket, e.isUdp;
    Around(start, before, e, since);
    NeverRegistered(before, start, t);
    FirstRegistration(s, e);
    var a := Apply(s, e);
    if t in Pending(a, u) {
      OneKind(a, u, t);
      StillPending(a, since, u, t);
      KeepsData(a, since, u, t);
    } else {
      StaysAway(a, since, u, t);
    }
    StaysAway(a, since, !u, t);
  }

  lemma {:induction false} RedeemedGrows(s: Table, events: seq<Event>, t: Ticket)
    ensures Run(s, events).redeemed[t] >= s.redeemed[t]
    decreases |events|
  {
    if events != [] {
      var e := events[0];
      if e.Register? {
        CleanedRedeems(s, e.cleanup);
      }
      RedeemedGrows(Apply(s, e), events[1..], t);
    }
  }

  lemma {:induction false} CleanedRedeems(s: Table, now: int)
    ensures Cleaned(s, now).redeemed == s.redeemed
    decreases |s.queue|
  {
    if s.queue != [] && now >= s.queue[0].expiresAt {
      CleanedRedeems(DropOldest(s), now);
    }
  }

  /** A ticket registered once that is pending when it is redeemed has been redeemed exactly once at every later time. */
  lemma FoundOnce(start: int, before: seq<Event>, t: Ticket, after: seq<Event>)
    requires Timely(New(start), before + [Redeem(t)] + after)
    requires Registrations(before + [Redeem(t)] + after, t) == 1
    requires var s := Run(New(start), before); t in s.tcp || t in s.udp
    ensures Run(New(start), before + [Redeem(t)] + after).redeemed[t] == 1
  {
    hide Timely, Valid, Cleaned, InTime, Registrations;
    var s, rest := Run(New(start), before), [Redeem(t)] + after;
    RedeemedAtMostOnce(before + [Redeem(t)] + after, start, t);
    assert before + [Redeem(t)] + after == before + rest;
    RunAppend(New(start), before, rest);
    assert rest[0] == Redeem(t) && rest[1..] == after;
    RedeemedIs(s, t);
    RedeemedGrows(Redeemed(s, t), after, t);
  }
}
