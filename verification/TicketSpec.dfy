/** The server's table of pending tickets (src/server/server.cpp): what each operation makes of it, and what holds
    over every run. Tickets may repeat here; where a property needs a ticket to be registered only once, it says so. */
module TicketSpec {
  const MAX_PENDING_TICKETS := 512
  const LIFETIME := 10

  type Ticket = string

  /** `handle` stands for the socket and initial data, or the listener and endpoint. */
  datatype Info = Info(handle: nat, proxyName: string, createdAt: int)

  datatype TicketExpiration = TicketExpiration(ticket: Ticket, isUdp: bool, expiresAt: int)

  /** `clock` is the latest reading of the clock; `registered` and `redeemed` count, per ticket, the registrations
      accepted and the tickets redeemed so far. */
  datatype Table = Table(
    tcp: map<Ticket, Info>,
    udp: map<Ticket, Info>,
    queue: seq<TicketExpiration>,
    clock: int,
    registered: multiset<Ticket>,
    redeemed: multiset<Ticket>)

  datatype Event =
    | Register(isUdp: bool, ticket: Ticket, handle: nat, proxyName: string, cleanup: int, now: int)
    | Redeem(ticket: Ticket)
    | Clear(proxyName: string)

  function Pending(s: Table, isUdp: bool): map<Ticket, Info> {
    if isUdp then s.udp else s.tcp
  }

  function Erase(m: map<Ticket, Info>, t: Ticket): map<Ticket, Info> {
    m - {t}
  }

  /** `emplace`: an entry that is there stays. */
  function Emplace(m: map<Ticket, Info>, t: Ticket, info: Info): map<Ticket, Info> {
    if t in m then m else m[t := info]
  }

  function DropOldest(s: Table): Table
    requires s.queue != []
  {
    var oldest := s.queue[0];
    if oldest.isUdp then s.(queue := s.queue[1..], udp := Erase(s.udp, oldest.ticket))
    else s.(queue := s.queue[1..], tcp := Erase(s.tcp, oldest.ticket))
  }

  /** `DoLazyCleanup`. */
  function Cleaned(s: Table, now: int): Table
    decreases |s.queue|
  {
    if s.queue == [] || now < s.queue[0].expiresAt then s else Cleaned(DropOldest(s), now)
  }

  predicate Full(s: Table) {
    |s.tcp| + |s.udp| >= MAX_PENDING_TICKETS
  }

  /** The table once a registration is accepted. */
  function Accepted(c: Table, isUdp: bool, t: Ticket, info: Info): Table {
    var d := c.(queue := c.queue + [TicketExpiration(t, isUdp, info.createdAt + LIFETIME)],
                registered := c.registered + multiset{t}, clock := info.createdAt);
    if isUdp then d.(udp := Emplace(c.udp, t, info)) else d.(tcp := Emplace(c.tcp, t, info))
  }

  /** `RegisterUserConn` and `RegisterUdpSession`: the clock is read for the cleanup and then again. */
  function Registered(s: Table, isUdp: bool, t: Ticket, info: Info, cleanup: int): Table {
    var c := Cleaned(s, cleanup).(clock := cleanup);
    if Full(c) then c
    else Accepted(c, isUdp, t, info)
  }

  /** The block of `HandleNewMuxStream` that looks a ticket up: TCP first. */
  function Redeemed(s: Table, t: Ticket): Table {
    if t in s.tcp then s.(tcp := Erase(s.tcp, t), redeemed := s.redeemed + multiset{t})
    else if t in s.udp then s.(udp := Erase(s.udp, t), redeemed := s.redeemed + multiset{t})
    else s
  }

  function Without(m: map<Ticket, Info>, proxyName: string): map<Ticket, Info> {
    map t | t in m && m[t].proxyName != proxyName :: m[t]
  }

  /** `ClearPendingForProxy`. */
  function Cleared(s: Table, proxyName: string): Table {
    s.(tcp := Without(s.tcp, proxyName), udp := Without(s.udp, proxyName))
  }

  function Apply(s: Table, e: Event): Table {
    match e
    case Register(isUdp, t, handle, proxyName, cleanup, now) => Registered(s, isUdp, t, Info(handle, proxyName, now), cleanup)
    case Redeem(t) => Redeemed(s, t)
    case Clear(proxyName) => Cleared(s, proxyName)
  }

  function Run(s: Table, events: seq<Event>): Table
    decreases |events|
  {
    if events == [] then s else Run(Apply(s, events[0]), events[1..])
  }

  // ---------- invariant ----------

  predicate Sorted(queue: seq<TicketExpiration>) {
    forall i, j :: 0 <= i < j < |queue| ==> queue[i].expiresAt <= queue[j].expiresAt
  }

  /** The queue is in order of expiry, and nothing in it expires later than a ticket created now would. */
  ghost predicate QueueOk(s: Table) {
    Sorted(s.queue) && forall q :: q in s.queue ==> q.expiresAt <= s.clock + LIFETIME
  }

  /** Every pending ticket has an entry in the queue, at its creation and the lifetime. */
  ghost predicate Covered(s: Table) {
    forall u: bool, t :: t in Pending(s, u) ==> TicketExpiration(t, u, Pending(s, u)[t].createdAt + LIFETIME) in s.queue
  }

  /** An entry of the queue for a ticket registered once is about its one registration. */
  ghost predicate Exact(s: Table) {
    forall q :: q in s.queue ==>
      && s.registered[q.ticket] >= 1
      && (s.registered[q.ticket] == 1 && q.ticket in Pending(s, q.isUdp) ==>
            Pending(s, q.isUdp)[q.ticket].createdAt + LIFETIME == q.expiresAt)
  }

  function Count(m: map<Ticket, Info>, t: Ticket): nat {
    if t in m then 1 else 0
  }

  /** A ticket is pending or redeemed no more often than it was registered. */
  ghost predicate Balanced(s: Table) {
    forall t :: s.redeemed[t] + Count(s.tcp, t) + Count(s.udp, t) <= s.registered[t]
  }

  ghost predicate Valid(s: Table) {
    && |s.tcp| + |s.udp| <= MAX_PENDING_TICKETS
    && QueueOk(s)
    && Covered(s)
    && Exact(s)
    && Balanced(s)
  }

  lemma SubsetCard(m: map<Ticket, Info>, m': map<Ticket, Info>)
    requires m.Keys <= m'.Keys
    ensures |m| <= |m'|
  {
    assert |m| == |m.Keys| && |m'| == |m'.Keys|;
    assert m'.Keys == m.Keys + (m'.Keys - m.Keys);
  }

  // ---------- fewer pending tickets ----------

  /** `c` is `s` with some pending tickets gone. */
  ghost predicate Shrunk(s: Table, c: Table) {
    && c.registered == s.registered
    && forall u: bool, t :: t in Pending(c, u) ==> t in Pending(s, u) && Pending(c, u)[t] == Pending(s, u)[t]
  }

  lemma TakenShrunk(s: Table)
    ensures s.queue != [] ==> Shrunk(s, DropOldest(s))
    ensures forall t :: Shrunk(s, Redeemed(s, t))
    ensures forall proxyName :: Shrunk(s, Cleared(s, proxyName))
  {
  }

  lemma ShrunkExact(s: Table, c: Table)
    requires Exact(s) && Shrunk(s, c) && forall q :: q in c.queue ==> q in s.queue
    ensures Exact(c)
  {
  }

  lemma ShrunkCovered(s: Table, c: Table)
    requires Covered(s) && Shrunk(s, c) && c.queue == s.queue
    ensures Covered(c)
  {
  }

  lemma ShrunkBounded(s: Table, c: Table)
    requires Shrunk(s, c) && |s.tcp| + |s.udp| <= MAX_PENDING_TICKETS
    ensures |c.tcp| + |c.udp| <= MAX_PENDING_TICKETS
  {
    assert c.tcp.Keys <= s.tcp.Keys by {
      assert forall t :: t in c.tcp ==> t in Pending(c, false);
    }
    assert c.udp.Keys <= s.udp.Keys by {
      assert forall t :: t in c.udp ==> t in Pending(c, true);
    }
    SubsetCard(c.tcp, s.tcp);
    SubsetCard(c.udp, s.udp);
  }

  lemma ShrunkBalanced(s: Table, c: Table)
    requires Balanced(s) && Shrunk(s, c) && c.redeemed == s.redeemed
    ensures Balanced(c)
  {
    forall t ensures c.redeemed[t] + Count(c.tcp, t) + Count(c.udp, t) <= c.registered[t] {
      assert s.redeemed[t] + Count(s.tcp, t) + Count(s.udp, t) <= s.registered[t];
      assert t in Pending(c, false) ==> t in Pending(s, false);
      assert t in Pending(c, true) ==> t in Pending(s, true);
    }
  }

  // ---------- the cleanup ----------

  lemma DropValid(s: Table)
    requires Valid(s) && s.queue != []
    ensures Valid(DropOldest(s)) && Shrunk(s, DropOldest(s))
  {
    hide QueueOk, Covered, Exact, Balanced, Shrunk;
    var c := DropOldest(s);
    assert s.queue == [s.queue[0]] + c.queue;
    TakenShrunk(s);
    ShrunkBounded(s, c);
    ShrunkExact(s, c);
    ShrunkBalanced(s, c);
    DropQueueOk(s);
    DropCovered(s);
  }

  lemma DropQueueOk(s: Table)
    requires QueueOk(s) && s.queue != []
    ensures QueueOk(DropOldest(s))
  {
    assert forall q :: q in DropOldest(s).queue ==> q in s.queue;
  }

  lemma InRest(q: TicketExpiration, queue: seq<TicketExpiration>)
    requires q in queue && q != queue[0]
    ensures q in queue[1..]
  {
    assert queue == [queue[0]] + queue[1..];
  }

  /** What is still pending has its entry further back in the queue. */
  lemma DropEntry(s: Table, u: bool, t: Ticket)
    requires Covered(s) && s.queue != [] && t in Pending(DropOldest(s), u)
    ensures TicketExpiration(t, u, Pending(DropOldest(s), u)[t].createdAt + LIFETIME) in s.queue[1..]
  {
    var entry := TicketExpiration(t, u, Pending(DropOldest(s), u)[t].createdAt + LIFETIME);
    assert t in Pending(s, u) && Pending(s, u)[t] == Pending(DropOldest(s), u)[t];
    assert entry in s.queue;
    assert entry != s.queue[0];
    InRest(entry, s.queue);
  }

  lemma DropCovered(s: Table)
    requires Covered(s) && s.queue != []
    ensures Covered(DropOldest(s))
  {
    assert DropOldest(s).queue == s.queue[1..];
    hide DropOldest, Pending;
    forall u: bool, t | t in Pending(DropOldest(s), u)
      ensures TicketExpiration(t, u, Pending(DropOldest(s), u)[t].createdAt + LIFETIME) in DropOldest(s).queue
    {
      DropEntry(s, u, t);
    }
  }

  /** What the cleanup leaves was there before; nothing expired is left; and what was registered once and has not
      expired stays. */
  ghost predicate CleanedTo(s: Table, c: Table, now: int) {
    && Shrunk(s, c) && c.redeemed == s.redeemed && c.clock == s.clock
    && (forall q :: q in c.queue ==> now < q.expiresAt)
    && (forall u: bool, t :: t in Pending(c, u) ==> now < Pending(c, u)[t].createdAt + LIFETIME)
    && (forall u: bool, t :: t in Pending(s, u) && s.registered[t] == 1 && now < Pending(s, u)[t].createdAt + LIFETIME ==>
          t in Pending(c, u))
  }

  lemma {:induction false} CleanupExact(s: Table, now: int)
    requires Valid(s)
    ensures Valid(Cleaned(s, now)) && CleanedTo(s, Cleaned(s, now), now)
    decreases |s.queue|
  {
    hide QueueOk, Covered, Balanced, Exact, CleanedTo, Shrunk, Pending;
    if s.queue == [] || now < s.queue[0].expiresAt {
      NoneExpired(s, now);
    } else {
      DropValid(s);
      CleanupExact(DropOldest(s), now);
      DropKeeps(s, now);
      CleanedOnce(s, Cleaned(s, now), now);
    }
  }

  lemma NoneExpired(s: Table, now: int)
    requires Valid(s) && (s.queue == [] || now < s.queue[0].expiresAt)
    ensures CleanedTo(s, s, now)
  {
    hide Exact, Balanced;
    forall q | q in s.queue ensures now < q.expiresAt {
      var k :| 0 <= k < |s.queue| && s.queue[k] == q;
      assert k == 0 || s.queue[0].expiresAt <= q.expiresAt;
    }
    forall u: bool, t | t in Pending(s, u) ensures now < Pending(s, u)[t].createdAt + LIFETIME {
      assert TicketExpiration(t, u, Pending(s, u)[t].createdAt + LIFETIME) in s.queue;
    }
  }

  /** Dropping an expired entry takes away no ticket that was registered once and has not expired. */
  lemma DropKeeps(s: Table, now: int)
    requires Exact(s) && s.queue != [] && now >= s.queue[0].expiresAt
    ensures forall u: bool, t :: t in Pending(s, u) && s.registered[t] == 1 && now < Pending(s, u)[t].createdAt + LIFETIME ==>
              t in Pending(DropOldest(s), u) && Pending(DropOldest(s), u)[t] == Pending(s, u)[t]
  {
    assert s.queue[0] in s.queue;
  }

  lemma CleanedOnce(s: Table, c: Table, now: int)
    requires s.queue != [] && Shrunk(s, DropOldest(s)) && CleanedTo(DropOldest(s), c, now)
    requires forall u: bool, t :: t in Pending(s, u) && s.registered[t] == 1 && now < Pending(s, u)[t].createdAt + LIFETIME ==>
               t in Pending(DropOldest(s), u) && Pending(DropOldest(s), u)[t] == Pending(s, u)[t]
    ensures CleanedTo(s, c, now)
  {
    var d := DropOldest(s);
    assert d.registered == s.registered && d.redeemed == s.redeemed && d.clock == s.clock;
    hide DropOldest;
  }

  // ---------- every operation keeps the invariant ----------

  predicate InTime(s: Table, e: Event) {
    e.Register? ==> s.clock <= e.cleanup <= e.now
  }

  lemma AcceptedQueueOk(c: Table, isUdp: bool, t: Ticket, info: Info)
    requires QueueOk(c) && c.clock <= info.createdAt
    ensures QueueOk(Accepted(c, isUdp, t, info))
  {
    assert forall i :: 0 <= i < |c.queue| ==> c.queue[i] in c.queue;
  }

  lemma AcceptedCovered(c: Table, isUdp: bool, t: Ticket, info: Info)
    requires Covered(c)
    ensures Covered(Accepted(c, isUdp, t, info))
  {
    var r := Accepted(c, isUdp, t, info);
    forall u: bool, x | x in Pending(r, u)
      ensures TicketExpiration(x, u, Pending(r, u)[x].createdAt + LIFETIME) in r.queue
    {
      if x in Pending(c, u) {
        assert TicketExpiration(x, u, Pending(c, u)[x].createdAt + LIFETIME) in c.queue;
      }
    }
  }

  lemma AcceptedExact(c: Table, isUdp: bool, t: Ticket, info: Info)
    requires Exact(c) && Balanced(c)
    ensures Exact(Accepted(c, isUdp, t, info))
  {
    assert c.redeemed[t] + Count(c.tcp, t) + Count(c.udp, t) <= c.registered[t];
    var r := Accepted(c, isUdp, t, info);
    forall q | q in r.queue
      ensures r.registered[q.ticket] >= 1
      ensures r.registered[q.ticket] == 1 && q.ticket in Pending(r, q.isUdp) ==>
                Pending(r, q.isUdp)[q.ticket].createdAt + LIFETIME == q.expiresAt
    {
      assert q in c.queue || q == TicketExpiration(t, isUdp, info.createdAt + LIFETIME);
    }
  }

  lemma AcceptedBalanced(c: Table, isUdp: bool, t: Ticket, info: Info)
    requires Balanced(c)
    ensures Balanced(Accepted(c, isUdp, t, info))
  {
    var r := Accepted(c, isUdp, t, info);
    forall x ensures r.redeemed[x] + Count(r.tcp, x) + Count(r.udp, x) <= r.registered[x] {
      assert c.redeemed[x] + Count(c.tcp, x) + Count(c.udp, x) <= c.registered[x];
    }
  }

  lemma AcceptedValid(c: Table, isUdp: bool, t: Ticket, info: Info)
    requires Valid(c) && !Full(c) && c.clock <= info.createdAt
    ensures Valid(Accepted(c, isUdp, t, info))
  {
    AcceptedQueueOk(c, isUdp, t, info);
    AcceptedCovered(c, isUdp, t, info);
    AcceptedExact(c, isUdp, t, info);
    AcceptedBalanced(c, isUdp, t, info);
    hide QueueOk, Covered, Exact, Balanced;
    assert |Emplace(c.udp, t, info)| <= |c.udp| + 1 && |Emplace(c.tcp, t, info)| <= |c.tcp| + 1;
  }

  lemma LaterValid(c: Table, now: int)
    requires Valid(c) && c.clock <= now
    ensures Valid(c.(clock := now))
  {
    hide Balanced;
    var d := c.(clock := now);
    assert Shrunk(c, d) && Covered(d) && Exact(d);
    ShrunkBalanced(c, d);
  }

  lemma RedeemedBalanced(s: Table, t: Ticket)
    requires Balanced(s)
    ensures Balanced(Redeemed(s, t))
  {
    var r := Redeemed(s, t);
    forall x ensures r.redeemed[x] + Count(r.tcp, x) + Count(r.udp, x) <= r.registered[x] {
      assert s.redeemed[x] + Count(s.tcp, x) + Count(s.udp, x) <= s.registered[x];
    }
  }

  /** Taking tickets away keeps the invariant. */
  lemma ShrunkValid(s: Table, r: Table)
    requires Valid(s) && Shrunk(s, r) && r.queue == s.queue && r.clock == s.clock && Balanced(r)
    ensures Valid(r)
  {
    ShrunkBounded(s, r);
    ShrunkExact(s, r);
    ShrunkCovered(s, r);
    SameQueue(s, r);
    hide QueueOk, Covered, Exact, Balanced, Shrunk;
  }

  lemma RegisteredValid(s: Table, isUdp: bool, t: Ticket, info: Info, cleanup: int)
    requires Valid(s) && s.clock <= cleanup <= info.createdAt
    ensures Valid(Registered(s, isUdp, t, info, cleanup))
  {
    hide QueueOk, Covered, Exact, Balanced, Shrunk;
    CleanupExact(s, cleanup);
    hide Valid;
    LaterValid(Cleaned(s, cleanup), cleanup);
    var c := Cleaned(s, cleanup).(clock := cleanup);
    if !Full(c) {
      AcceptedValid(c, isUdp, t, info);
    }
  }

  lemma ApplyValid(s: Table, e: Event)
    requires Valid(s) && InTime(s, e)
    ensures Valid(Apply(s, e))
  {
    hide QueueOk, Covered, Exact, Balanced, Shrunk;
    TakenShrunk(s);
    match e
    case Register(isUdp, t, handle, proxyName, cleanup, now) =>
      RegisteredValid(s, isUdp, t, Info(handle, proxyName, now), cleanup);
    case Redeem(t) =>
      RedeemedBalanced(s, t);
      ShrunkValid(s, Redeemed(s, t));
    case Clear(proxyName) =>
      ShrunkBalanced(s, Cleared(s, proxyName));
      ShrunkValid(s, Cleared(s, proxyName));
  }

  lemma SameQueue(s: Table, r: Table)
    requires QueueOk(s) && r.queue == s.queue && r.clock == s.clock
    ensures QueueOk(r)
  {
  }

  // ---------- runs ----------

  function New(now: int): Table {
    Table(map[], map[], [], now, multiset{}, multiset{})
  }

  /** The clock does not go back. */
  predicate Timely(s: Table, events: seq<Event>)
    decreases |events|
  {
    events == [] || (InTime(s, events[0]) && Timely(Apply(s, events[0]), events[1..]))
  }

  /** The bound of 512, the order of the queue and the entry of every pending ticket hold after every run. */
  lemma {:induction false} EveryRunValid(s: Table, events: seq<Event>)
    requires Valid(s) && Timely(s, events)
    ensures Valid(Run(s, events))
    decreases |events|
  {
    hide Valid, Apply, InTime;
    if events != [] {
      ApplyValid(s, events[0]);
      EveryRunValid(Apply(s, events[0]), events[1..]);
    }
  }

  /** How many of the events ask to register `t`. */
  function Registrations(events: seq<Event>, t: Ticket): nat {
    if events == [] then 0
    else (if events[0].Register? && events[0].ticket == t then 1 else 0) + Registrations(events[1..], t)
  }

  lemma {:induction false} CleanedCounts(s: Table, now: int)
    ensures Cleaned(s, now).registered == s.registered
    decreases |s.queue|
  {
    if s.queue != [] && now >= s.queue[0].expiresAt {
      CleanedCounts(DropOldest(s), now);
    }
  }

  lemma {:induction false} RegisteredBy(s: Table, events: seq<Event>, t: Ticket)
    ensures Run(s, events).registered[t] <= s.registered[t] + Registrations(events, t)
    decreases |events|
  {
    if events != [] {
      var e := events[0];
      if e.Register? {
        CleanedCounts(s, e.cleanup);
      }
      RegisteredBy(Apply(s, e), events[1..], t);
    }
  }

  /** A ticket is redeemed no more often than it is registered: once, when tickets are unique. */
  lemma RedeemedAtMostOnce(events: seq<Event>, now: int, t: Ticket)
    requires Timely(New(now), events)
    ensures Run(New(now), events).redeemed[t] <= Registrations(events, t)
  {
    var s := Run(New(now), events);
    assert Valid(New(now));
    EveryRunValid(New(now), events);
    RegisteredBy(New(now), events, t);
    hide Run, Timely;
    assert s.redeemed[t] + Count(s.tcp, t) + Count(s.udp, t) <= s.registered[t];
  }

  /** The event that ends a ticket's wait: it is redeemed, its proxy goes away, or a registration of another
      ticket finds it expired. */
  predicate Ends(e: Event, t: Ticket, info: Info) {
    match e
    case Register(_, _, _, _, cleanup, _) => cleanup >= info.createdAt + LIFETIME
    case Redeem(ticket) => ticket == t
    case Clear(proxyName) => proxyName == info.proxyName
  }

  lemma StepEnds(s: Table, e: Event, u: bool, t: Ticket)
    requires Valid(s) && InTime(s, e) && t in Pending(s, u) && s.registered[t] == 1
    requires e.Register? ==> e.ticket != t
    ensures var s' := Apply(s, e);
            && s'.registered[t] == 1
            && (t in Pending(s', u) <==> !Ends(e, t, Pending(s, u)[t]))
            && (t in Pending(s', u) ==> Pending(s', u)[t] == Pending(s, u)[t])
  {
    hide QueueOk, Covered, Exact, Balanced;
    match e
    case Register(_, _, _, _, cleanup, _) =>
      CleanupEnds(s, cleanup, u, t);
      hide Cleaned, Valid;
    case Redeem(_) => OneKind(s, u, t);
    case Clear(_) =>
  }

  lemma CleanupEnds(s: Table, cleanup: int, u: bool, t: Ticket)
    requires Valid(s) && t in Pending(s, u) && s.registered[t] == 1
    ensures var c := Cleaned(s, cleanup);
            && c.registered[t] == 1
            && (t in Pending(c, u) <==> cleanup < Pending(s, u)[t].createdAt + LIFETIME)
            && (t in Pending(c, u) ==> Pending(c, u)[t] == Pending(s, u)[t])
  {
    CleanupExact(s, cleanup);
    hide Cleaned, Valid, Pending;
  }

  /** A ticket registered once is not pending both as TCP and as UDP. */
  lemma OneKind(s: Table, u: bool, t: Ticket)
    requires Valid(s) && t in Pending(s, u) && s.registered[t] == 1
    ensures t !in Pending(s, !u)
  {
    assert s.redeemed[t] + Count(s.tcp, t) + Count(s.udp, t) <= s.registered[t];
  }

  lemma CleanedFewer(s: Table, now: int, u: bool, t: Ticket)
    ensures t in Pending(Cleaned(s, now), u) ==> t in Pending(s, u)
    decreases |s.queue|
  {
    if s.queue != [] && now >= s.queue[0].expiresAt {
      CleanedFewer(DropOldest(s), now, u, t);
    }
  }

  lemma {:induction false} StaysAway(s: Table, events: seq<Event>, u: bool, t: Ticket)
    requires t !in Pending(s, u) && Registrations(events, t) == 0
    ensures t !in Pending(Run(s, events), u)
    decreases |events|
  {
    if events != [] {
      var e := events[0];
      if e.Register? {
        CleanedFewer(s, e.cleanup, u, t);
        hide Cleaned;
      }
      StaysAway(Apply(s, e), events[1..], u, t);
    }
  }

  /** A ticket registered once is still waiting after a run if and only if nothing in the run ended its wait. In
      particular its expiry alone does not: an expired ticket can be redeemed until the next registration. */
  lemma {:induction false} StillPending(s: Table, events: seq<Event>, u: bool, t: Ticket)
    requires Valid(s) && Timely(s, events) && t in Pending(s, u) && s.registered[t] == 1
    requires Registrations(events, t) == 0
    ensures t in Pending(Run(s, events), u) <==> forall e :: e in events ==> !Ends(e, t, Pending(s, u)[t])
    decreases |events|
  {
    hide Valid, Apply, InTime, Ends;
    if events != [] {
      var e, s' := events[0], Apply(s, events[0]);
      assert events == [e] + events[1..];
      ApplyValid(s, e);
      StepEnds(s, e, u, t);
      if t in Pending(s', u) {
        StillPending(s', events[1..], u, t);
      } else {
        StaysAway(s', events[1..], u, t);
      }
    }
  }
}
