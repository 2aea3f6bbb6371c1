/** A whole session of reading from a `WebsocketStream` (src/common/websocket_stream.cpp): frames arrive, the user
    starts reads of either kind, one at a time, and a read that has to wait goes on when more arrives. */
module WebSocketRun {
  import opened Bytes
  import opened WebSocketSpec

  /** The read the user is waiting for; an `async_read` has `got` in its buffer already. */
  datatype Waiting = NoRead | SomeRead(n: nat) | AllRead(n: nat, got: bytes)

  datatype Event = Arrive(item: Item) | StartSome(n: nat) | StartAll(n: nat)

  /** `delivered` is what read handlers have been given, and `arrived` are the frames so far. */
  datatype Reading = Reading(c: Incoming, waiting: Waiting, delivered: bytes, arrived: seq<Item>)

  function Start(): Reading {
    Reading(Incoming([], [], []), NoRead, [], [])
  }

  /** The pending read goes as far as it can. */
  function Resume(s: Reading): Reading {
    match s.waiting
    case NoRead => s
    case SomeRead(n) =>
      (match ReadSome(s.c, n)
       case Wait(_, after) => s.(c := after)
       case Failed(_, after) => s.(c := after, waiting := NoRead)
       case Done(data, after) => s.(c := after, waiting := NoRead, delivered := s.delivered + data))
    case AllRead(n, got) =>
      if |got| > n then s
      else
        match ReadAll(s.c, n - |got|)
        case Wait(data, after) => s.(c := after, waiting := AllRead(n, got + data))
        case Failed(_, after) => s.(c := after, waiting := NoRead)
        case Done(data, after) => s.(c := after, waiting := NoRead, delivered := s.delivered + (got + data))
  }

  /** Frames from a peer that has not closed; the user starts no read while one is pending. */
  function Step(s: Reading, e: Event): Reading {
    match e
    case Arrive(item) =>
      if ValidItem(item) && item.opcode != CLOSE then
        Resume(s.(c := s.c.(input := s.c.input + Encode(item)), arrived := s.arrived + [item]))
      else s
    case StartSome(n) => if s.waiting.NoRead? then Resume(s.(waiting := SomeRead(n))) else s
    case StartAll(n) => if s.waiting.NoRead? then Resume(s.(waiting := AllRead(n, []))) else s
  }

  function Run(events: seq<Event>): Reading {
    if events == [] then Start() else Step(Run(events[..|events| - 1]), events[|events| - 1])
  }

  function Got(s: Reading): bytes {
    if s.waiting.AllRead? then s.waiting.got else []
  }

  /** With `items` not looked at yet, each payload byte that has arrived is in exactly one place, in order, and each
      ping has been answered or is among `items`. */
  ghost predicate Accounted(s: Reading, items: seq<Item>) {
    && Holds(s.c, items)
    && s.delivered + (Got(s) + Unread(s.c, items)) == Payloads(s.arrived)
    && s.c.pongs + Pings(items) == Pings(s.arrived)
  }

  /** A read that waits has left nothing behind. */
  ghost predicate Settled(s: Reading, items: seq<Item>) {
    !s.waiting.NoRead? ==> items == [] && s.c.leftover == []
  }

  lemma ResumeAccounted(s: Reading, items: seq<Item>) returns (items': seq<Item>)
    requires Accounted(s, items) && (s.waiting.AllRead? ==> |s.waiting.got| <= s.waiting.n)
    ensures Accounted(Resume(s), items') && Settled(Resume(s), items')
    ensures Resume(s).arrived == s.arrived
    ensures Resume(s).waiting.AllRead? ==> |Resume(s).waiting.got| <= Resume(s).waiting.n
  {
    hide ReadSome, ReadAll, Holds, Unread, Payloads, Pings;
    items' := items;
    match s.waiting
    case NoRead =>
    case SomeRead(n) =>
      items' := ReadSomePipe(s.c, items, n);
      var r := ReadSome(s.c, n);
      ReadsHolds(s.c, items, r.data, r.after, items');
      Assoc(s.delivered, r.data, Unread(r.after, items'));
      Nothing(Unread(s.c, items));
      Nothing(Unread(r.after, items'));
    case AllRead(n, got) =>
      items' := ReadAllPipe(s.c, items, n - |got|);
      var r := ReadAll(s.c, n - |got|);
      ReadsHolds(s.c, items, r.data, r.after, items');
      Assoc(got, r.data, Unread(r.after, items'));
      Assoc(s.delivered, got + r.data, Unread(r.after, items'));
      Nothing(Unread(r.after, items'));
  }

  lemma Nothing(s: bytes)
    ensures [] + s == s
  {
  }

  lemma ArriveAccounted(s: Reading, items: seq<Item>, item: Item)
    requires Accounted(s, items) && ValidItem(item) && item.opcode != CLOSE && Flowing(s.arrived)
    ensures Accounted(s.(c := s.c.(input := s.c.input + Encode(item)), arrived := s.arrived + [item]), items + [item])
    ensures Flowing(s.arrived + [item])
  {
    hide Encode, Payloads, Pings;
    EncodesAppend(items, item);
    EncodesAppend(s.arrived, item);
    var data := if IsData(item) then item.payload else [];
    Assoc(s.c.leftover, Payloads(items), data);
    Assoc(Got(s), Unread(s.c, items), data);
    Assoc(s.delivered, Got(s) + Unread(s.c, items), data);
    Assoc(s.c.pongs, Pings(items), if item.opcode == PING then [item.payload] else []);
  }

  lemma StepAccounted(s: Reading, e: Event, items: seq<Item>) returns (items': seq<Item>)
    requires Accounted(s, items) && Settled(s, items) && Flowing(s.arrived)
    requires s.waiting.AllRead? ==> |s.waiting.got| <= s.waiting.n
    ensures Accounted(Step(s, e), items') && Settled(Step(s, e), items') && Flowing(Step(s, e).arrived)
    ensures Step(s, e).waiting.AllRead? ==> |Step(s, e).waiting.got| <= Step(s, e).waiting.n
  {
    hide Resume, Holds, Unread, Payloads, Pings, Encode, Flowing;
    items' := items;
    match e
    case Arrive(item) =>
      if ValidItem(item) && item.opcode != CLOSE {
        ArriveAccounted(s, items, item);
        items' := ResumeAccounted(s.(c := s.c.(input := s.c.input + Encode(item)), arrived := s.arrived + [item]), items + [item]);
      }
    case StartSome(n) =>
      if s.waiting.NoRead? {
        items' := ResumeAccounted(s.(waiting := SomeRead(n)), items);
      }
    case StartAll(n) =>
      if s.waiting.NoRead? {
        items' := ResumeAccounted(s.(waiting := AllRead(n, [])), items);
      }
  }

  lemma {:induction false} RunAccounted(events: seq<Event>) returns (items: seq<Item>)
    ensures var s := Run(events);
            && Accounted(s, items) && Settled(s, items) && Flowing(s.arrived)
            && (s.waiting.AllRead? ==> |s.waiting.got| <= s.waiting.n)
  {
    hide Accounted, Settled, Step;
    if events == [] {
      items := [];
      StartAccounted();
    } else {
      var before := RunAccounted(events[..|events| - 1]);
      items := StepAccounted(Run(events[..|events| - 1]), events[|events| - 1], before);
    }
  }

  lemma StartAccounted()
    ensures Accounted(Start(), []) && Settled(Start(), [])
  {
  }

  /** Any mix of `async_read` and `async_read_some`, started at any time, is given a prefix of the payloads of all
      frames that have arrived, whatever pings and pongs come in between; the pongs sent answer a prefix of the pings,
      in order. While a read waits, everything that has arrived has been handed over or is in its buffer, and every ping
      has been answered. */
  lemma MixedReads(events: seq<Event>)
    ensures var s := Run(events);
            && s.delivered <= Payloads(s.arrived) && s.c.pongs <= Pings(s.arrived)
            && (!s.waiting.NoRead? ==> s.delivered + Got(s) == Payloads(s.arrived) && s.c.pongs == Pings(s.arrived))
  {
    var items := RunAccounted(events);
    hide Run;
    var s := Run(events);
    if !s.waiting.NoRead? {
      assert Unread(s.c, []) == [] && Got(s) + [] == Got(s) && s.c.pongs + [] == s.c.pongs;
    }
  }
}
