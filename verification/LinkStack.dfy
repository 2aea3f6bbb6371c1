/** The two sessions on a real link: each frame becomes one write to the underlying stream, the
    underlying stream is plain bytes or WebSocket frames with pings and pongs in between, some of them read too early and
    replayed, and the receiving session reads headers and bodies off it. Every run of this system is a run of `MuxNet`. */
module LinkStack {
  import opened Bytes
  import opened MuxFrame
  import opened MuxNet
  import MuxPair
  import MuxTheorems
  import Session = MuxSessionSpec
  import Ws = WebSocketSpec
  import Replay = BufferedStreamSpec

  /** One direction: frames waiting in the session's write queue, bytes on their way or replayed, and at the far end the
      WebSocket read buffer and the state of the session's read loop. */
  datatype Link = Link(webSocket: bool, queue: seq<Frame>, source: Replay.Source, leftover: bytes, reader: Reader)

  datatype Stack = Stack(a: Side, b: Side, ab: Link, ba: Link)

  datatype LinkAction =
    | Act(act: SideAction)                  // a step of the session or of one of its streams
    | HandDown(key: Option<Ws.Mask>)        // the head of the write queue goes to the underlying stream
    | Control(item: Ws.Item)                // the sending end adds a ping or pong
    | PushBack(n: nat)                      // `n` bytes are read too early and handed to a `BufferedStream`
    | ReadLink                              // the session's pending exact read completes, if it can

  datatype StackStep = StackStep(left: bool, act: LinkAction)

  function NewLink(webSocket: bool): Link {
    Link(webSocket, [], Replay.Source([], []), [], AwaitHeader)
  }

  function Start(webSocket: bool): Stack {
    Stack(NewSide(false), NewSide(true), NewLink(webSocket), NewLink(webSocket))
  }

  // ---------- one direction ----------

  function Message(key: Option<Ws.Mask>, f: Frame): Ws.Item {
    Ws.Item(true, Ws.BINARY, key, Wire(f))
  }

  /** The bytes on their way, in the order in which they will be read. */
  function Arriving(l: Link): bytes {
    Replay.Content(l.source)
  }

  function Put(l: Link, data: bytes): (l': Link)
    ensures Arriving(l') == Arriving(l) + data
    ensures l'.queue == l.queue && l'.leftover == l.leftover && l'.reader == l.reader && l'.webSocket == l.webSocket
  {
    Replay.ArrivedContent(l.source, data);
    l.(source := Replay.Arrived(l.source, data))
  }

  /** The head of the queue is handed down. */
  function Sent(l: Link, key: Option<Ws.Mask>): Link {
    if l.queue == [] || |Wire(l.queue[0])| >= 0x8000_0000_0000_0000 then l
    else
      Put(l.(queue := l.queue[1..]),
          if l.webSocket then Ws.Encode(Message(key, l.queue[0])) else Wire(l.queue[0]))
  }

  predicate IsControl(item: Ws.Item) {
    Ws.ValidItem(item) && item.opcode in {Ws.PING, Ws.PONG}
  }

  function WithControl(l: Link, item: Ws.Item): Link {
    if l.webSocket && IsControl(item) then Put(l, Ws.Encode(item)) else l
  }

  datatype LinkRead = Waits | Fails | Gives(data: bytes, l: Link)

  /** `async_read` of exactly `n` bytes on the receiving end. */
  function ReadExactly(l: Link, n: nat): LinkRead {
    if l.webSocket then
      Ws.ReadAllSuffix(Ws.Incoming(l.leftover, Arriving(l), []), n);
      match Ws.ReadAll(Ws.Incoming(l.leftover, Arriving(l), []), n)
      case Wait(_, _) => Waits
      case Failed(_, _) => Fails
      case Done(data, after) =>
        Gives(data, l.(leftover := after.leftover, source := Replay.After(l.source, |Arriving(l)| - |after.input|)))
    else if |Arriving(l)| < n then Waits
    else Gives(Arriving(l)[..n], l.(source := Replay.After(l.source, n)))
  }

  // ---------- steps ----------

  /** The side after its session has stopped because of a read error or an oversized frame. */
  function Stopped(side: Side): Side {
    ApplyOutcome(side, Session.Stop(side.session))
  }

  function ReadStepLeft(st: Stack): Stack {
    if st.a.session.stopped then st
    else
      match ReadExactly(st.ba, Needs(st.ba.reader))
      case Waits => st
      case Fails => st.(a := Stopped(st.a))
      case Gives(data, l) =>
        if |data| != Needs(st.ba.reader) then st
        else
          match OnRead(st.ba.reader, data)
          case Halt => st.(a := Stopped(st.a))
          case Continue(next) => st.(ba := l.(reader := next))
          case Deliver(next, f) =>
            var o := Session.HandleFrame(st.a.session, f);
            st.(a := ApplyOutcome(st.a, o), ba := l.(reader := next), ab := st.ab.(queue := st.ab.queue + o.out))
  }

  function StackLeft(st: Stack, act: LinkAction): Stack {
    match act
    case Act(Receive) => st
    case Act(other) =>
      var n := StepLeft(Net(st.a, st.b, [], []), other);
      st.(a := n.a, ab := st.ab.(queue := st.ab.queue + n.ab))
    case HandDown(key) => st.(ab := Sent(st.ab, key))
    case Control(item) => st.(ab := WithControl(st.ab, item))
    case PushBack(n) => st.(ba := st.ba.(source := Replay.PushedBack(st.ba.source, n)))
    case ReadLink => ReadStepLeft(st)
  }

  function SwapStack(st: Stack): Stack {
    Stack(st.b, st.a, st.ba, st.ab)
  }

  function StackNext(st: Stack, step: StackStep): Stack {
    if step.left then StackLeft(st, step.act) else SwapStack(StackLeft(SwapStack(st), step.act))
  }

  function StackRun(webSocket: bool, steps: seq<StackStep>): Stack {
    if steps == [] then Start(webSocket)
    else StackNext(StackRun(webSocket, steps[..|steps| - 1]), steps[|steps| - 1])
  }

  // ---------- what a link carries ----------

  /** The payload bytes on their way, as the receiving session will read them. */
  function Content(l: Link, items: seq<Ws.Item>): bytes {
    if l.webSocket then l.leftover + Ws.Payloads(items) else Arriving(l)
  }

  /** `items` are the WebSocket frames on the link and `moving` the mux frames in them. */
  predicate CarriesVia(l: Link, fs: seq<Frame>, items: seq<Ws.Item>, moving: seq<Frame>) {
    && fs == moving + l.queue
    && Pending(l.reader, Content(l, items), moving)
    && (l.webSocket ==> Ws.Flowing(items) && Arriving(l) == Ws.Encodes(items))
  }

  /** The link carries exactly the frames `fs`, in order. */
  ghost predicate Carries(l: Link, fs: seq<Frame>) {
    exists items, moving :: CarriesVia(l, fs, items, moving)
  }

  ghost predicate Refines(st: Stack, n: Net) {
    st.a == n.a && st.b == n.b && Carries(st.ab, n.ab) && Carries(st.ba, n.ba)
  }

  predicate Small(fs: seq<Frame>) {
    forall i :: 0 <= i < |fs| ==> WellFormed(fs[i]) && |Wire(fs[i])| <= 128 * 1024 + 12
  }

  lemma EnqueueCarries(l: Link, fs: seq<Frame>, out: seq<Frame>)
    requires Carries(l, fs)
    ensures Carries(l.(queue := l.queue + out), fs + out)
  {
    var items, moving :| CarriesVia(l, fs, items, moving);
    Assoc(moving, l.queue, out);
    assert CarriesVia(l.(queue := l.queue + out), fs + out, items, moving);
  }

  /** The message that takes a frame down the link carries it behind what is there. */
  lemma MessageCarries(l: Link, items: seq<Ws.Item>, moving: seq<Frame>, f: Frame, key: Option<Ws.Mask>)
    requires Pending(l.reader, Content(l, items), moving) && WellFormed(f) && |Wire(f)| <= 128 * 1024 + 12
    requires l.webSocket && Ws.Flowing(items) && Arriving(l) == Ws.Encodes(items)
    ensures var items' := items + [Message(key, f)];
            var l' := Put(l, Ws.Encode(Message(key, f)));
            && Pending(l.reader, Content(l', items'), moving + [f])
            && Ws.Flowing(items') && Arriving(l') == Ws.Encodes(items')
  {
    PendingAppend(l.reader, Content(l, items), moving, f);
    hide Pending, Wire, Ws.Encode, Ws.Encodes, Ws.Payloads, Ws.Flowing;
    Ws.EncodesAppend(items, Message(key, f));
    Assoc(l.leftover, Ws.Payloads(items), Wire(f));
  }

  /** Handing a frame down moves it from the queue onto the link; no WebSocket limit is in the way. */
  lemma SentCarries(l: Link, fs: seq<Frame>, key: Option<Ws.Mask>)
    requires Carries(l, fs) && Small(fs)
    ensures Carries(Sent(l, key), fs)
  {
    var items, moving :| CarriesVia(l, fs, items, moving);
    if l.queue != [] {
      HeadCarries(l, fs, key, items, moving);
    }
  }

  lemma HeadCarries(l: Link, fs: seq<Frame>, key: Option<Ws.Mask>, items: seq<Ws.Item>, moving: seq<Frame>)
    requires CarriesVia(l, fs, items, moving) && Small(fs) && l.queue != []
    ensures Carries(Sent(l, key), fs)
  {
    hide Pending, Wire, Ws.Encode, Ws.Encodes, Ws.Payloads, Ws.Flowing, WellFormed;
    var f := l.queue[0];
    assert f == fs[|moving|];
    assert moving + [f] + l.queue[1..] == fs;
    if l.webSocket {
      MessageCarries(l, items, moving, f, key);
      assert CarriesVia(Sent(l, key), fs, items + [Message(key, f)], moving + [f]);
    } else {
      PendingAppend(l.reader, Content(l, items), moving, f);
      assert CarriesVia(Sent(l, key), fs, items, moving + [f]);
    }
  }

  /** Bytes that are replayed are the bytes there were. */
  lemma PushBackCarries(l: Link, fs: seq<Frame>, n: nat)
    requires Carries(l, fs)
    ensures Carries(l.(source := Replay.PushedBack(l.source, n)), fs)
  {
    Replay.PushedBackContent(l.source, n);
    var items, moving :| CarriesVia(l, fs, items, moving);
    hide Pending;
    assert CarriesVia(l.(source := Replay.PushedBack(l.source, n)), fs, items, moving);
  }

  lemma ControlCarries(l: Link, fs: seq<Frame>, item: Ws.Item)
    requires Carries(l, fs)
    ensures Carries(WithControl(l, item), fs)
  {
    var items, moving :| CarriesVia(l, fs, items, moving);
    if l.webSocket && IsControl(item) {
      Ws.EncodesAppend(items, item);
      assert Ws.Payloads(items) + [] == Ws.Payloads(items);
      assert CarriesVia(WithControl(l, item), fs, items + [item], moving);
    }
  }

  /** What an exact read may come to: the next `n` bytes of the content, with `items'` left on the link, or waiting
      while there are fewer. */
  predicate TakesNext(l: Link, items: seq<Ws.Item>, n: nat, items': seq<Ws.Item>) {
    match ReadExactly(l, n)
    case Waits => |Content(l, items)| < n
    case Fails => false
    case Gives(data, after) =>
      && |data| == n && data + Content(after, items') == Content(l, items)
      && after.queue == l.queue && after.reader == l.reader && after.webSocket == l.webSocket
      && (l.webSocket ==> Ws.Flowing(items') && Arriving(after) == Ws.Encodes(items'))
  }

  /** An exact read takes the next bytes of the content, or waits for more; it never fails. */
  lemma ReadTakes(l: Link, items: seq<Ws.Item>, n: nat) returns (items': seq<Ws.Item>)
    requires l.webSocket ==> Ws.Flowing(items) && Arriving(l) == Ws.Encodes(items)
    ensures TakesNext(l, items, n, items')
  {
    items' := items;
    if l.webSocket {
      var c := Ws.Incoming(l.leftover, Arriving(l), []);
      items' := Ws.ReadAllPipe(c, items, n);
      Ws.ReadAllSuffix(c, n);
      Replay.AfterContent(l.source, |Arriving(l)| - |Ws.ReadAll(c, n).after.input|);
    } else if n <= |Arriving(l)| {
      Replay.AfterContent(l.source, n);
      assert Arriving(l)[..n] + Arriving(l)[n..] == Arriving(l);
    }
  }

  lemma NeedsSome(r: Reader, wire: bytes, fs: seq<Frame>)
    requires Pending(r, wire, fs) && |wire| >= Needs(r)
    ensures fs != []
  {
  }

  /** `ReaderRecovers`, for the next bytes of the content however they were read. */
  lemma NextRead(r: Reader, content: bytes, data: bytes, rest: bytes, moving: seq<Frame>)
    requires Pending(r, content, moving) && |data| == Needs(r) && data + rest == content
    ensures moving != []
    ensures match OnRead(r, data)
            case Halt => false
            case Continue(next) => Pending(next, rest, moving)
            case Deliver(next, f) => f == moving[0] && Pending(next, rest, moving[1..])
  {
    assert content[..|data|] == data && content[|data|..] == rest;
    NeedsSome(r, content, moving);
    ReaderRecovers(r, content, moving);
  }

  /** Bytes `data` handed to the read loop, with `after` left of the link. */
  ghost predicate Hands(l: Link, fs: seq<Frame>, data: bytes, after: Link)
    requires |data| == Needs(l.reader)
  {
    match OnRead(l.reader, data)
    case Halt => false
    case Continue(next) => Carries(after.(reader := next), fs)
    case Deliver(next, f) => fs != [] && f == fs[0] && Carries(after.(reader := next), fs[1..])
  }

  lemma ReadHands(l: Link, fs: seq<Frame>, items: seq<Ws.Item>, moving: seq<Frame>, data: bytes, after: Link, items': seq<Ws.Item>)
    requires CarriesVia(l, fs, items, moving) && |data| == Needs(l.reader)
    requires data + Content(after, items') == Content(l, items)
    requires after.queue == l.queue && after.reader == l.reader && after.webSocket == l.webSocket
    requires l.webSocket ==> Ws.Flowing(items') && Arriving(after) == Ws.Encodes(items')
    ensures Hands(l, fs, data, after)
  {
    hide OnRead, Pending, Needs, Ws.Payloads, Ws.Flowing, Ws.Encodes;
    NextRead(l.reader, Content(l, items), data, Content(after, items'), moving);
    match OnRead(l.reader, data)
    case Continue(next) => assert CarriesVia(after.(reader := next), fs, items', moving);
    case Deliver(next, f) =>
      assert fs[1..] == moving[1..] + l.queue;
      assert CarriesVia(after.(reader := next), fs[1..], items', moving[1..]);
    case Halt =>
  }

  /** The receiving session gets exactly the frames the link carries, in order, and never a read error
      or an oversized frame. */
  lemma ReadDelivers(l: Link, fs: seq<Frame>)
    requires Carries(l, fs)
    ensures match ReadExactly(l, Needs(l.reader))
            case Waits => true
            case Fails => false
            case Gives(data, after) => |data| == Needs(l.reader) && Hands(l, fs, data, after)
  {
    hide ReadExactly, OnRead, Pending, Needs, Hands, Content, Ws.Flowing, Ws.Encodes;
    var items, moving :| CarriesVia(l, fs, items, moving);
    var items' := ReadTakes(l, items, Needs(l.reader));
    if ReadExactly(l, Needs(l.reader)).Gives? {
      var data, after := ReadExactly(l, Needs(l.reader)).data, ReadExactly(l, Needs(l.reader)).l;
      ReadHands(l, fs, items, moving, data, after, items');
    }
  }

  // ---------- the whole stack ----------

  lemma LinksSmall(steps: seq<Step>)
    ensures Small(Run(steps).ab) && Small(Run(steps).ba)
  {
    forall i | 0 <= i < |Run(steps).ab| ensures WellFormed(Run(steps).ab[i]) && |Wire(Run(steps).ab[i])| <= 128 * 1024 + 12 {
      MuxTheorems.FramesBounded(steps, true, i);
    }
    forall i | 0 <= i < |Run(steps).ba| ensures WellFormed(Run(steps).ba[i]) && |Wire(Run(steps).ba[i])| <= 128 * 1024 + 12 {
      MuxTheorems.FramesBounded(steps, false, i);
    }
  }

  /** A session's own step does the same to the stack as to the net. */
  lemma ActRefines(st: Stack, n: Net, act: SideAction)
    requires Refines(st, n) && !act.Receive?
    ensures Refines(StackLeft(st, Act(act)), StepLeft(n, act))
  {
    hide Carries, Session.OpenStream, Session.Stop, MuxPair.Local;
    var out := StepLeft(Net(st.a, st.b, [], []), act).ab;
    assert StepLeft(n, act).ab == n.ab + out && StepLeft(n, act).ba == n.ba;
    EnqueueCarries(st.ab, n.ab, out);
  }

  /** The pending read completes and delivers a frame. */
  predicate Delivers(st: Stack) {
    && !st.a.session.stopped
    && match ReadExactly(st.ba, Needs(st.ba.reader))
       case Gives(data, _) => |data| == Needs(st.ba.reader) && OnRead(st.ba.reader, data).Deliver?
       case _ => false
  }

  /** Reading off the link either changes nothing but the link, or is the net's step of receiving. */
  lemma ReadRefines(st: Stack, n: Net)
    requires Refines(st, n)
    ensures Refines(ReadStepLeft(st), if Delivers(st) then StepLeft(n, Receive) else n)
  {
    hide Carries, Session.HandleFrame, ReadExactly, OnRead, Needs;
    ReadDelivers(st.ba, n.ba);
    if !st.a.session.stopped && ReadExactly(st.ba, Needs(st.ba.reader)).Gives? {
      var data := ReadExactly(st.ba, Needs(st.ba.reader)).data;
      if OnRead(st.ba.reader, data).Deliver? {
        EnqueueCarries(st.ab, n.ab, Session.HandleFrame(n.a.session, n.ba[0]).out);
      }
    }
  }

  lemma LeftRefines(st: Stack, n: Net, act: LinkAction) returns (acts: seq<SideAction>)
    requires Refines(st, n) && Small(n.ab)
    ensures |acts| <= 1
    ensures Refines(StackLeft(st, act), if acts == [] then n else StepLeft(n, acts[0]))
  {
    hide Carries, ReadStepLeft, StepLeft;
    acts := [];
    match act
    case Act(a) =>
      if !a.Receive? {
        acts := [a];
        ActRefines(st, n, a);
      }
    case HandDown(key) => SentCarries(st.ab, n.ab, key);
    case Control(item) => ControlCarries(st.ab, n.ab, item);
    case PushBack(k) => PushBackCarries(st.ba, n.ba, k);
    case ReadLink =>
      ReadRefines(st, n);
      acts := if Delivers(st) then [Receive] else [];
  }

  lemma SwapRefines(st: Stack, n: Net)
    requires Refines(st, n)
    ensures Refines(SwapStack(st), Swap(n))
  {
  }

  lemma StartRefines(webSocket: bool)
    ensures Refines(Start(webSocket), Init())
  {
    var items: seq<Ws.Item>, moving: seq<Frame> := [], [];
    assert CarriesVia(NewLink(webSocket), [], items, moving);
  }

  /** Whatever the users, the sessions, the masks, the pings and the order of events, a run of the stack
      is a run of the net: both sides go through the same states, and each link carries exactly the
      frames the net has in transit. */
  lemma {:induction false} StackRefinesNet(webSocket: bool, steps: seq<StackStep>) returns (run: seq<Step>)
    ensures Refines(StackRun(webSocket, steps), Run(run))
  {
    hide Refines, StackLeft, StepLeft, Small;
    if steps == [] {
      run := [];
      StartRefines(webSocket);
    } else {
      var before, step := steps[..|steps| - 1], steps[|steps| - 1];
      var done := StackRefinesNet(webSocket, before);
      run := NextRefines(StackRun(webSocket, before), done, step);
    }
  }

  lemma NextRefines(st: Stack, done: seq<Step>, step: StackStep) returns (run: seq<Step>)
    requires Refines(st, Run(done))
    ensures Refines(StackNext(st, step), Run(run))
  {
    hide Refines, StackLeft, StepLeft, Small;
    var n := Run(done);
    LinksSmall(done);
    SwapRefines(st, n);
    var mine, net := if step.left then st else SwapStack(st), if step.left then n else Swap(n);
    var acts := LeftRefines(mine, net, step.act);
    SwapRefines(StackLeft(mine, step.act), if acts == [] then net else StepLeft(net, acts[0]));
    if acts == [] {
      run := done;
    } else {
      run := done + [Step(step.left, acts[0])];
      assert run[..|done|] == done;
    }
  }

  // ---------- what the whole stack guarantees ----------

  /** A session reading off a link never sees a read error, a refused WebSocket frame or a mux frame
      beyond its limit. */
  lemma LinkNeverFails(webSocket: bool, steps: seq<StackStep>, atLeft: bool)
    ensures var st := StackRun(webSocket, steps);
            var l := if atLeft then st.ba else st.ab;
            match ReadExactly(l, Needs(l.reader))
            case Waits => true
            case Fails => false
            case Gives(data, _) => |data| == Needs(l.reader) && !OnRead(l.reader, data).Halt?
  {
    hide Carries, StackRun, Run, ReadExactly, OnRead;
    var run := StackRefinesNet(webSocket, steps);
    var st, n := StackRun(webSocket, steps), Run(run);
    ReadDelivers(if atLeft then st.ba else st.ab, if atLeft then n.ba else n.ab);
  }

  /** Prefix delivery through sessions, framing and masking: what a stream's reader has been given is a
      prefix of what was written at the other end. */
  lemma StackBytePipe(webSocket: bool, steps: seq<StackStep>, id: u32, fromLeft: bool)
    ensures var st := StackRun(webSocket, steps);
            var writer, reader := if fromLeft then st.a else st.b, if fromLeft then st.b else st.a;
            MuxPair.Delivered(ObjectOf(reader, id).log) <= ObjectOf(writer, id).written
  {
    hide Carries, StackRun, Run;
    var run := StackRefinesNet(webSocket, steps);
    MuxTheorems.BytePipe(run, id, fromLeft);
  }

  /** The cap of 1 MiB on a sent frame would not be enough by itself: of the frames it allows, a WebSocket peer
      refuses exactly those with more than 1 MiB less the 12 bytes of the mux header. */
  lemma CapTooWide(key: Option<Ws.Mask>, id: u32, body: bytes, rest: bytes)
    requires |body| <= 1024 * 1024
    ensures Ws.ReadFrame(Ws.Encode(Message(key, Payload(id, body))) + rest) == Ws.Refused
            <==> |body| > 1024 * 1024 - 12
  {
    var item := Message(key, Payload(id, body));
    assert |item.payload| == 12 + |body|;
    Ws.FrameRoundTrip(item, rest);
    hide Ws.ReadFrame, Ws.Encode;
  }
}
