/** One multiplexed stream between two sessions: its object on either side (with the tasks posted to
    its strand), and the frames carrying its id in each direction. Every step of the two-session
    system of `MuxNet.dfy` is, for each id, one step of this pair or no step at all. */
module MuxPair {
  import opened Bytes
  import opened MuxFrame
  import opened MuxStreamSpec

  /** What `handle_frame` and `stop` post to a stream's strand. */
  datatype Task = DataTask(data: bytes) | UpdateTask(delta: u32) | CloseTask

  /** One side's view of the stream. `written`, `sent` and `log` are histories: bytes accepted from the
      user, payload bytes handed to the session, and read handlers called. */
  datatype View = View(
    stopped: bool,        // the session has stopped
    present: bool,        // the stream object has been created
    inTable: bool,        // the session's table maps the id to it
    s: Stream,
    inbox: seq<Task>,
    written: bytes,
    sent: bytes,
    log: seq<Completion>)

  function Absent(id: u32, stopped: bool): View {
    View(stopped, false, false, NewStream(id), [], [], [], [])
  }

  datatype Pair = Pair(l: View, r: View, lr: seq<Frame>, rl: seq<Frame>)

  function Mirror(p: Pair): Pair {
    Pair(p.r, p.l, p.rl, p.lr)
  }

  /** A view after a step, with the frames it enqueued. */
  datatype Move = Move(v: View, out: seq<Frame>)

  datatype Action = Open | Write(data: bytes) | Read(req: ReadReq) | Close | RunTask | Stop

  // ---------- content of channels ----------

  function Bodies(fs: seq<Frame>): bytes {
    if fs == [] then [] else fs[0].body + Bodies(fs[1..])
  }

  function Credit(f: Frame): nat {
    if f.h.kind == WINDOW_UPDATE then f.h.length else 0
  }

  function Credits(fs: seq<Frame>): nat {
    if fs == [] then 0 else Credit(fs[0]) + Credits(fs[1..])
  }

  function DataOf(t: Task): bytes {
    if t.DataTask? then t.data else []
  }

  function TaskData(ts: seq<Task>): bytes {
    if ts == [] then [] else DataOf(ts[0]) + TaskData(ts[1..])
  }

  function TaskCredit(t: Task): nat {
    if t.UpdateTask? then t.delta else 0
  }

  function TaskCredits(ts: seq<Task>): nat {
    if ts == [] then 0 else TaskCredit(ts[0]) + TaskCredits(ts[1..])
  }

  function Result(c: Completion): bytes {
    if c.result.Got? then c.result.data else []
  }

  /** All bytes handed to the user, in order. */
  function Delivered(log: seq<Completion>): bytes {
    if log == [] then [] else Result(log[0]) + Delivered(log[1..])
  }

  lemma {:induction false} BodiesAppend(a: seq<Frame>, b: seq<Frame>)
    ensures Bodies(a + b) == Bodies(a) + Bodies(b)
  {
    if a == [] {
      assert a + b == b;
    } else {
      BodiesAppend(a[1..], b);
      assert (a + b)[1..] == a[1..] + b;
      Assoc(a[0].body, Bodies(a[1..]), Bodies(b));
    }
  }

  lemma {:induction false} CreditsAppend(a: seq<Frame>, b: seq<Frame>)
    ensures Credits(a + b) == Credits(a) + Credits(b)
  {
    if a == [] {
      assert a + b == b;
    } else {
      CreditsAppend(a[1..], b);
      assert (a + b)[1..] == a[1..] + b;
    }
  }

  lemma {:induction false} TaskDataAppend(a: seq<Task>, b: seq<Task>)
    ensures TaskData(a + b) == TaskData(a) + TaskData(b)
  {
    if a == [] {
      assert a + b == b;
    } else {
      TaskDataAppend(a[1..], b);
      assert (a + b)[1..] == a[1..] + b;
      Assoc(DataOf(a[0]), TaskData(a[1..]), TaskData(b));
    }
  }

  lemma {:induction false} TaskCreditsAppend(a: seq<Task>, b: seq<Task>)
    ensures TaskCredits(a + b) == TaskCredits(a) + TaskCredits(b)
  {
    if a == [] {
      assert a + b == b;
    } else {
      TaskCreditsAppend(a[1..], b);
      assert (a + b)[1..] == a[1..] + b;
    }
  }

  lemma {:induction false} DeliveredAppend(a: seq<Completion>, b: seq<Completion>)
    ensures Delivered(a + b) == Delivered(a) + Delivered(b)
  {
    if a == [] {
      assert a + b == b;
    } else {
      DeliveredAppend(a[1..], b);
      assert (a + b)[1..] == a[1..] + b;
      Assoc(Result(a[0]), Delivered(a[1..]), Delivered(b));
    }
  }

  // ---------- steps ----------

  function Apply(v: View, e: Effect): View {
    v.(s := e.s, sent := v.sent + Bodies(e.frames), log := v.log + e.log, inTable := v.inTable && !e.removed)
  }

  function TaskEffect(s: Stream, t: Task): Effect {
    match t
    case DataTask(data) => HandleData(s, data)
    case UpdateTask(delta) => HandleWindowUpdate(s, delta)
    case CloseTask => HandleClose(s)
  }

  /** A step of the user, of the stream's strand, or of `Session::stop`. Users do not read or write
      after their own close; a step that is not possible changes nothing. */
  function Local(v: View, a: Action): Move {
    match a
    case Open =>
      if v.present then Move(v, []) else Move(v.(present := true, inTable := true), [Syn(v.s.id)])
    case Write(data) =>
      if !v.present || v.s.localClosed || !WriteAccepted(v.s) then Move(v, [])
      else
        var e := AsyncWrite(v.s, data);
        Move(Apply(v, e).(written := v.written + data), e.frames)
    case Read(req) =>
      if !v.present || v.s.localClosed then Move(v, [])
      else
        var e := AsyncRead(v.s, req);
        Move(Apply(v, e), e.frames)
    case Close =>
      if !v.present then Move(v, [])
      else
        var e := MuxStreamSpec.Close(v.s);
        Move(Apply(v, e), e.frames)
    case RunTask =>
      if v.inbox == [] then Move(v, [])
      else
        var e := TaskEffect(v.s, v.inbox[0]);
        Move(Apply(v, e).(inbox := v.inbox[1..]), e.frames)
    case Stop =>
      if v.stopped then Move(v, [])
      else Move(v.(stopped := true, inTable := false,
                   inbox := if v.inTable then v.inbox + [CloseTask] else v.inbox), [])
  }

  /** `handle_frame` for a frame of this stream. */
  function Handle(v: View, f: Frame): Move {
    if f.h.kind == DATA then
      var creates := Has(f.h.flags, SYN) && !v.inTable;
      var v' := if creates then Absent(f.h.streamId, v.stopped).(present := true, inTable := true) else v;
      var data := if f.body != [] then [DataTask(f.body)] else [];
      var fin := if Has(f.h.flags, FIN) then [CloseTask] else [];
      Move(if v'.inTable then v'.(inbox := v'.inbox + data + fin) else v',
           if creates then [Ack(f.h.streamId)] else [])
    else if f.h.kind == WINDOW_UPDATE then
      Move(if v.inTable then v.(inbox := v.inbox + [UpdateTask(f.h.length)]) else v, [])
    else
      Move(v, [])
  }

  function LocalLeft(p: Pair, a: Action): Pair {
    var m := Local(p.l, a);
    p.(l := m.v, lr := p.lr + m.out)
  }

  /** The left session takes the next frame of this stream off the link. */
  function ReceiveLeft(p: Pair): Pair {
    if p.l.stopped || p.rl == [] then p
    else
      var m := Handle(p.l, p.rl[0]);
      p.(l := m.v, rl := p.rl[1..], lr := p.lr + m.out)
  }

  // ---------- invariant ----------

  /** A read handler was told that the stream has ended: `eof`, or a short `async_read`. */
  predicate SaysEnd(c: Completion) {
    c.result.Eof? || (c.req.all && c.result.Got? && |c.result.data| < c.req.size)
  }

  predicate EndSeen(log: seq<Completion>) {
    exists i :: 0 <= i < |log| && SaysEnd(log[i])
  }

  /** No data is delivered after the end was announced. */
  predicate EndIsFinal(log: seq<Completion>) {
    forall i, j :: 0 <= i < j < |log| && SaysEnd(log[i]) ==> !log[j].result.Got?
  }

  /** A completed read got what it asked for at most, and something if it asked for something. */
  predicate Sane(c: Completion) {
    c.result.Got? ==> |c.result.data| <= c.req.size && (c.req.size > 0 ==> c.result.data != [])
  }

  predicate SaneLog(log: seq<Completion>) {
    forall i :: 0 <= i < |log| ==> Sane(log[i])
  }

  predicate NoFin(fs: seq<Frame>) {
    forall i :: 0 <= i < |fs| ==> !IsFin(fs[i])
  }

  predicate FinLast(fs: seq<Frame>)
    requires fs != []
  {
    IsFin(fs[|fs| - 1]) && NoFin(fs[..|fs| - 1])
  }

  predicate NoSyn(fs: seq<Frame>) {
    forall i :: 0 <= i < |fs| ==> !IsSyn(fs[i])
  }

  predicate OnlyClose(ts: seq<Task>) {
    forall i :: 0 <= i < |ts| ==> ts[i].CloseTask?
  }

  predicate HasClose(ts: seq<Task>) {
    exists i :: 0 <= i < |ts| && ts[i].CloseTask?
  }

  predicate CloseLast(ts: seq<Task>) {
    forall i, j :: 0 <= i < j < |ts| && ts[i].CloseTask? ==> ts[j].CloseTask?
  }

  predicate ForStream(fs: seq<Frame>, id: u32) {
    forall i :: 0 <= i < |fs| ==> Conforming(fs[i]) && !IsPing(fs[i]) && fs[i].h.streamId == id
  }

  /** Where the sender's bytes are. */
  predicate DataFlow(snd: View, rcv: View, fwd: seq<Frame>) {
    && snd.sent <= snd.written
    && Delivered(rcv.log) <= snd.sent
    && (!snd.s.localClosed ==> snd.written == snd.sent + Flatten(snd.s.pendingWrites))
    && (!rcv.s.localClosed ==>
          snd.sent == Delivered(rcv.log) + (rcv.s.unread + (TaskData(rcv.inbox) + Bodies(fwd))))
  }

  /** Window, payload in transit and window updates in transit. */
  function InFlight(snd: View, rcv: View, fwd: seq<Frame>, back: seq<Frame>): nat {
    snd.s.window + |TaskData(rcv.inbox)| + |Bodies(fwd)| + Credits(back) + TaskCredits(snd.inbox)
  }

  predicate CreditFlow(snd: View, rcv: View, fwd: seq<Frame>, back: seq<Frame>) {
    && rcv.s.consumed < UPDATE_THRESHOLD
    && InFlight(snd, rcv, fwd, back) <= INITIAL_WINDOW
    && (!rcv.s.localClosed ==>
          InFlight(snd, rcv, fwd, back) + |rcv.s.unread| + rcv.s.consumed == INITIAL_WINDOW)
  }

  /** FIN is the last frame, and the receiver learns of the close only from it (or from `stop`). */
  predicate CloseFlow(snd: View, rcv: View, fwd: seq<Frame>) {
    && (if snd.s.localClosed then fwd != [] ==> FinLast(fwd) else NoFin(fwd))
    && (!rcv.stopped ==>
          ((rcv.s.remoteClosed || HasClose(rcv.inbox)) <==> (snd.s.localClosed && fwd == [])))
    && CloseLast(rcv.inbox)
    && (rcv.s.remoteClosed ==> OnlyClose(rcv.inbox))
  }

  /** What the receiver's user has been told about the end. */
  predicate EndFlow(snd: View, rcv: View) {
    && SaneLog(rcv.log) && EndIsFinal(rcv.log)
    && (EndSeen(rcv.log) ==>
          rcv.s.remoteClosed && rcv.s.unread == [] && (!rcv.stopped ==> Delivered(rcv.log) == snd.sent))
  }

  predicate Flow(snd: View, rcv: View, fwd: seq<Frame>, back: seq<Frame>) {
    && DataFlow(snd, rcv, fwd)
    && CreditFlow(snd, rcv, fwd, back)
    && CloseFlow(snd, rcv, fwd)
    && EndFlow(snd, rcv)
  }

  /** The table holds a stream until both sides are closed and nothing is left to read. */
  predicate TableOk(v: View) {
    v.present && !v.stopped ==> (v.inTable <==> !CleanupDue(v.s))
  }

  /** Facts about one side alone. */
  predicate ViewOk(v: View, id: u32) {
    && v.s.id == id
    && (!v.present ==> v == Absent(id, v.stopped))
    && (v.s.localClosed ==> v.s.pendingReads == [] && v.s.pendingWrites == [])
  }

  /** The opener's SYN comes first; the other side has the stream once it has handled the SYN. */
  predicate SynFlow(opener: View, other: View, fwd: seq<Frame>, back: seq<Frame>) {
    && NoSyn(back)
    && (!opener.present ==> !other.present && fwd == [] && back == [])
    && (!other.present ==> back == [])
    && (if opener.present && !other.present then fwd != [] && IsSyn(fwd[0]) && NoSyn(fwd[1..]) else NoSyn(fwd))
  }

  /** Bytes wait at the sender only when its window is used up. */
  predicate WritesOnlyBlocked(v: View) {
    v.s.pendingWrites != [] ==> v.s.window == 0
  }

  /** A waiting read cannot be served from what is unread. */
  predicate ReadsOnlyBlocked(v: View) {
    v.s.pendingReads != [] ==> MustWait(v.s)
  }

  predicate Opening(p: Pair, leftOpens: bool) {
    if leftOpens then SynFlow(p.l, p.r, p.lr, p.rl) else SynFlow(p.r, p.l, p.rl, p.lr)
  }

  /** Invariant of every reachable pair, apart from what each step restores by running a loop to its end. */
  predicate Core(p: Pair, id: u32, leftOpens: bool) {
    && ViewOk(p.l, id) && ViewOk(p.r, id)
    && ForStream(p.lr, id) && ForStream(p.rl, id)
    && Flow(p.l, p.r, p.lr, p.rl) && Flow(p.r, p.l, p.rl, p.lr)
    && Opening(p, leftOpens)
  }

  predicate Settled(v: View) {
    TableOk(v) && WritesOnlyBlocked(v) && ReadsOnlyBlocked(v)
  }

  predicate Inv(p: Pair, id: u32, leftOpens: bool) {
    Core(p, id, leftOpens) && Settled(p.l) && Settled(p.r)
  }

  lemma MirrorInv(p: Pair, id: u32, leftOpens: bool)
    ensures Inv(Mirror(p), id, !leftOpens) <==> Inv(p, id, leftOpens)
  {
  }
}
