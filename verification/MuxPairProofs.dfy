/** Every step of a pair keeps its invariant. */
module MuxPairProofs {
  import opened Bytes
  import opened MuxFrame
  import opened MuxStreamSpec
  import opened MuxPair
  import opened MuxLoops

  // ---------- sending what the window allows ----------

  lemma SendAsSender(v: View, rcv: View, fwd: seq<Frame>, back: seq<Frame>)
    requires Flow(v, rcv, fwd, back) && !v.s.localClosed
    ensures var e := DoWrite(v.s); Flow(Apply(v, e), rcv, fwd + e.frames, back)
  {
    var e := DoWrite(v.s);
    DoWriteFacts(v.s);
    BodiesAppend(fwd, e.frames);
    Assoc(v.sent, Bodies(e.frames), Flatten(e.s.pendingWrites));
    if !rcv.s.localClosed {
      Assoc(TaskData(rcv.inbox), Bodies(fwd), Bodies(e.frames));
      Assoc(rcv.s.unread, TaskData(rcv.inbox) + Bodies(fwd), Bodies(e.frames));
      Assoc(Delivered(rcv.log), rcv.s.unread + (TaskData(rcv.inbox) + Bodies(fwd)), Bodies(e.frames));
    }
    assert v.sent + Bodies(e.frames) <= v.written;
    if !rcv.stopped && EndSeen(rcv.log) {
      assert false;
    }
  }

  lemma SendAsReceiver(snd: View, v: View, fwd: seq<Frame>, back: seq<Frame>)
    requires Flow(snd, v, fwd, back)
    ensures var e := DoWrite(v.s); Flow(snd, Apply(v, e), fwd, back + e.frames)
  {
    var e := DoWrite(v.s);
    DoWriteFacts(v.s);
    CreditsAppend(back, e.frames);
    assert v.log + e.log == v.log;
  }

  // ---------- handing unread bytes to the user ----------

  lemma ReadAsReceiver(snd: View, v: View, fwd: seq<Frame>, back: seq<Frame>)
    requires Flow(snd, v, fwd, back) && (v.s.localClosed ==> v.s.pendingReads == [])
    ensures var e := DoRead(v.s); Flow(snd, Apply(v, e), fwd, back + e.frames)
  {
    var e := DoRead(v.s);
    DoReadFacts(v.log, v.s);
    CreditsAppend(back, e.frames);
    DeliveredAppend(v.log, e.log);
    if v.s.localClosed {
      assert v.log + e.log == v.log;
    } else {
      var rest := TaskData(v.inbox) + Bodies(fwd);
      Assoc(Delivered(v.log), v.s.unread, rest);
      Assoc(Delivered(v.log), Delivered(e.log), e.s.unread);
      Assoc(Delivered(v.log) + Delivered(e.log), e.s.unread, rest);
      if EndSeen(v.log + e.log) && !v.stopped {
        NoTaskData(v.inbox);
        assert Delivered(v.log + e.log) + ([] + ([] + [])) == Delivered(v.log + e.log);
      }
    }
  }

  lemma {:induction false} NoTaskData(ts: seq<Task>)
    requires OnlyClose(ts)
    ensures TaskData(ts) == [] && TaskCredits(ts) == 0
  {
    if ts != [] {
      NoTaskData(ts[1..]);
    }
  }

  /** `v` and `w` agree on all that matters for the direction in which they send. */
  predicate SameSender(v: View, w: View) {
    && w.sent == v.sent && w.written == v.written
    && w.s.window == v.s.window && w.s.pendingWrites == v.s.pendingWrites
    && w.s.localClosed == v.s.localClosed
    && TaskCredits(w.inbox) == TaskCredits(v.inbox)
  }

  lemma SameSenderFlow(v: View, w: View, rcv: View, fwd: seq<Frame>, back: seq<Frame>)
    requires Flow(v, rcv, fwd, back) && SameSender(v, w)
    ensures Flow(w, rcv, fwd, back)
  {
  }

  /** Frames without data, credit for the peer's window aside, leave the sending direction alone. */
  lemma UpdatesAppended(v: View, rcv: View, fwd: seq<Frame>, back: seq<Frame>, out: seq<Frame>, id: u32)
    requires Flow(v, rcv, fwd, back) && AllUpdate(out, id) && Bodies(out) == []
    requires v.s.localClosed ==> out == []
    ensures Flow(v, rcv, fwd + out, back)
  {
    BodiesAppend(fwd, out);
    if out == [] {
      assert fwd + out == fwd;
    } else {
      assert NoFin(fwd + out);
    }
  }

  lemma ReadAsSender(v: View, rcv: View, fwd: seq<Frame>, back: seq<Frame>)
    requires Flow(v, rcv, fwd, back) && (v.s.localClosed ==> v.s.pendingReads == [])
    requires !v.s.localClosed ==> v.s.consumed + |v.s.unread| < 0x1_0000_0000
    ensures var e := DoRead(v.s); Flow(Apply(v, e), rcv, fwd + e.frames, back)
  {
    var e := DoRead(v.s);
    DoReadFacts(v.log, v.s);
    assert v.sent + [] == v.sent;
    UpdatesAppended(v, rcv, fwd, back, e.frames, v.s.id);
    SameSenderFlow(v, Apply(v, e), rcv, fwd + e.frames, back);
  }

  // ---------- closing ----------

  lemma {:induction false} AbortsSayNothing(requests: seq<ReadReq>)
    ensures Delivered(Aborts(requests)) == []
    ensures forall i :: 0 <= i < |requests| ==> Aborts(requests)[i].result == Aborted
  {
    if requests != [] {
      AbortsSayNothing(requests[1..]);
    }
  }

  lemma AbortsKeepHistory(log: seq<Completion>, requests: seq<ReadReq>)
    ensures Delivered(log + Aborts(requests)) == Delivered(log)
    ensures EndSeen(log + Aborts(requests)) ==> EndSeen(log)
    ensures EndIsFinal(log) ==> EndIsFinal(log + Aborts(requests))
    ensures SaneLog(log) ==> SaneLog(log + Aborts(requests))
  {
    AbortsSayNothing(requests);
    DeliveredAppend(log, Aborts(requests));
    var log' := log + Aborts(requests);
    if EndSeen(log') {
      var i :| 0 <= i < |log'| && SaysEnd(log'[i]);
      assert i < |log| && log'[i] == log[i];
    }
  }

  lemma CloseAsReceiver(snd: View, v: View, fwd: seq<Frame>, back: seq<Frame>)
    requires Flow(snd, v, fwd, back) && !v.s.localClosed
    ensures var e := MuxStreamSpec.Close(v.s); Flow(snd, Apply(v, e), fwd, back + e.frames)
  {
    AbortsKeepHistory(v.log, v.s.pendingReads);
    BodiesSnoc(back, Fin(v.s.id));
  }

  lemma CloseAsSender(v: View, rcv: View, fwd: seq<Frame>, back: seq<Frame>)
    requires Flow(v, rcv, fwd, back) && !v.s.localClosed
    ensures var e := MuxStreamSpec.Close(v.s); Flow(Apply(v, e), rcv, fwd + e.frames, back)
  {
    var e := MuxStreamSpec.Close(v.s);
    BodiesSnoc(fwd, Fin(v.s.id));
    assert v.sent + Bodies(e.frames) == v.sent;
    assert (fwd + e.frames)[..|fwd|] == fwd;
    assert IsFin(Fin(v.s.id));
  }

  // ---------- tasks leave the strand's queue ----------

  /** The state in which a task's effect starts: the task is off the queue and its argument is in. */
  function Popped(v: View): View
    requires v.inbox != []
  {
    var v' := v.(inbox := v.inbox[1..]);
    match v.inbox[0]
    case DataTask(data) => v'.(s := v.s.(unread := v.s.unread + data))
    case UpdateTask(delta) => v'.(s := v.s.(window := Min(v.s.window + delta, MAX_MESSAGE_SIZE)))
    case CloseTask => v'.(s := v.s.(remoteClosed := true))
  }

  lemma PopCloseFlow(snd: View, v: View, fwd: seq<Frame>)
    requires CloseFlow(snd, v, fwd) && v.inbox != []
    ensures CloseFlow(snd, Popped(v), fwd)
  {
    var ts, rest := v.inbox, v.inbox[1..];
    if HasClose(rest) {
      var i :| 0 <= i < |rest| && rest[i].CloseTask?;
      assert ts[i + 1].CloseTask?;
    }
    if HasClose(ts) && !ts[0].CloseTask? {
      var i :| 0 <= i < |ts| && ts[i].CloseTask?;
      assert rest[i - 1].CloseTask?;
    }
    forall i, j | 0 <= i < j < |rest| && rest[i].CloseTask?
      ensures rest[j].CloseTask?
    {
      assert ts[i + 1].CloseTask? && ts[j + 1].CloseTask?;
    }
    forall i | 0 <= i < |rest| && (ts[0].CloseTask? || v.s.remoteClosed)
      ensures rest[i].CloseTask?
    {
      assert ts[i + 1].CloseTask?;
    }
  }

  lemma PopAsReceiver(snd: View, v: View, fwd: seq<Frame>, back: seq<Frame>)
    requires Flow(snd, v, fwd, back) && v.inbox != []
    ensures Flow(snd, Popped(v), fwd, back)
  {
    PopCloseFlow(snd, v, fwd);
    var data, rest := DataOf(v.inbox[0]), TaskData(v.inbox[1..]);
    Assoc(data, rest, Bodies(fwd));
    Assoc(v.s.unread, data, rest + Bodies(fwd));
    if v.inbox[0].DataTask? {
      assert !v.s.remoteClosed;
    } else {
      assert data + rest == rest;
    }
  }

  lemma PopAsSender(v: View, rcv: View, fwd: seq<Frame>, back: seq<Frame>)
    requires Flow(v, rcv, fwd, back) && v.inbox != []
    ensures Flow(Popped(v), rcv, fwd, back)
  {
    match v.inbox[0]
    case UpdateTask(delta) =>
      assert v.s.window + delta <= INITIAL_WINDOW;
      assert InFlight(Popped(v), rcv, fwd, back) == InFlight(v, rcv, fwd, back);
    case DataTask(data) => SameSenderFlow(v, Popped(v), rcv, fwd, back);
    case CloseTask => SameSenderFlow(v, Popped(v), rcv, fwd, back);
  }

  // ---------- whole steps ----------

  lemma Extend(p: Pair, v: View, out: seq<Frame>, id: u32, leftOpens: bool)
    requires Opening(p, leftOpens) && p.l.present && v.present
    requires ForStream(p.lr, id) && ForStream(out, id) && NoSyn(out)
    ensures ForStream(p.lr + out, id)
    ensures Opening(p.(l := v, lr := p.lr + out), leftOpens)
  {
    if leftOpens && !p.r.present {
      assert (p.lr + out)[1..] == p.lr[1..] + out;
    }
  }

  /** The pair after the left stream's write loop has run. */
  function AfterWriteLoop(p: Pair): Pair {
    p.(l := Apply(p.l, DoWrite(p.l.s)), lr := p.lr + DoWrite(p.l.s).frames)
  }

  /** The pair after the left stream's read loop has run. */
  function AfterReadLoop(p: Pair): Pair {
    p.(l := Apply(p.l, DoRead(p.l.s)), lr := p.lr + DoRead(p.l.s).frames)
  }

  lemma WriteLoopKeepsCore(p: Pair, id: u32, leftOpens: bool)
    requires Core(p, id, leftOpens) && p.l.present
    ensures Core(AfterWriteLoop(p), id, leftOpens)
  {
    var e := DoWrite(p.l.s);
    DoWriteFacts(p.l.s);
    Extend(p, Apply(p.l, e), e.frames, id, leftOpens);
    SendAsReceiver(p.r, p.l, p.rl, p.lr);
    if p.l.s.localClosed {
      assert Apply(p.l, e) == p.l && p.lr + e.frames == p.lr;
    } else {
      SendAsSender(p.l, p.r, p.lr, p.rl);
    }
  }

  lemma ReadLoopKeepsCore(p: Pair, id: u32, leftOpens: bool)
    requires Core(p, id, leftOpens) && p.l.present
    ensures p.l.s.pendingReads != [] ==> p.l.s.consumed + |p.l.s.unread| < 0x1_0000_0000
    ensures Core(AfterReadLoop(p), id, leftOpens)
  {
    var e := DoRead(p.l.s);
    DoReadFacts(p.l.log, p.l.s);
    Extend(p, Apply(p.l, e), e.frames, id, leftOpens);
    ReadAsReceiver(p.r, p.l, p.rl, p.lr);
    ReadAsSender(p.l, p.r, p.lr, p.rl);
  }

  /** Running the write loop restores the invariant. */
  lemma RunWriteLoop(p: Pair, id: u32, leftOpens: bool)
    requires Core(p, id, leftOpens) && p.l.present && Settled(p.r)
    requires TableOk(p.l) && ReadsOnlyBlocked(p.l)
    ensures Inv(AfterWriteLoop(p), id, leftOpens)
  {
    hide Core;
    WriteLoopKeepsCore(p, id, leftOpens);
    DoWriteFacts(p.l.s);
  }

  /** Running the read loop restores the invariant; a stream that has left the table is drained. */
  lemma RunReadLoop(p: Pair, id: u32, leftOpens: bool)
    requires Core(p, id, leftOpens) && p.l.present && Settled(p.r)
    requires WritesOnlyBlocked(p.l)
    requires !p.l.stopped && !p.l.inTable ==> CleanupDue(p.l.s) && p.l.s.pendingReads == []
    ensures Inv(AfterReadLoop(p), id, leftOpens)
  {
    hide Core;
    ReadLoopKeepsCore(p, id, leftOpens);
    DoReadFacts(p.l.log, p.l.s);
  }

  lemma QueueWrite(p: Pair, data: bytes, id: u32, leftOpens: bool) returns (p': Pair)
    requires Core(p, id, leftOpens) && p.l.present && !p.l.s.localClosed
    ensures p' == p.(l := p.l.(s := p.l.s.(pendingWrites := p.l.s.pendingWrites + [data]),
                               written := p.l.written + data))
    ensures Core(p', id, leftOpens)
  {
    var v := p.l;
    p' := p.(l := v.(s := v.s.(pendingWrites := v.s.pendingWrites + [data]), written := v.written + data));
    FlattenSnoc(v.s.pendingWrites, data);
    Assoc(v.sent, Flatten(v.s.pendingWrites), data);
    assert DataFlow(p'.l, p.r, p.lr);
    assert Flow(p'.l, p.r, p.lr, p.rl);
    assert Flow(p.r, p'.l, p.rl, p.lr);
  }

  lemma WriteKeepsInv(p: Pair, data: bytes, id: u32, leftOpens: bool)
    requires Inv(p, id, leftOpens)
    ensures Inv(LocalLeft(p, Write(data)), id, leftOpens)
  {
    hide Core;
    var v := p.l;
    if v.present && !v.s.localClosed && WriteAccepted(v.s) {
      var p1 := QueueWrite(p, data, id, leftOpens);
      RunWriteLoop(p1, id, leftOpens);
      assert LocalLeft(p, Write(data)) == AfterWriteLoop(p1);
    } else {
      assert LocalLeft(p, Write(data)) == p;
    }
  }

  /** Changes to waiting reads, and handlers called with neither data nor the end, matter to no invariant. */
  lemma ReadsMatterNot(p: Pair, reads': seq<ReadReq>, out: seq<Completion>, id: u32, leftOpens: bool)
    requires Core(p, id, leftOpens) && p.l.present && !p.l.s.localClosed
    requires Delivered(p.l.log + out) == Delivered(p.l.log)
    requires EndSeen(p.l.log + out) ==> EndSeen(p.l.log)
    requires EndIsFinal(p.l.log) ==> EndIsFinal(p.l.log + out)
    requires SaneLog(p.l.log) ==> SaneLog(p.l.log + out)
    ensures Core(p.(l := p.l.(s := p.l.s.(pendingReads := reads'), log := p.l.log + out)), id, leftOpens)
  {
    var v := p.l.(s := p.l.s.(pendingReads := reads'), log := p.l.log + out);
    SameSenderFlow(p.l, v, p.r, p.lr, p.rl);
    assert Flow(p.r, v, p.rl, p.lr);
  }

  lemma RefusalSaysNothing(log: seq<Completion>, c: Completion)
    requires c.result.NoBufferSpace?
    ensures Delivered(log + [c]) == Delivered(log)
    ensures EndSeen(log + [c]) ==> EndSeen(log)
    ensures EndIsFinal(log) ==> EndIsFinal(log + [c])
    ensures SaneLog(log) ==> SaneLog(log + [c])
  {
    DeliveredSnoc(log, c);
    EndSeenSnoc(log, c);
  }

  lemma ReadKeepsInv(p: Pair, req: ReadReq, id: u32, leftOpens: bool)
    requires Inv(p, id, leftOpens)
    ensures Inv(LocalLeft(p, Read(req)), id, leftOpens)
  {
    hide Core;
    var v, p' := p.l, LocalLeft(p, Read(req));
    if !v.present || v.s.localClosed {
      assert p' == p;
    } else if |v.s.pendingReads| < MAX_PENDING {
      assert v.log + [] == v.log;
      ReadsMatterNot(p, v.s.pendingReads + [req], [], id, leftOpens);
      var p1 := p.(l := v.(s := v.s.(pendingReads := v.s.pendingReads + [req])));
      RunReadLoop(p1, id, leftOpens);
      assert p' == AfterReadLoop(p1);
    } else {
      var c := Completion(req, NoBufferSpace);
      RefusalSaysNothing(v.log, c);
      ReadsMatterNot(p, v.s.pendingReads, [c], id, leftOpens);
      assert p' == p.(l := v.(s := v.s.(pendingReads := v.s.pendingReads), log := v.log + [c]));
    }
  }

  lemma CloseKeepsInv(p: Pair, id: u32, leftOpens: bool)
    requires Inv(p, id, leftOpens)
    ensures Inv(LocalLeft(p, Close), id, leftOpens)
  {
    hide Flow, SynFlow;
    var v, p' := p.l, LocalLeft(p, Close);
    if !v.present || v.s.localClosed {
      assert v.present ==> Apply(v, MuxStreamSpec.Close(v.s)) == v;
      assert p' == p;
    } else {
      var e := MuxStreamSpec.Close(v.s);
      CloseAsReceiver(p.r, v, p.rl, p.lr);
      CloseAsSender(v, p.r, p.lr, p.rl);
      Extend(p, Apply(v, e), e.frames, id, leftOpens);
      assert p' == p.(l := Apply(v, e), lr := p.lr + e.frames);
    }
  }

  lemma PopKeepsCore(p: Pair, id: u32, leftOpens: bool)
    requires Core(p, id, leftOpens) && p.l.inbox != []
    ensures Core(p.(l := Popped(p.l)), id, leftOpens) && p.l.present
  {
    hide Flow;
    PopAsReceiver(p.r, p.l, p.rl, p.lr);
    PopAsSender(p.l, p.r, p.lr, p.rl);
  }

  /** Once the peer's close has been handled only closes can follow. */
  lemma OnlyClosesFollow(p: Pair, id: u32, leftOpens: bool)
    requires Core(p, id, leftOpens) && p.l.inbox != [] && p.l.s.remoteClosed
    ensures p.l.inbox[0] == CloseTask
  {
  }

  lemma NoReadsOnceClosed(p: Pair, id: u32, leftOpens: bool)
    requires Core(p, id, leftOpens)
    ensures p.l.s.localClosed ==> p.l.s.pendingReads == []
  {
  }

  lemma RunUpdate(p: Pair, id: u32, leftOpens: bool)
    requires Inv(p, id, leftOpens) && p.l.inbox != [] && p.l.inbox[0].UpdateTask?
    ensures Inv(LocalLeft(p, RunTask), id, leftOpens)
  {
    hide Core;
    PopKeepsCore(p, id, leftOpens);
    var p1 := p.(l := Popped(p.l));
    RunWriteLoop(p1, id, leftOpens);
    assert LocalLeft(p, RunTask) == AfterWriteLoop(p1);
  }

  lemma RunDataOrClose(p: Pair, id: u32, leftOpens: bool)
    requires Inv(p, id, leftOpens) && p.l.inbox != [] && !p.l.inbox[0].UpdateTask?
    ensures Inv(LocalLeft(p, RunTask), id, leftOpens)
  {
    hide Core;
    PopKeepsCore(p, id, leftOpens);
    var p1 := p.(l := Popped(p.l));
    if p.l.s.remoteClosed {
      OnlyClosesFollow(p, id, leftOpens);
    }
    NoReadsOnceClosed(p, id, leftOpens);
    RunReadLoop(p1, id, leftOpens);
    assert LocalLeft(p, RunTask) == AfterReadLoop(p1);
  }

  lemma RunKeepsInv(p: Pair, id: u32, leftOpens: bool)
    requires Inv(p, id, leftOpens)
    ensures Inv(LocalLeft(p, RunTask), id, leftOpens)
  {
    hide Core, Settled;
    if p.l.inbox == [] {
      assert LocalLeft(p, RunTask) == p;
    } else if p.l.inbox[0].UpdateTask? {
      RunUpdate(p, id, leftOpens);
    } else {
      RunDataOrClose(p, id, leftOpens);
    }
  }

  // ---------- opening and stopping ----------

  lemma OpenFlows(p: Pair, id: u32)
    requires Inv(p, id, true) && !p.l.present
    ensures var q := LocalLeft(p, Open); Flow(q.l, q.r, q.lr, q.rl) && Flow(q.r, q.l, q.rl, q.lr)
  {
    assert p.lr + [Syn(id)] == [Syn(id)];
    BodiesSnoc([], Syn(id));
    assert Bodies([]) + [] == [];
  }

  lemma OpenRest(p: Pair, id: u32)
    requires Inv(p, id, true) && !p.l.present
    ensures var q := LocalLeft(p, Open);
            && ViewOk(q.l, id) && Settled(q.l)
            && ForStream(q.lr, id) && q.r == p.r && q.rl == p.rl
            && Opening(q, true)
  {
    hide Flow;
    assert p.lr + [Syn(id)] == [Syn(id)];
    assert IsSyn(Syn(id));
  }

  lemma OpenKeepsInv(p: Pair, id: u32)
    requires Inv(p, id, true)
    ensures Inv(LocalLeft(p, Open), id, true)
  {
    if p.l.present {
      assert LocalLeft(p, Open) == p;
    } else {
      OpenFlows(p, id);
      OpenRest(p, id);
      hide Flow, ViewOk, Settled, ForStream, Opening, Local;
    }
  }

  lemma StopAsReceiver(snd: View, v: View, fwd: seq<Frame>, back: seq<Frame>)
    requires Flow(snd, v, fwd, back)
    ensures Flow(snd, Local(v, Stop).v, fwd, back)
  {
    TaskDataAppend(v.inbox, [CloseTask]);
    TaskCreditsAppend(v.inbox, [CloseTask]);
    assert TaskData([CloseTask]) == [] + TaskData([]);
    assert TaskData(v.inbox) + [] == TaskData(v.inbox);
  }

  lemma StopAsSender(v: View, rcv: View, fwd: seq<Frame>, back: seq<Frame>)
    requires Flow(v, rcv, fwd, back)
    ensures Flow(Local(v, Stop).v, rcv, fwd, back)
  {
    TaskCreditsAppend(v.inbox, [CloseTask]);
    assert TaskCredits([CloseTask]) == 0 + TaskCredits([]);
    SameSenderFlow(v, Local(v, Stop).v, rcv, fwd, back);
  }

  lemma StopKeepsInv(p: Pair, id: u32, leftOpens: bool)
    requires Inv(p, id, leftOpens)
    ensures Inv(LocalLeft(p, Stop), id, leftOpens)
  {
    hide Flow;
    StopAsReceiver(p.r, p.l, p.rl, p.lr);
    StopAsSender(p.l, p.r, p.lr, p.rl);
    assert p.lr + [] == p.lr;
  }

  // ---------- receiving a frame ----------

  /** A frame that is not the SYN always meets a stream that is in the table. */
  lemma FrameMeetsStream(p: Pair, id: u32, leftOpens: bool)
    requires Inv(p, id, leftOpens) && !p.l.stopped && p.rl != [] && !IsSyn(p.rl[0])
    ensures p.l.present && p.l.inTable
    ensures !p.l.s.remoteClosed && !HasClose(p.l.inbox)
  {
  }

  lemma SynMeetsNobody(p: Pair, id: u32, leftOpens: bool)
    requires Inv(p, id, leftOpens) && p.rl != [] && IsSyn(p.rl[0])
    ensures !leftOpens && !p.l.present && NoSyn(p.rl[1..]) && p.lr == []
  {
  }

  /** What a frame other than SYN posts to the strand of its stream. */
  function Posts(f: Frame): seq<Task> {
    if IsPayload(f) then [DataTask(f.body)]
    else if IsFin(f) then [CloseTask]
    else if IsUpdate(f) then [UpdateTask(f.h.length)]
    else []
  }

  lemma PostsCarry(f: Frame)
    requires Conforming(f) && !IsPing(f) && !IsSyn(f)
    ensures TaskData(Posts(f)) == f.body && TaskCredits(Posts(f)) == Credit(f)
  {
    if Posts(f) != [] {
      assert TaskData(Posts(f)) == DataOf(Posts(f)[0]) + TaskData([]);
      assert TaskCredits(Posts(f)) == TaskCredit(Posts(f)[0]) + TaskCredits([]);
    }
  }

  lemma PostsAdd(inbox: seq<Task>, f: Frame)
    requires Conforming(f) && !IsPing(f) && !IsSyn(f)
    ensures TaskData(inbox + Posts(f)) == TaskData(inbox) + f.body
    ensures TaskCredits(inbox + Posts(f)) == TaskCredits(inbox) + Credit(f)
  {
    hide Posts, TaskData, TaskCredits, Conforming;
    PostsCarry(f);
    TaskDataAppend(inbox, Posts(f));
    TaskCreditsAppend(inbox, Posts(f));
  }

  lemma HandlePosts(v: View, f: Frame)
    requires Conforming(f) && !IsPing(f) && !IsSyn(f) && v.inTable
    ensures Handle(v, f) == Move(v.(inbox := v.inbox + Posts(f)), [])
    ensures TaskData(v.inbox + Posts(f)) == TaskData(v.inbox) + f.body
    ensures TaskCredits(v.inbox + Posts(f)) == TaskCredits(v.inbox) + Credit(f)
  {
    hide TaskData, TaskCredits;
    PostsAdd(v.inbox, f);
    assert v.inbox + [] == v.inbox;
    assert v.inbox + [] + Posts(f) == v.inbox + Posts(f);
  }

  lemma ReceiveCloseFlow(snd: View, v: View, fwd: seq<Frame>)
    requires CloseFlow(snd, v, fwd) && fwd != []
    requires !v.stopped && !v.s.remoteClosed && !HasClose(v.inbox)
    ensures CloseFlow(snd, v.(inbox := v.inbox + Posts(fwd[0])), fwd[1..])
  {
    var v' := v.(inbox := v.inbox + Posts(fwd[0]));
    if IsFin(fwd[0]) {
      assert v'.inbox[|v.inbox|] == CloseTask;
      assert |fwd| == 1;
    }
  }

  lemma ReceiveAsReceiver(snd: View, v: View, fwd: seq<Frame>, back: seq<Frame>, id: u32)
    requires Flow(snd, v, fwd, back) && ForStream(fwd, id) && fwd != [] && !IsSyn(fwd[0])
    requires !v.stopped && v.inTable && !v.s.remoteClosed && !HasClose(v.inbox)
    ensures Flow(snd, Handle(v, fwd[0]).v, fwd[1..], back)
  {
    HandlePosts(v, fwd[0]);
    ReceiveCloseFlow(snd, v, fwd);
    hide CloseFlow;
    Assoc(TaskData(v.inbox), fwd[0].body, Bodies(fwd[1..]));
  }

  lemma ReceiveAsSender(v: View, rcv: View, fwd: seq<Frame>, back: seq<Frame>, id: u32)
    requires Flow(v, rcv, fwd, back) && ForStream(back, id) && back != [] && !IsSyn(back[0])
    requires v.inTable
    ensures Flow(Handle(v, back[0]).v, rcv, fwd, back[1..])
  {
    HandlePosts(v, back[0]);
  }

  /** The view of a side that has just handled the SYN. */
  function Created(id: u32): View {
    Absent(id, false).(present := true, inTable := true)
  }

  lemma SynCloseFlow(snd: View, fwd: seq<Frame>, id: u32)
    requires CloseFlow(snd, Absent(id, false), fwd) && fwd != [] && IsSyn(fwd[0])
    ensures CloseFlow(snd, Created(id), fwd[1..])
  {
    if snd.s.localClosed {
      assert !IsFin(fwd[0]);
      assert |fwd| > 1 && fwd[1..][..|fwd| - 2] == fwd[..|fwd| - 1][1..];
    }
  }

  lemma SynAsReceiver(snd: View, fwd: seq<Frame>, id: u32)
    requires Flow(snd, Absent(id, false), fwd, []) && fwd != [] && IsSyn(fwd[0])
    ensures Flow(snd, Created(id), fwd[1..], [Ack(id)])
  {
    SynCloseFlow(snd, fwd, id);
    hide CloseFlow;
    BodiesSnoc([], Ack(id));
    assert [] + [Ack(id)] == [Ack(id)];
    assert Bodies(fwd) == [] + Bodies(fwd[1..]) == Bodies(fwd[1..]);
  }

  lemma SynAsSender(rcv: View, back: seq<Frame>, id: u32)
    requires Flow(Absent(id, false), rcv, [], back) && back != [] && IsSyn(back[0])
    ensures Flow(Created(id), rcv, [Ack(id)], back[1..])
  {
    BodiesSnoc([], Ack(id));
    assert Bodies([]) + [] == Bodies([]);
    assert [] + [Ack(id)] == [Ack(id)];
    assert !IsFin(Ack(id));
  }

  lemma ReceiveSynKeepsInv(p: Pair, id: u32, leftOpens: bool)
    requires Inv(p, id, leftOpens) && !p.l.stopped && p.rl != [] && IsSyn(p.rl[0])
    ensures Inv(ReceiveLeft(p), id, leftOpens)
  {
    hide Flow;
    SynMeetsNobody(p, id, leftOpens);
    SynAsReceiver(p.r, p.rl, id);
    SynAsSender(p.r, p.rl, id);
    assert ReceiveLeft(p) == p.(l := Created(id), rl := p.rl[1..], lr := [Ack(id)]);
    assert !IsSyn(Ack(id));
  }

  lemma ReceiveFlows(p: Pair, id: u32, leftOpens: bool)
    requires Inv(p, id, leftOpens) && !p.l.stopped && p.rl != [] && !IsSyn(p.rl[0])
    ensures var q := p.(l := p.l.(inbox := p.l.inbox + Posts(p.rl[0])), rl := p.rl[1..]);
            ReceiveLeft(p) == q && Flow(q.l, q.r, q.lr, q.rl) && Flow(q.r, q.l, q.rl, q.lr)
  {
    FrameMeetsStream(p, id, leftOpens);
    hide Flow, SynFlow, Settled, ViewOk;
    HandlePosts(p.l, p.rl[0]);
    ReceiveAsReceiver(p.r, p.l, p.rl, p.lr, id);
    ReceiveAsSender(p.l, p.r, p.lr, p.rl, id);
    assert p.lr + [] == p.lr;
    hide Handle;
  }

  lemma ReceiveRest(p: Pair, id: u32, leftOpens: bool, inbox: seq<Task>)
    requires Inv(p, id, leftOpens) && p.rl != [] && !IsSyn(p.rl[0]) && p.l.present
    ensures var q := p.(l := p.l.(inbox := inbox), rl := p.rl[1..]);
            && ViewOk(q.l, id) && Settled(q.l)
            && ForStream(q.rl, id)
            && Opening(q, leftOpens)
  {
    hide Flow;
  }

  lemma ReceiveKeepsInv(p: Pair, id: u32, leftOpens: bool)
    requires Inv(p, id, leftOpens)
    ensures Inv(ReceiveLeft(p), id, leftOpens)
  {
    if !p.l.stopped && p.rl != [] {
      if IsSyn(p.rl[0]) {
        ReceiveSynKeepsInv(p, id, leftOpens);
      } else {
        FrameMeetsStream(p, id, leftOpens);
        ReceiveFlows(p, id, leftOpens);
        ReceiveRest(p, id, leftOpens, p.l.inbox + Posts(p.rl[0]));
        hide Flow, ViewOk, Settled, ForStream, Opening, Handle, Posts;
      }
    }
  }


  /** Every local step keeps the invariant. */
  lemma LocalKeepsInv(p: Pair, a: Action, id: u32, leftOpens: bool)
    requires Inv(p, id, leftOpens) && (a.Open? ==> leftOpens)
    ensures Inv(LocalLeft(p, a), id, leftOpens)
  {
    hide Inv;
    match a
    case Open => OpenKeepsInv(p, id);
    case Write(data) => WriteKeepsInv(p, data, id, leftOpens);
    case Read(req) => ReadKeepsInv(p, req, id, leftOpens);
    case Close => CloseKeepsInv(p, id, leftOpens);
    case RunTask => RunKeepsInv(p, id, leftOpens);
    case Stop => StopKeepsInv(p, id, leftOpens);
  }

  lemma InitialPair(id: u32, leftOpens: bool)
    ensures Inv(Pair(Absent(id, false), Absent(id, false), [], []), id, leftOpens)
  {
  }
}
