/** What sessions answer: a reply to each ping request and an ACK to each new stream, over whole runs; and what one
    received frame does, type by type. */
module MuxReplies {
  import opened Bytes
  import opened MuxFrame
  import opened MuxStreamSpec
  import opened MuxPair
  import opened MuxLoops
  import opened MuxPairProofs
  import opened MuxNet
  import opened MuxNetInv
  import opened MuxTheorems
  import Session = MuxSessionSpec

  // ---------- one received frame ----------

  /** A ping with an odd flag word is answered by one ping whose flag word is 2; any other ping by nothing. Nothing else
      happens. */
  lemma PingReply(st: Session.Session, f: Frame)
    requires f.h.kind == 2
    ensures var o := Session.HandleFrame(st, f);
            && o.st == st && o.created == {} && o.posts == map[]
            && (f.h.flags % 2 == 1 ==> o.out == [Frame(Header(0, 2, 2, 0, 0), [])])
            && (f.h.flags % 2 == 0 ==> o.out == [])
  {
  }

  /** A data frame for an unknown stream creates the stream if its flag word is odd, and is then acknowledged under its
      id; otherwise it has no effect. One for a known stream is never acknowledged. Its bytes, and after them the end if
      bit 2 is set, go to the stream alone. */
  lemma DataReply(st: Session.Session, f: Frame)
    requires f.h.kind == 0
    ensures var o, id := Session.HandleFrame(st, f), f.h.streamId;
            if id in st.table || f.h.flags % 2 == 1 then
              && o.st == st.(table := st.table + {id}) && o.created == {id} - st.table
              && o.out == (if id in st.table then [] else [Frame(Header(0, 0, 2, id, 0), [])])
              && o.posts.Keys == {id} && TaskData(o.posts[id]) == f.body && TaskCredits(o.posts[id]) == 0
              && (HasClose(o.posts[id]) <==> f.h.flags / 4 % 2 == 1) && CloseLast(o.posts[id])
            else
              o.st == st && o.created == {} && o.out == [] && o.posts == map[]
  {
    var data := if f.body != [] then [DataTask(f.body)] else [];
    var fin := if Has(f.h.flags, FIN) then [CloseTask] else [];
    TaskDataAppend(data, fin);
    TaskCreditsAppend(data, fin);
    assert Session.FrameTasks(f) == data + fin;
    assert TaskData(data) == f.body + [] && TaskData(fin) == [] && TaskCredits(data) == 0 && TaskCredits(fin) == 0;
    if Has(f.h.flags, FIN) {
      assert (data + fin)[|data|].CloseTask?;
    }
  }

  /** A frame of type 3, or of an unknown type, stops the session: every stream of the table is told of the end, once,
      and the table is emptied. */
  lemma OtherFramesStop(st: Session.Session, f: Frame)
    requires f.h.kind > 2 && !st.stopped
    ensures var o := Session.HandleFrame(st, f);
            && o.st.stopped && o.st.table == {} && o.out == [] && o.created == {}
            && o.posts.Keys == st.table && forall id :: id in st.table ==> o.posts[id] == [CloseTask]
  {
  }

  // ---------- frames of one kind ----------

  /** The stream ids of the frames with the given type and flag word, in order. */
  function Ids(fs: seq<Frame>, kind: byte, flags: u16): seq<u32> {
    if fs == [] then []
    else (if fs[0].h.kind == kind && fs[0].h.flags == flags then [fs[0].h.streamId] else []) + Ids(fs[1..], kind, flags)
  }

  lemma {:induction false} IdsAppend(a: seq<Frame>, b: seq<Frame>, kind: byte, flags: u16)
    ensures Ids(a + b, kind, flags) == Ids(a, kind, flags) + Ids(b, kind, flags)
    decreases |a|
  {
    if a == [] {
      assert a + b == b;
    } else {
      IdsAppend(a[1..], b, kind, flags);
      assert (a + b)[1..] == a[1..] + b;
      Assoc(if a[0].h.kind == kind && a[0].h.flags == flags then [a[0].h.streamId] else [],
            Ids(a[1..], kind, flags), Ids(b, kind, flags));
    }
  }

  lemma OneId(f: Frame, kind: byte, flags: u16)
    ensures Ids([f], kind, flags) == if f.h.kind == kind && f.h.flags == flags then [f.h.streamId] else []
  {
    assert [f][1..] == [];
  }

  /** Frames that neither ask for an answer nor are one. */
  predicate Quiet(fs: seq<Frame>) {
    forall i :: 0 <= i < |fs| ==> fs[i].h.kind < PING && (fs[i].h.kind == DATA ==> fs[i].h.flags in {0, FIN})
  }

  lemma {:induction false} QuietIds(fs: seq<Frame>, flags: u16)
    requires Quiet(fs) && flags in {SYN, ACK}
    ensures Ids(fs, PING, flags) == [] && Ids(fs, DATA, flags) == []
    decreases |fs|
  {
    if fs != [] {
      assert forall i :: 0 <= i < |fs| - 1 ==> fs[1..][i] == fs[i + 1];
      QuietIds(fs[1..], flags);
    }
  }

  lemma {:induction false} ReadLoopQuiet(e: Effect)
    requires Quiet(e.frames)
    ensures Quiet(ReadLoop(e).frames)
    decreases |e.s.pendingReads|
  {
    if e.s.pendingReads != [] && !MustWait(e.s) {
      ReadLoopQuiet(TakeOne(e));
    }
  }

  lemma LoopsQuiet(s: Stream)
    ensures Quiet(DoRead(s).frames) && Quiet(DoWrite(s).frames)
  {
    ReadLoopQuiet(Effect(s, [], [], false));
    DoWriteFacts(s);
  }

  /** A stream by itself sends nothing but payload, window updates and FIN. */
  lemma StreamQuiet(v: View, a: Action)
    requires !a.Open?
    ensures Quiet(Local(v, a).out)
  {
    hide DoRead, DoWrite;
    match a
    case Write(data) => LoopsQuiet(v.s.(pendingWrites := v.s.pendingWrites + [data]));
    case Read(req) => LoopsQuiet(v.s.(pendingReads := v.s.pendingReads + [req]));
    case RunTask =>
      if v.inbox != [] {
        LoopsQuiet(Popped(v).s);
      }
    case _ =>
  }

  // ---------- one step of the left session ----------

  /** The frames a step of the left side takes off its link. */
  function Taken(n: Net, act: SideAction): seq<Frame> {
    if act.Receive? && !n.a.session.stopped && n.ba != [] then [n.ba[0]] else []
  }

  /** The frames it sends: those by which its outgoing link grows. */
  function Sends(n: Net, act: SideAction): seq<Frame> {
    var ab := StepLeft(n, act).ab;
    if |ab| < |n.ab| then [] else ab[|n.ab|..]
  }

  lemma LinksMove(n: Net, act: SideAction)
    ensures StepLeft(n, act).ab == n.ab + Sends(n, act)
    ensures Taken(n, act) + StepLeft(n, act).ba == n.ba
  {
    hide Local, Session.HandleFrame, ApplyOutcome, Put;
    assert [] + n.ba == n.ba;
  }

  /** Exactly the answers owed, and exactly the requests asked for. */
  predicate Replies(n: Net, act: SideAction, taken: seq<Frame>, sends: seq<Frame>) {
    && |Ids(sends, PING, ACK)| == |Ids(taken, PING, SYN)|
    && Ids(sends, DATA, ACK) == Ids(taken, DATA, SYN)
    && |Ids(sends, PING, SYN)| == (if act.SendPing? then 1 else 0)
    && Ids(sends, DATA, SYN) == (if act.OpenStream? && n.a.opens < MAX_OPENS then [n.a.session.next] else [])
  }

  lemma QuietReplies(n: Net, act: SideAction, sends: seq<Frame>)
    requires Quiet(sends) && (act.OnStream? || act.StopSession?)
    ensures Replies(n, act, [], sends)
  {
    QuietIds(sends, SYN);
    QuietIds(sends, ACK);
  }

  lemma OneReply(n: Net, act: SideAction, f: Frame)
    requires (act == SendPing && f == Ping(SYN)) || (act == OpenStream && n.a.opens < MAX_OPENS && f == Syn(n.a.session.next))
    ensures Replies(n, act, [], [f])
  {
    OneId(f, PING, SYN);
    OneId(f, PING, ACK);
    OneId(f, DATA, SYN);
    OneId(f, DATA, ACK);
  }

  /** What a received frame is answered with, when a SYN always creates its stream. */
  lemma AnswerReplies(n: Net, f: Frame, out: seq<Frame>)
    requires Conforming(f)
    requires out == if IsPing(f) && f.h.flags == SYN then [Ping(ACK)] else if IsSyn(f) then [Ack(f.h.streamId)] else []
    ensures Replies(n, Receive, [f], out)
  {
    OneId(f, PING, SYN);
    OneId(f, DATA, SYN);
    OneId(Ping(ACK), PING, SYN);
    OneId(Ping(ACK), PING, ACK);
    OneId(Ping(ACK), DATA, SYN);
    OneId(Ping(ACK), DATA, ACK);
    OneId(Ack(f.h.streamId), PING, SYN);
    OneId(Ack(f.h.streamId), PING, ACK);
    OneId(Ack(f.h.streamId), DATA, SYN);
    OneId(Ack(f.h.streamId), DATA, ACK);
  }

  lemma HandleAnswers(st: Session.Session, f: Frame)
    requires Conforming(f) && (IsSyn(f) ==> f.h.streamId !in st.table)
    ensures Session.HandleFrame(st, f).out
            == if IsPing(f) && f.h.flags == SYN then [Ping(ACK)] else if IsSyn(f) then [Ack(f.h.streamId)] else []
  {
  }

  lemma SynIsNew(n: Net)
    requires NetInv(n) && n.ba != [] && IsSyn(n.ba[0])
    ensures n.ba[0].h.streamId !in n.a.session.table
  {
    var id := n.ba[0].h.streamId;
    assert Inv(Project(n, id), id, OpenedBy(n.a.isServer, id));
    assert Project(n, id).rl[0] == n.ba[0];
    hide Inv;
    SynMeetsNobody(Project(n, id), id, OpenedBy(n.a.isServer, id));
    TableHasObjects(n);
  }

  lemma ReceiveReplies(n: Net)
    requires NetInv(n) && !n.a.session.stopped && n.ba != []
    ensures Replies(n, Receive, Taken(n, Receive), Sends(n, Receive))
  {
    hide Inv, IdsOk, Replies, Session.HandleFrame, ApplyOutcome, IsSyn, IsPing, Has;
    var f := n.ba[0];
    assert AllConforming(n.ba) && Conforming(f);
    hide Conforming;
    if IsSyn(f) {
      SynIsNew(n);
    }
    hide NetInv;
    HandleAnswers(n.a.session, f);
    AnswerReplies(n, f, Session.HandleFrame(n.a.session, f).out);
    LinksMove(n, Receive);
    assert Sends(n, Receive) == Session.HandleFrame(n.a.session, f).out;
  }

  lemma StepReplies(n: Net, act: SideAction)
    requires NetInv(n)
    ensures Replies(n, act, Taken(n, act), Sends(n, act))
  {
    hide NetInv, Replies, Local, Session.HandleFrame, ApplyOutcome, Put;
    match act
    case OpenStream =>
      if n.a.opens < MAX_OPENS {
        OneReply(n, act, Syn(n.a.session.next));
      } else {
        NoneReplied(n);
      }
    case OnStream(id, a) =>
      if id in n.a.objects && !a.Open? && !a.Stop? {
        StreamQuiet(ViewOf(n.a, id), a);
      }
      QuietReplies(n, act, Sends(n, act));
    case StopSession => QuietReplies(n, act, Sends(n, act));
    case SendPing => OneReply(n, act, Ping(SYN));
    case Receive =>
      if !n.a.session.stopped && n.ba != [] {
        ReceiveReplies(n);
      } else {
        NothingReceived(n);
      }
  }

  lemma NoneReplied(n: Net)
    requires n.a.opens >= MAX_OPENS
    ensures Replies(n, OpenStream, [], [])
  {
  }

  lemma NothingReceived(n: Net)
    ensures Replies(n, Receive, [], [])
  {
  }

  // ---------- runs ----------

  /** The net as one of its sides sees it. */
  function Facing(n: Net, left: bool): Net {
    if left then n else Swap(n)
  }

  /** All frames a side has sent in a run. */
  function Sent(steps: seq<Step>, left: bool): seq<Frame> {
    if steps == [] then []
    else
      var init, last := steps[..|steps| - 1], steps[|steps| - 1];
      Sent(init, left) + if last.left == left then Sends(Facing(Run(init), left), last.act) else []
  }

  /** All frames it has received while it was running. */
  function Received(steps: seq<Step>, left: bool): seq<Frame> {
    if steps == [] then []
    else
      var init, last := steps[..|steps| - 1], steps[|steps| - 1];
      Received(init, left) + if last.left == left then Taken(Facing(Run(init), left), last.act) else []
  }

  /** How often a side has sent a heartbeat. */
  function Heartbeats(steps: seq<Step>, left: bool): nat {
    if steps == [] then 0
    else
      var init, last := steps[..|steps| - 1], steps[|steps| - 1];
      Heartbeats(init, left) + if last == Step(left, SendPing) then 1 else 0
  }

  /** A step lengthens the acting side's outgoing link and shortens its incoming one. */
  lemma LinkAfter(n: Net, step: Step, left: bool)
    ensures var v, w := Facing(n, left), Facing(Next(n, step), left);
            if step.left == left then w.ab == v.ab + Sends(v, step.act)
            else Taken(Facing(n, step.left), step.act) + w.ab == v.ab
  {
    hide Sends, Taken, StepLeft;
    LinksMove(Facing(n, step.left), step.act);
  }

  /** What was sent has been received or is still on the link, in order. */
  lemma {:induction false} SentArrives(steps: seq<Step>, left: bool)
    ensures Sent(steps, left) == Received(steps, !left) + MuxTheorems.Link(steps, left)
  {
    hide Sends, Taken, Next;
    if steps != [] {
      var init, last := steps[..|steps| - 1], steps[|steps| - 1];
      SentArrives(init, left);
      LinkAfter(Run(init), last, left);
      var n, link := Facing(Run(init), last.left), MuxTheorems.Link(init, left);
      if last.left == left {
        assert MuxTheorems.Link(steps, left) == link + Sends(n, last.act);
        assert Received(steps, !left) == Received(init, !left);
        Assoc(Received(init, !left), link, Sends(n, last.act));
      } else {
        assert Taken(n, last.act) + MuxTheorems.Link(steps, left) == link;
        Assoc(Received(init, !left), Taken(n, last.act), MuxTheorems.Link(steps, left));
      }
    }
  }

  /** The replies of a side to pings are as many as the ping requests it has received, and it has acknowledged, in order,
      exactly the streams whose SYN it has received. Its own requests are its heartbeats and the streams it opened. */
  predicate Answered(steps: seq<Step>, left: bool) {
    && |Ids(Sent(steps, left), PING, ACK)| == |Ids(Received(steps, left), PING, SYN)|
    && Ids(Sent(steps, left), DATA, ACK) == Ids(Received(steps, left), DATA, SYN)
    && |Ids(Sent(steps, left), PING, SYN)| == Heartbeats(steps, left)
    && |Ids(Sent(steps, left), DATA, SYN)| == Facing(Run(steps), left).a.opens
  }

  lemma MoreIds(a: seq<Frame>, b: seq<Frame>)
    ensures Ids(a + b, PING, SYN) == Ids(a, PING, SYN) + Ids(b, PING, SYN)
    ensures Ids(a + b, PING, ACK) == Ids(a, PING, ACK) + Ids(b, PING, ACK)
    ensures Ids(a + b, DATA, SYN) == Ids(a, DATA, SYN) + Ids(b, DATA, SYN)
    ensures Ids(a + b, DATA, ACK) == Ids(a, DATA, ACK) + Ids(b, DATA, ACK)
  {
    IdsAppend(a, b, PING, SYN);
    IdsAppend(a, b, PING, ACK);
    IdsAppend(a, b, DATA, SYN);
    IdsAppend(a, b, DATA, ACK);
  }

  lemma OpensCounted(n: Net, act: SideAction)
    ensures StepLeft(n, act).a.opens == n.a.opens + if act.OpenStream? && n.a.opens < MAX_OPENS then 1 else 0
    ensures StepLeft(n, act).b == n.b
  {
    hide Local, Session.HandleFrame;
  }

  lemma {:induction false} EveryRunAnswered(steps: seq<Step>, left: bool)
    ensures Answered(steps, left)
  {
    hide Sends, Taken, StepLeft, NetInv, Ids;
    if steps == [] {
      NothingYet(left);
    } else {
      var init, last := steps[..|steps| - 1], steps[|steps| - 1];
      EveryRunAnswered(init, left);
      var n := Facing(Run(init), last.left);
      OpensCounted(n, last.act);
      if last.left == left {
        EveryRunKeepsInv(init);
        SwapInv(Run(init));
        StepReplies(n, last.act);
        MoreIds(Sent(init, left), Sends(n, last.act));
        MoreIds(Received(init, left), Taken(n, last.act));
      } else {
        assert Sent(init, left) + [] == Sent(init, left) && Received(init, left) + [] == Received(init, left);
      }
    }
  }

  lemma NothingYet(left: bool)
    ensures Answered([], left)
  {
  }

  /** Every heartbeat is still on the link or has been received; every one received has been answered; and every answer
      is on its way back or has been received. */
  lemma PingsAnswered(steps: seq<Step>, left: bool)
    ensures Heartbeats(steps, left)
            == |Ids(MuxTheorems.Link(steps, left), PING, SYN)| + |Ids(Sent(steps, !left), PING, ACK)|
    ensures |Ids(Sent(steps, !left), PING, ACK)|
            == |Ids(Received(steps, left), PING, ACK)| + |Ids(MuxTheorems.Link(steps, !left), PING, ACK)|
  {
    EveryRunAnswered(steps, left);
    EveryRunAnswered(steps, !left);
    SentArrives(steps, left);
    SentArrives(steps, !left);
    MoreIds(Received(steps, !left), MuxTheorems.Link(steps, left));
    MoreIds(Received(steps, left), MuxTheorems.Link(steps, !left));
  }

  /** The same for streams, by id and in order: opened by one side, they have been acknowledged by the other or their SYN
      is still on the link. */
  lemma OpensAcknowledged(steps: seq<Step>, left: bool)
    ensures Ids(Sent(steps, left), DATA, SYN)
            == Ids(Sent(steps, !left), DATA, ACK) + Ids(MuxTheorems.Link(steps, left), DATA, SYN)
    ensures |Ids(Sent(steps, left), DATA, SYN)| == Facing(Run(steps), left).a.opens
    ensures Ids(Received(steps, left), DATA, ACK) <= Ids(Sent(steps, !left), DATA, ACK)
  {
    EveryRunAnswered(steps, left);
    EveryRunAnswered(steps, !left);
    SentArrives(steps, left);
    SentArrives(steps, !left);
    MoreIds(Received(steps, !left), MuxTheorems.Link(steps, left));
    MoreIds(Received(steps, left), MuxTheorems.Link(steps, !left));
  }
}
