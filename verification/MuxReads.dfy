/** Every read is answered: which handlers `do_read_from_buffer` calls and with what, and, over whole runs, that the
    reads a user asked for are those whose handlers were called and then those still waiting, in order. */
module MuxReads {
  import opened Bytes
  import opened MuxFrame
  import opened MuxStreamSpec
  import opened MuxPair
  import opened MuxLoops
  import opened MuxPairProofs
  import opened MuxNet
  import opened MuxNetInv
  import opened MuxTheorems
  import Session = MuxSessionSpec

  /** The requests whose handlers were called, in order. */
  function Requests(log: seq<Completion>): (r: seq<ReadReq>)
    ensures |r| == |log| && forall j :: 0 <= j < |r| ==> r[j] == log[j].req
  {
    seq(|log|, j requires 0 <= j < |log| => log[j].req)
  }

  lemma RequestsAppend(a: seq<Completion>, b: seq<Completion>)
    ensures Requests(a + b) == Requests(a) + Requests(b)
  {
  }

  // ---------- one call of the read loop ----------

  /** What a handler gets when the bytes `rest` are left for it and its buffer holds `size`. */
  predicate Answers(result: ReadResult, rest: bytes, size: nat) {
    if rest == [] then result == Eof
    else result.Got? && result.data <= rest && |result.data| == if size < |rest| then size else |rest|
  }

  /** Each handler gets its answer from the bytes that the handlers before it have left of `all`. */
  predicate InTurn(all: bytes, log: seq<Completion>) {
    forall j :: 0 <= j < |log| ==>
      |Delivered(log[..j])| <= |all| && Answers(log[j].result, all[|Delivered(log[..j])|..], log[j].req.size)
  }

  /** No handler was called before it was due: none is told of the end, and none of `async_read` gets too little. */
  predicate NoneEarly(log: seq<Completion>) {
    forall j :: 0 <= j < |log| ==> log[j].result.Got? && (log[j].req.all ==> |log[j].result.data| == log[j].req.size)
  }

  /** What has become of the requests and bytes of `s` so far. */
  predicate Served(s: Stream, e: Effect) {
    && Requests(e.log) + e.s.pendingReads == s.pendingReads
    && Delivered(e.log) + e.s.unread == s.unread
    && InTurn(s.unread, e.log)
    && e.s.remoteClosed == s.remoteClosed
    && (!s.remoteClosed ==> NoneEarly(e.log))
  }

  lemma InTurnSnoc(all: bytes, log: seq<Completion>, c: Completion)
    requires InTurn(all, log) && |Delivered(log)| <= |all|
    requires Answers(c.result, all[|Delivered(log)|..], c.req.size)
    ensures InTurn(all, log + [c])
  {
    hide Answers;
    var log' := log + [c];
    forall j | 0 <= j < |log'|
      ensures |Delivered(log'[..j])| <= |all| && Answers(log'[j].result, all[|Delivered(log'[..j])|..], log'[j].req.size)
    {
      assert log'[..j] == log[..j];
      assert log[..|log|] == log;
    }
  }

  /** One turn calls the handler of the head request, with its answer. */
  lemma TurnAnswers(e: Effect) returns (c: Completion)
    requires e.s.pendingReads != [] && !MustWait(e.s)
    ensures var r := TakeOne(e);
            && r.log == e.log + [c] && r.s.remoteClosed == e.s.remoteClosed
            && e.s.pendingReads == [c.req] + r.s.pendingReads
            && e.s.unread == Result(c) + r.s.unread
            && Answers(c.result, e.s.unread, c.req.size)
            && (!e.s.remoteClosed ==> NoneEarly([c]))
  {
    var req := e.s.pendingReads[0];
    c := Completion(req, if e.s.unread == [] then Eof else Got(e.s.unread[..Min(req.size, |e.s.unread|)]));
  }

  lemma TakeOneServes(s: Stream, e: Effect)
    requires Served(s, e) && e.s.pendingReads != [] && !MustWait(e.s)
    ensures Served(s, TakeOne(e))
  {
    hide InTurn, NoneEarly, Answers, TakeOne, Result, MustWait;
    var r := TakeOne(e);
    var c := TurnAnswers(e);
    DeliveredAppend(e.log, [c]);
    OneDelivered(c);
    Assoc(Delivered(e.log), Result(c), r.s.unread);
    assert s.unread[|Delivered(e.log)|..] == e.s.unread;
    InTurnSnoc(s.unread, e.log, c);
    RequestsAppend(e.log, [c]);
    Assoc(Requests(e.log), [c.req], r.s.pendingReads);
    assert Requests([c]) == [c.req];
    if !s.remoteClosed {
      NoneEarlyAppend(e.log, [c]);
    }
  }

  lemma OneDelivered(c: Completion)
    ensures Delivered([c]) == Result(c)
  {
    assert Delivered([c]) == Result(c) + Delivered([]);
  }

  lemma NoneEarlyAppend(a: seq<Completion>, b: seq<Completion>)
    requires NoneEarly(a) && NoneEarly(b)
    ensures NoneEarly(a + b)
  {
  }

  lemma {:induction false} ReadLoopServes(s: Stream, e: Effect)
    requires Served(s, e)
    ensures Served(s, ReadLoop(e))
    ensures ReadLoop(e).s.pendingReads != [] ==> MustWait(ReadLoop(e).s)
    decreases |e.s.pendingReads|
  {
    hide Served;
    if e.s.pendingReads == [] || MustWait(e.s) {
      SameServed(s, e, e.(removed := CleanupDue(e.s)));
    } else {
      TakeOneServes(s, e);
      ReadLoopServes(s, TakeOne(e));
    }
  }

  lemma SameServed(s: Stream, e: Effect, r: Effect)
    requires Served(s, e) && r == e.(removed := r.removed)
    ensures Served(s, r)
  {
  }

  /** `do_read_from_buffer` answers the waiting reads from the first on and leaves the others in order. Each gets the
      next bytes that are left, as many as it has room for, or the end when none is left. None is answered too early,
      and at the end of the stream none is left waiting. */
  lemma DoReadAnswers(s: Stream)
    ensures var e := DoRead(s);
            && Requests(e.log) + e.s.pendingReads == s.pendingReads
            && InTurn(s.unread, e.log)
            && (s.remoteClosed ==> e.s.pendingReads == [])
            && (!s.remoteClosed ==> NoneEarly(e.log))
            && (e.s.pendingReads != [] ==>
                  e.s.unread == [] || (e.s.pendingReads[0].all && |e.s.unread| < e.s.pendingReads[0].size))
  {
    var e := Effect(s, [], [], false);
    assert Requests(e.log) + s.pendingReads == s.pendingReads && Delivered(e.log) + s.unread == s.unread;
    ReadLoopServes(s, e);
  }

  // ---------- one step of a stream ----------

  const MAX_WAITING: nat := 1024

  /** Handlers of reads that had been queued, or those of reads that were refused. */
  function Select(log: seq<Completion>, queued: bool): seq<Completion> {
    if log == [] then []
    else (if (log[0].result != NoBufferSpace) == queued then [log[0]] else []) + Select(log[1..], queued)
  }

  lemma {:induction false} SelectAppend(a: seq<Completion>, b: seq<Completion>, queued: bool)
    ensures Select(a + b, queued) == Select(a, queued) + Select(b, queued)
    decreases |a|
  {
    if a == [] {
      assert a + b == b;
    } else {
      SelectAppend(a[1..], b, queued);
      assert (a + b)[1..] == a[1..] + b;
      Assoc(if (a[0].result != NoBufferSpace) == queued then [a[0]] else [], Select(a[1..], queued), Select(b, queued));
    }
  }

  lemma {:induction false} SelectQueued(log: seq<Completion>)
    requires forall j :: 0 <= j < |log| ==> log[j].result != NoBufferSpace
    ensures Select(log, true) == log && Select(log, false) == []
    decreases |log|
  {
    if log != [] {
      SelectQueued(log[1..]);
    }
  }

  /** The reads that one step of a stream asks for: those that are queued, or those that are refused. */
  function AskedBy(v: View, a: Action, queued: bool): seq<ReadReq> {
    if a.Read? && v.present && !v.s.localClosed && (|v.s.pendingReads| < MAX_WAITING) == queued then [a.req] else []
  }

  /** `e` answers or keeps the waiting reads of `s` and those newly asked for, and refuses `refused`. */
  predicate Settles(s: Stream, e: Effect, asked: seq<ReadReq>, refused: seq<ReadReq>) {
    && Requests(Select(e.log, true)) + e.s.pendingReads == s.pendingReads + asked
    && Requests(Select(e.log, false)) == refused
  }

  lemma DoReadSettles(s: Stream, asked: seq<ReadReq>, s0: Stream)
    requires s.pendingReads == s0.pendingReads + asked
    ensures Settles(s0, DoRead(s), asked, [])
  {
    hide DoRead;
    DoReadAnswers(s);
    var log := DoRead(s).log;
    forall j | 0 <= j < |log| ensures log[j].result != NoBufferSpace {
      assert Answers(log[j].result, s.unread[|Delivered(log[..j])|..], log[j].req.size);
    }
    SelectQueued(log);
  }

  lemma DoWriteSettles(s: Stream, s0: Stream)
    requires s.pendingReads == s0.pendingReads
    ensures Settles(s0, DoWrite(s), [], [])
  {
    hide DoWrite;
    DoWriteFacts(s);
    assert DoWrite(s).log == [] by { WriteNoLog(s); }
    assert [] + s.pendingReads == s.pendingReads + [];
  }

  lemma WriteNoLog(s: Stream)
    ensures DoWrite(s).log == []
  {
  }

  lemma ReadSettles(s: Stream, req: ReadReq)
    ensures Settles(s, AsyncRead(s, req), if |s.pendingReads| < MAX_WAITING then [req] else [],
                    if |s.pendingReads| < MAX_WAITING then [] else [req])
  {
    if |s.pendingReads| < MAX_WAITING {
      DoReadSettles(s.(pendingReads := s.pendingReads + [req]), [req], s);
    } else {
      var c := Completion(req, NoBufferSpace);
      assert [c][1..] == [];
      assert Select([c], true) == [] && Select([c], false) == [c] + [];
      assert [] + s.pendingReads == s.pendingReads + [];
    }
  }

  lemma {:induction false} AbortsAnswer(requests: seq<ReadReq>)
    ensures Requests(Aborts(requests)) == requests
  {
    if requests != [] {
      AbortsAnswer(requests[1..]);
      RequestsAppend([Completion(requests[0], Aborted)], Aborts(requests[1..]));
      assert Requests([Completion(requests[0], Aborted)]) == [requests[0]];
    }
  }

  /** The first `close` tells every waiting read, in order, that it is aborted; it drops what is queued in either direction,
      sends one FIN, and has the stream removed exactly if the peer has closed. A second one does nothing. */
  lemma CloseFacts(s: Stream)
    ensures var e := MuxStreamSpec.Close(s);
            if s.localClosed then e == Effect(s, [], [], false)
            else
              && Requests(e.log) == s.pendingReads && (forall i :: 0 <= i < |e.log| ==> e.log[i].result == Aborted)
              && e.s == s.(localClosed := true, pendingReads := [], pendingWrites := [], unread := [])
              && e.frames == [Frame(Header(0, 0, 4, s.id, 0), [])]
              && (e.removed <==> s.remoteClosed)
  {
    AbortsAnswer(s.pendingReads);
    AbortsSayNothing(s.pendingReads);
  }

  lemma CloseSettles(s: Stream)
    ensures Settles(s, MuxStreamSpec.Close(s), [], [])
  {
    if s.localClosed {
      assert [] + s.pendingReads == s.pendingReads + [];
    } else {
      AbortsAnswer(s.pendingReads);
      AbortsSayNothing(s.pendingReads);
      SelectQueued(Aborts(s.pendingReads));
    }
  }

  lemma TaskSettles(s: Stream, t: Task)
    ensures Settles(s, TaskEffect(s, t), [], [])
  {
    hide Settles, DoRead, DoWrite;
    match t
    case DataTask(data) =>
      assert s.pendingReads == s.pendingReads + [];
      DoReadSettles(s.(unread := s.unread + data), [], s);
    case UpdateTask(delta) => DoWriteSettles(s.(window := Min(s.window + delta, MuxFrame.MAX_MESSAGE_SIZE)), s);
    case CloseTask =>
      assert s.pendingReads == s.pendingReads + [];
      DoReadSettles(s.(remoteClosed := true), [], s);
  }

  /** No request gets lost, doubled or overtaken between `v` and `w`. */
  predicate Accounts(v: View, w: View, asked: seq<ReadReq>, refused: seq<ReadReq>) {
    && Requests(Select(w.log, true)) + w.s.pendingReads == Requests(Select(v.log, true)) + v.s.pendingReads + asked
    && Requests(Select(w.log, false)) == Requests(Select(v.log, false)) + refused
  }

  lemma ApplyAccounts(v: View, e: Effect, asked: seq<ReadReq>, refused: seq<ReadReq>, w: View)
    requires Settles(v.s, e, asked, refused) && w.s == e.s && w.log == v.log + e.log
    ensures Accounts(v, w, asked, refused)
  {
    hide Select;
    SelectAppend(v.log, e.log, true);
    SelectAppend(v.log, e.log, false);
    RequestsAppend(Select(v.log, true), Select(e.log, true));
    RequestsAppend(Select(v.log, false), Select(e.log, false));
    Assoc(Requests(Select(v.log, true)), Requests(Select(e.log, true)), e.s.pendingReads);
    Assoc(Requests(Select(v.log, true)), v.s.pendingReads, asked);
  }

  lemma SameAccounts(v: View, w: View)
    requires w.log == v.log && w.s.pendingReads == v.s.pendingReads
    ensures Accounts(v, w, [], [])
  {
    assert Requests(Select(v.log, true)) + v.s.pendingReads + [] == Requests(Select(v.log, true)) + v.s.pendingReads;
    assert Requests(Select(v.log, false)) + [] == Requests(Select(v.log, false));
  }

  lemma LocalAccounts(v: View, a: Action)
    ensures Accounts(v, Local(v, a).v, AskedBy(v, a, true), AskedBy(v, a, false))
  {
    hide Accounts, Settles, DoRead, DoWrite;
    var w := Local(v, a).v;
    match a
    case Open => SameAccounts(v, w);
    case Stop => SameAccounts(v, w);
    case Write(data) =>
      if !v.present || v.s.localClosed || !WriteAccepted(v.s) {
        SameAccounts(v, w);
      } else {
        DoWriteSettles(v.s.(pendingWrites := v.s.pendingWrites + [data]), v.s);
        ApplyAccounts(v, AsyncWrite(v.s, data), [], [], w);
      }
    case Read(req) =>
      if !v.present || v.s.localClosed {
        SameAccounts(v, w);
      } else {
        ReadSettles(v.s, req);
        ApplyAccounts(v, AsyncRead(v.s, req), AskedBy(v, a, true), AskedBy(v, a, false), w);
      }
    case Close =>
      if !v.present {
        SameAccounts(v, w);
      } else {
        CloseSettles(v.s);
        ApplyAccounts(v, MuxStreamSpec.Close(v.s), [], [], w);
      }
    case RunTask =>
      if v.inbox == [] {
        SameAccounts(v, w);
      } else {
        TaskSettles(v.s, v.inbox[0]);
        ApplyAccounts(v, TaskEffect(v.s, v.inbox[0]), [], [], w);
      }
  }

  // ---------- the end ----------

  /** The stream of a stopped session has been told so, or is about to be, unless it was opened after the stop. */
  predicate ToldOfStop(v: View) {
    v.present && v.stopped ==> (v.inTable <==> !(v.s.remoteClosed || HasClose(v.inbox)))
  }

  /** What any loop or close leaves of the end: it neither announces nor forgets it, and removes a stream only after it. */
  predicate KeepsEnd(s: Stream, e: Effect) {
    e.s.remoteClosed == s.remoteClosed && (e.removed ==> s.remoteClosed)
  }

  lemma LoopsKeepEnd(s: Stream)
    ensures KeepsEnd(s, DoRead(s)) && KeepsEnd(s, DoWrite(s))
  {
    var e := Effect(s, [], [], false);
    assert Requests(e.log) + s.pendingReads == s.pendingReads && Delivered(e.log) + s.unread == s.unread;
    ReadLoopServes(s, e);
    DoWriteFacts(s);
  }

  lemma ApplyTold(v: View, e: Effect, w: View)
    requires ToldOfStop(v) && KeepsEnd(v.s, e)
    requires w == v.(s := e.s, inTable := v.inTable && !e.removed, sent := w.sent, written := w.written, log := w.log)
    ensures ToldOfStop(w)
  {
  }

  lemma PopTold(v: View)
    requires ToldOfStop(v) && v.inbox != []
    ensures ToldOfStop(Popped(v))
  {
    var ts, rest := v.inbox, v.inbox[1..];
    if HasClose(rest) {
      var i :| 0 <= i < |rest| && rest[i].CloseTask?;
      assert ts[i + 1].CloseTask?;
    }
    if HasClose(ts) && !ts[0].CloseTask? {
      var i :| 0 <= i < |ts| && ts[i].CloseTask?;
      assert rest[i - 1].CloseTask?;
    }
  }

  lemma StopTells(v: View)
    requires TableOk(v)
    ensures ToldOfStop(v) ==> ToldOfStop(Local(v, Stop).v)
  {
    if !v.stopped && v.inTable {
      assert (v.inbox + [CloseTask])[|v.inbox|].CloseTask?;
    }
  }

  lemma LocalTold(v: View, a: Action, id: u32)
    requires ViewOk(v, id) && TableOk(v) && ToldOfStop(v)
    ensures ToldOfStop(Local(v, a).v)
  {
    hide DoRead, DoWrite, ToldOfStop, HasClose;
    var w := Local(v, a).v;
    match a
    case Open =>
      if !v.present {
        OpenTold(v, id);
      }
    case Stop => StopTells(v);
    case Write(data) =>
      if v.present && !v.s.localClosed && WriteAccepted(v.s) {
        LoopsKeepEnd(v.s.(pendingWrites := v.s.pendingWrites + [data]));
        ApplyTold(v, AsyncWrite(v.s, data), w);
      }
    case Read(req) =>
      if v.present && !v.s.localClosed {
        LoopsKeepEnd(v.s.(pendingReads := v.s.pendingReads + [req]));
        ApplyTold(v, AsyncRead(v.s, req), w);
      }
    case Close =>
      if v.present {
        ApplyTold(v, MuxStreamSpec.Close(v.s), w);
      }
    case RunTask =>
      if v.inbox != [] {
        PopTold(v);
        LoopsKeepEnd(Popped(v).s);
        ApplyTold(Popped(v), TaskEffect(v.s, v.inbox[0]), w);
      }
  }

  lemma OpenTold(v: View, id: u32)
    requires v == Absent(id, v.stopped)
    ensures ToldOfStop(Local(v, Open).v)
  {
  }

  // ---------- one step of a net ----------

  datatype ViewStep = Same | Does(a: Action) | Takes(f: Frame)

  /** What a step of the left side is for its stream `j`. */
  function StepOf(n: Net, act: SideAction, j: u32): ViewStep {
    match act
    case OpenStream => if n.a.opens < MAX_OPENS && j == n.a.session.next then Does(Open) else Same
    case OnStream(id, a) => if id == j && id in n.a.objects && !a.Open? && !a.Stop? then Does(a) else Same
    case StopSession => Does(Stop)
    case SendPing => Same
    case Receive => if !n.a.session.stopped && n.ba != [] && Concerns(n.ba[0], j) then Takes(n.ba[0]) else Same
  }

  lemma StepView(n: Net, act: SideAction, j: u32)
    requires NetInv(n)
    ensures var v := ViewOf(n.a, j);
            ViewOf(StepLeft(n, act).a, j) ==
            match StepOf(n, act, j)
            case Same => v
            case Does(a) => Local(v, a).v
            case Takes(f) => Handle(v, f).v
  {
    hide NetInv, ViewOf, Local, Handle, ApplyOutcome, Put;
    var p, q := Project(n, j), Project(StepLeft(n, act), j);
    match act
    case OpenStream =>
      if n.a.opens < MAX_OPENS {
        OpenProjects(n, j);
      }
    case OnStream(id, a) =>
      if id in n.a.objects && !a.Open? && !a.Stop? {
        OnStreamProjects(n, id, a, j);
      }
    case StopSession => StopProjects(n, j);
    case SendPing =>
    case Receive =>
      if !n.a.session.stopped && n.ba != [] {
        ReceiveProjects(n, j);
        OnlyRest(n.ba, j);
        SameStopped(n.a, j);
      }
  }

  lemma HandleAccounts(v: View, f: Frame)
    requires f.h.kind == DATA && Has(f.h.flags, SYN) && !v.inTable ==> v == Absent(f.h.streamId, v.stopped)
    ensures Accounts(v, Handle(v, f).v, [], []) && Handle(v, f).v.stopped == v.stopped
  {
    hide Accounts, Has;
    SameAccounts(v, Handle(v, f).v);
  }

  /** A frame that creates a stream finds none there. */
  lemma CreatesFresh(n: Net, j: u32)
    requires NetInv(n) && StepOf(n, Receive, j).Takes?
    ensures var v, f := ViewOf(n.a, j), n.ba[0];
            f.h.streamId == j && (f.h.kind == DATA && Has(f.h.flags, SYN) && !v.inTable ==> v == Absent(j, v.stopped))
  {
    hide Inv, Only, ViewOf, OpenedBy, IdsOk, Conforming, Has, IsSyn;
    var p, f := Project(n, j), n.ba[0];
    assert Inv(p, j, OpenedBy(n.a.isServer, j));
    OnlyRest(n.ba, j);
    if f.h.kind == DATA && Has(f.h.flags, SYN) {
      SynFrame(f, n.ba);
      SynMeetsNobody(p, j, OpenedBy(n.a.isServer, j));
      AbsentView(p, j, OpenedBy(n.a.isServer, j));
    }
  }

  /** Receiving a frame calls no read handler, and a stopped session receives none. */
  lemma TakesAccounts(n: Net, j: u32)
    requires NetInv(n) && StepOf(n, Receive, j).Takes?
    ensures var v := ViewOf(n.a, j);
            var w := Handle(v, n.ba[0]).v;
            Accounts(v, w, [], []) && !w.stopped
  {
    CreatesFresh(n, j);
    SameStopped(n.a, j);
    hide NetInv, ViewOf, Accounts, Handle, Has;
    HandleAccounts(ViewOf(n.a, j), n.ba[0]);
  }

  lemma SynFrame(f: Frame, fs: seq<Frame>)
    requires AllConforming(fs) && fs != [] && f == fs[0] && f.h.kind == DATA && Has(f.h.flags, SYN)
    ensures IsSyn(f)
  {
    assert Conforming(f);
  }

  lemma AbsentView(p: Pair, id: u32, leftOpens: bool)
    requires Inv(p, id, leftOpens) && !p.l.present
    ensures p.l == Absent(id, p.l.stopped)
  {
  }

  lemma LeftViewOk(n: Net, j: u32)
    requires NetInv(n)
    ensures ViewOk(ViewOf(n.a, j), j) && TableOk(ViewOf(n.a, j))
  {
    assert Inv(Project(n, j), j, OpenedBy(n.a.isServer, j));
  }

  function SideOf(n: Net, left: bool): Side {
    if left then n.a else n.b
  }

  /** One end of a stream after a run. */
  function End(steps: seq<Step>, id: u32, left: bool): View {
    ViewOf(SideOf(Run(steps), left), id)
  }

  /** The reads a step asks for at one end of a stream. */
  function AskedIn(n: Net, step: Step, id: u32, left: bool, queued: bool): seq<ReadReq> {
    if step.left == left && step.act.OnStream? && step.act.id == id then
      AskedBy(ViewOf(SideOf(n, left), id), step.act.act, queued)
    else
      []
  }

  lemma StepLeftAccounts(n: Net, act: SideAction, id: u32)
    requires NetInv(n)
    ensures var v, w := ViewOf(n.a, id), ViewOf(StepLeft(n, act).a, id);
            && Accounts(v, w, AskedIn(n, Step(true, act), id, true, true), AskedIn(n, Step(true, act), id, true, false))
            && (ToldOfStop(v) ==> ToldOfStop(w))
  {
    hide NetInv, ViewOf, Local, Handle, StepLeft, Accounts, ToldOfStop, ViewOk, TableOk;
    var v := ViewOf(n.a, id);
    StepView(n, act, id);
    LeftViewOk(n, id);
    match StepOf(n, act, id)
    case Same =>
      SameAccounts(v, v);
      NotPresent(n, act, id);
    case Does(a) =>
      LocalAccounts(v, a);
      if ToldOfStop(v) {
        LocalTold(v, a, id);
      }
      assert !a.Read? || act == OnStream(id, a);
    case Takes(f) =>
      TakesAccounts(n, id);
      NotStoppedTold(Handle(v, f).v);
  }

  lemma NotPresent(n: Net, act: SideAction, id: u32)
    requires StepOf(n, act, id).Same?
    ensures AskedIn(n, Step(true, act), id, true, true) == [] && AskedIn(n, Step(true, act), id, true, false) == []
  {
  }

  lemma NotStoppedTold(v: View)
    requires !v.stopped
    ensures ToldOfStop(v)
  {
  }

  lemma OtherSideKept(n: Net, act: SideAction)
    ensures StepLeft(n, act).b == n.b
  {
    hide Local, Session.HandleFrame, ApplyOutcome, Put;
  }

  lemma NextAccounts(n: Net, step: Step, id: u32, left: bool)
    requires NetInv(n)
    ensures var v, w := ViewOf(SideOf(n, left), id), ViewOf(SideOf(Next(n, step), left), id);
            && Accounts(v, w, AskedIn(n, step, id, left, true), AskedIn(n, step, id, left, false))
            && (ToldOfStop(v) ==> ToldOfStop(w))
  {
    hide NetInv, ViewOf, StepLeft, Accounts, ToldOfStop, AskedBy;
    if step.left {
      OtherSideKept(n, step.act);
      StepLeftAccounts(n, step.act, id);
    } else {
      SwapInv(n);
      OtherSideKept(Swap(n), step.act);
      StepLeftAccounts(Swap(n), step.act, id);
    }
    if step.left != left {
      SameAccounts(ViewOf(SideOf(n, left), id), ViewOf(SideOf(n, left), id));
    }
  }

  // ---------- runs ----------

  /** All reads a user asked for at one end of a stream in a run, in order: those that were queued, or those refused
      because 1024 were waiting. */
  function Asked(steps: seq<Step>, id: u32, left: bool, queued: bool): seq<ReadReq> {
    if steps == [] then []
    else
      var init := steps[..|steps| - 1];
      Asked(init, id, left, queued) + AskedIn(Run(init), steps[|steps| - 1], id, left, queued)
  }

  lemma InitialEnd(id: u32, left: bool)
    ensures var v := End([], id, left);
            v.log == [] && v.s.pendingReads == [] && !v.present
  {
  }

  /** The reads a user asked for are, in order, those whose handlers have been called and then those waiting; the
      handlers of refused reads have all been called. */
  lemma {:induction false} ReadsAccounted(steps: seq<Step>, id: u32, left: bool)
    ensures var v := End(steps, id, left);
            && Asked(steps, id, left, true) == Requests(Select(v.log, true)) + v.s.pendingReads
            && Asked(steps, id, left, false) == Requests(Select(v.log, false))
  {
    hide NetInv, ViewOf, Next, AskedIn;
    if steps == [] {
      InitialEnd(id, left);
    } else {
      var init := steps[..|steps| - 1];
      ReadsAccounted(init, id, left);
      EveryRunKeepsInv(init);
      NextAccounts(Run(init), steps[|steps| - 1], id, left);
    }
  }

  lemma {:induction false} EveryEndTold(steps: seq<Step>, id: u32, left: bool)
    ensures ToldOfStop(End(steps, id, left))
  {
    hide NetInv, ViewOf, Next;
    if steps == [] {
      InitialEnd(id, left);
    } else {
      var init := steps[..|steps| - 1];
      EveryEndTold(init, id, left);
      EveryRunKeepsInv(init);
      NextAccounts(Run(init), steps[|steps| - 1], id, left);
    }
  }

  /** With all its tasks run, a stream keeps a read waiting only while it is open at this end, and only while the peer
      has not closed or something is still on its way; or, after its session was stopped, if it was opened later. */
  lemma NoReadForgotten(steps: seq<Step>, id: u32, fromLeft: bool)
    ensures var p := MuxTheorems.Stream(steps, id, fromLeft);
            p.r.s.pendingReads != [] && p.r.inbox == [] ==>
              && p.r.present && !p.r.s.localClosed
              && (if p.r.stopped then p.r.inTable else !p.l.s.localClosed || p.lr != [])
  {
    StreamInv(steps, id, fromLeft);
    EveryEndTold(steps, id, !fromLeft);
    assert MuxTheorems.Stream(steps, id, fromLeft).r == End(steps, id, !fromLeft);
  }

  /** A stopped session tells exactly the streams that were in its table when it stopped. */
  lemma ToldExactly(steps: seq<Step>, id: u32, left: bool)
    ensures var v := End(steps, id, left);
            v.present && v.stopped && v.inbox == [] ==> (v.s.remoteClosed <==> !v.inTable)
  {
    EveryEndTold(steps, id, left);
  }

  // ---------- a stream opened too late ----------

  /** A stream that will not be told of the end of its session. */
  predicate Untold(v: View) {
    v.present && v.stopped && !v.s.remoteClosed && !HasClose(v.inbox)
  }

  lemma LocalUntold(v: View, a: Action)
    requires Untold(v)
    ensures Untold(Local(v, a).v)
  {
    hide DoRead, DoWrite;
    match a
    case Write(data) => LoopsKeepEnd(v.s.(pendingWrites := v.s.pendingWrites + [data]));
    case Read(req) => LoopsKeepEnd(v.s.(pendingReads := v.s.pendingReads + [req]));
    case RunTask =>
      if v.inbox != [] {
        LoopsKeepEnd(Popped(v).s);
        assert !v.inbox[0].CloseTask?;
        forall i | 0 <= i < |v.inbox| - 1 ensures !v.inbox[1..][i].CloseTask? {
          assert v.inbox[1..][i] == v.inbox[i + 1];
        }
      }
    case _ =>
  }

  lemma StepUntold(n: Net, act: SideAction, id: u32)
    requires NetInv(n) && Untold(ViewOf(n.a, id))
    ensures Untold(ViewOf(StepLeft(n, act).a, id))
  {
    hide NetInv, ViewOf, Local, Handle, StepLeft, HasClose;
    StepView(n, act, id);
    SameStopped(n.a, id);
    match StepOf(n, act, id)
    case Does(a) => LocalUntold(ViewOf(n.a, id), a);
    case _ =>
  }

  lemma NextUntold(n: Net, step: Step, id: u32, left: bool)
    requires NetInv(n) && Untold(ViewOf(SideOf(n, left), id))
    ensures Untold(ViewOf(SideOf(Next(n, step), left), id))
  {
    hide NetInv, ViewOf, StepLeft, Untold;
    if step.left {
      OtherSideKept(n, step.act);
    } else {
      SwapInv(n);
      OtherSideKept(Swap(n), step.act);
    }
    if step.left == left {
      StepUntold(if left then n else Swap(n), step.act, id);
    }
  }

  /** A stream that is in the table of a stopped session was opened after the stop: in no continuation of the run is any
      of its reads told of the end. */
  lemma {:induction false} LateStreamNeverTold(steps: seq<Step>, more: seq<Step>, id: u32, left: bool)
    requires var v := End(steps, id, left); v.present && v.stopped && v.inTable
    ensures Untold(End(steps + more, id, left)) && !EndSeen(End(steps + more, id, left).log)
    decreases |more|
  {
    hide NetInv, ViewOf, Next, Untold;
    if more == [] {
      assert steps + more == steps;
      EveryEndTold(steps, id, left);
      UntoldIff(End(steps, id, left));
    } else {
      var init := more[..|more| - 1];
      LateStreamNeverTold(steps, init, id, left);
      EveryRunKeepsInv(steps + init);
      NextUntold(Run(steps + init), more[|more| - 1], id, left);
      assert steps + more == steps + init + [more[|more| - 1]];
      assert (steps + more)[..|steps + more| - 1] == steps + init;
    }
    NotSeen(steps + more, id, left);
  }

  lemma UntoldIff(v: View)
    requires ToldOfStop(v) && v.present && v.stopped
    ensures Untold(v) <==> v.inTable
  {
  }

  lemma NotSeen(steps: seq<Step>, id: u32, left: bool)
    ensures Untold(End(steps, id, left)) ==> !EndSeen(End(steps, id, left).log)
  {
    StreamInv(steps, id, !left);
    assert MuxTheorems.Stream(steps, id, !left).r == End(steps, id, left);
  }

  /** Such a run: the session stops, its user opens a stream and reads. The source hands out streams after `stop`. */
  lemma LateStreamReachable(req: ReadReq)
    ensures var v := End([Step(true, StopSession), Step(true, OpenStream), Step(true, OnStream(1, Read(req)))], 1, true);
            v.present && v.stopped && v.inTable && v.s.pendingReads == [req]
  {
    var stop, open, read := Step(true, StopSession), Step(true, OpenStream), Step(true, OnStream(1, Read(req)));
    var n1 := Net(Side(false, 0, Session.Session(1, {}, true), map[]), NewSide(true), [], []);
    var n2 := Net(Side(false, 1, Session.Session(3, {1}, true), map[1 := NewObject(1)]), NewSide(true), [Syn(1)], []);
    assert Next(Init(), stop).a.objects == map[];
    assert Next(Init(), stop) == n1;
    assert Next(n1, open).a.objects == map[1 := NewObject(1)];
    assert Next(n1, open) == n2;
    assert Run([]) == Init();
    assert [stop][..0] == [] && Run([stop]) == n1;
    assert [stop, open][..1] == [stop] && Run([stop, open]) == n2;
    assert [stop, open, read][..2] == [stop, open];
    assert [] + [req] == [req];
    assert Local(ViewOf(n2.a, 1), Read(req)).v.s.pendingReads == [req];
  }
}
