/** Runs that show where the guarantees of `MuxTheorems.dfy` end: the stall bound is tight, and a stream
    that gets data after its own close is never forgotten. */
module MuxLimits {
  import opened Bytes
  import opened MuxFrame
  import opened MuxStreamSpec
  import opened MuxPair
  import opened MuxPairProofs
  import opened MuxNet
  import opened MuxNetInv
  import opened MuxTheorems
  import Session = MuxSessionSpec

  lemma RunSnoc(steps: seq<Step>, step: Step)
    ensures Run(steps + [step]) == Next(Run(steps), step)
  {
    assert (steps + [step])[..|steps|] == steps;
  }

  // ---------- the stall bound is tight ----------

  /** The client opens a stream, and the server and the client handle SYN and ACK. */
  function OpeningRun(): seq<Step> {
    [] + [Step(true, OpenStream)] + [Step(false, Receive)] + [Step(true, Receive)]
  }

  /** The client then writes `data`; the server reads 32767 of its first 131072 bytes and asks for `n`
      bytes at once. */
  function StallingRun(data: bytes, n: nat): seq<Step> {
    OpeningRun()
    + [Step(false, OnStream(1, Read(FIRST_READ)))]
    + [Step(true, OnStream(1, Write(data)))]
    + [Step(false, Receive)]
    + [Step(false, OnStream(1, RunTask))]
    + [Step(false, OnStream(1, Read(ReadReq(n, true))))]
  }

  const FIRST_READ: ReadReq := ReadReq(UPDATE_THRESHOLD - 1, false)

  function Fresh(s: Stream): Object {
    Object(s, [], [], [], [])
  }

  function ClientSide(o: Object): Side {
    Side(false, 1, Session.Session(3, {1}, false), map[1 := o])
  }

  function ServerSide(o: Object): Side {
    Side(true, 0, Session.Session(2, {1}, false), map[1 := o])
  }

  function Idle(): Net {
    Net(ClientSide(NewObject(1)), ServerSide(NewObject(1)), [], [])
  }

  lemma OpenedRun()
    ensures Run(OpeningRun()) == Idle()
  {
    var n1 := Net(ClientSide(NewObject(1)), NewSide(true), [Syn(1)], []);
    var n2 := Net(ClientSide(NewObject(1)), ServerSide(NewObject(1)), [], [Ack(1)]);
    var open, onServer, onClient := Step(true, OpenStream), Step(false, Receive), Step(true, Receive);
    assert Next(Init(), open) == n1;
    assert Next(n1, onServer) == n2;
    assert Next(n2, onClient).a.objects == map[1 := NewObject(1)];
    RunSnoc([], open);
    RunSnoc([] + [open], onServer);
    RunSnoc([] + [open] + [onServer], onClient);
  }

  // The two stream objects as the run goes on, `d` being the first 131072 bytes written.

  function Asking(): Object {
    Fresh(NewStream(1).(pendingReads := [FIRST_READ]))
  }

  function Blocked(data: bytes): Object
    requires |data| > INITIAL_WINDOW
  {
    Object(NewStream(1).(window := 0, pendingWrites := [data[INITIAL_WINDOW..]]), [], data, data[..INITIAL_WINDOW], [])
  }

  function HalfRead(d: bytes): Object
    requires |d| == INITIAL_WINDOW
  {
    Object(NewStream(1).(unread := d[FIRST_READ.size..], consumed := FIRST_READ.size), [], [], [],
           [Completion(FIRST_READ, Got(d[..FIRST_READ.size]))])
  }

  lemma FirstReadWaits()
    ensures Local(ViewOf(ServerSide(NewObject(1)), 1), Read(FIRST_READ))
            == Move(ViewOf(ServerSide(Asking()), 1), [])
  {
    assert [] + [FIRST_READ] == [FIRST_READ];
    assert Bodies([]) == [];
  }

  /** A step of the server's stream that keeps it in the table. */
  lemma ServerActs(n: Net, a: Action, o: Object, out: seq<Frame>)
    requires n.b == ServerSide(ObjectOf(n.b, 1)) && !a.Open? && !a.Stop?
    requires Local(ViewOf(n.b, 1), a) == Move(ViewOf(ServerSide(o), 1), out)
    ensures Next(n, Step(false, OnStream(1, a))) == n.(b := ServerSide(o), ba := n.ba + out)
  {
    hide Local;
    assert Put(n.b, 1, ViewOf(ServerSide(o), 1)).objects == map[1 := o];
  }

  lemma ClientActs(n: Net, a: Action, o: Object, out: seq<Frame>)
    requires n.a == ClientSide(ObjectOf(n.a, 1)) && !a.Open? && !a.Stop?
    requires Local(ViewOf(n.a, 1), a) == Move(ViewOf(ClientSide(o), 1), out)
    ensures Next(n, Step(true, OnStream(1, a))) == n.(a := ClientSide(o), ab := n.ab + out)
  {
    hide Local;
    assert Put(n.a, 1, ViewOf(ClientSide(o), 1)).objects == map[1 := o];
  }

  lemma EndStuck(data: bytes, n: nat)
    requires |data| > INITIAL_WINDOW && n >= STALL_SIZE
    ensures var o := HalfRead(data[..INITIAL_WINDOW]);
            var p := Project(AllRead(data, o.(s := o.s.(pendingReads := [ReadReq(n, true)]))), 1);
            Stuck(p) && p.r.s.pendingReads == [ReadReq(n, true)]
  {
    assert Flatten([data[INITIAL_WINDOW..]]) == data[INITIAL_WINDOW..] + Flatten<byte>([]);
  }

  lemma WriteBlocks(data: bytes)
    requires |data| > INITIAL_WINDOW
    ensures Local(ViewOf(ClientSide(NewObject(1)), 1), Write(data))
            == Move(ViewOf(ClientSide(Blocked(data)), 1), [Payload(1, data[..INITIAL_WINDOW])])
  {
    var s := NewStream(1).(pendingWrites := [data]);
    assert [] + [data] == [data];
    var e := SendOne(Effect(s, [], [], false));
    assert DropSent([data], INITIAL_WINDOW) == [data[INITIAL_WINDOW..]];
    assert e.s == NewStream(1).(window := 0, pendingWrites := [data[INITIAL_WINDOW..]]);
    assert e.frames == [Payload(1, data[..INITIAL_WINDOW])];
    assert WriteLoop(e) == e;
    assert DoWrite(s) == WriteLoop(SendOne(Effect(s, [], [], false))) == e;
    assert Bodies(e.frames) == data[..INITIAL_WINDOW] + Bodies([]) == data[..INITIAL_WINDOW];
    assert [] + Bodies(e.frames) == Bodies(e.frames) && [] + data == data;
  }

  lemma FirstReadServed(d: bytes)
    requires |d| == INITIAL_WINDOW
    ensures Local(ViewOf(ServerSide(Asking().(inbox := [DataTask(d)])), 1), RunTask)
            == Move(ViewOf(ServerSide(HalfRead(d)), 1), [])
  {
    var s := Asking().s.(unread := d);
    assert [] + d == d;
    var e := TakeOne(Effect(s, [], [], false));
    assert e.s == HalfRead(d).s;
    assert e.log == HalfRead(d).log && e.frames == [];
    assert DoRead(s) == ReadLoop(e) == e;
    assert [] + e.log == e.log && [] + Bodies([]) == [];
  }

  lemma SecondReadWaits(d: bytes, n: nat)
    requires |d| == INITIAL_WINDOW && n >= STALL_SIZE
    ensures var o := HalfRead(d);
            Local(ViewOf(ServerSide(o), 1), Read(ReadReq(n, true)))
            == Move(ViewOf(ServerSide(o.(s := o.s.(pendingReads := [ReadReq(n, true)]))), 1), [])
  {
    var o := HalfRead(d);
    assert [] + [ReadReq(n, true)] == [ReadReq(n, true)];
    assert o.log + [] == o.log && o.sent + Bodies([]) == o.sent;
  }

  lemma ReceivedPayload(d: bytes)
    requires |d| == INITIAL_WINDOW
    ensures var o := Session.HandleFrame(ServerSide(Asking()).session, Payload(1, d));
            && ApplyOutcome(ServerSide(Asking()), o) == ServerSide(Asking().(inbox := [DataTask(d)]))
            && o.out == []
  {
    var f := Payload(1, d);
    assert Session.FrameTasks(f) == [DataTask(d)];
    assert [] + [DataTask(d)] == [DataTask(d)];
    var side := ApplyOutcome(ServerSide(Asking()), Session.HandleFrame(ServerSide(Asking()).session, f));
    assert side.objects == map[1 := Asking().(inbox := [DataTask(d)])];
  }

  // The states of the run, from the fourth step on.

  function State4(): Net {
    Net(ClientSide(NewObject(1)), ServerSide(Asking()), [], [])
  }

  function State5(data: bytes): Net
    requires |data| > INITIAL_WINDOW
  {
    Net(ClientSide(Blocked(data)), ServerSide(Asking()), [Payload(1, data[..INITIAL_WINDOW])], [])
  }

  function AllRead(data: bytes, o: Object): Net
    requires |data| > INITIAL_WINDOW
  {
    Net(ClientSide(Blocked(data)), ServerSide(o), [], [])
  }

  lemma Step4()
    ensures Next(Idle(), Step(false, OnStream(1, Read(FIRST_READ)))) == State4()
  {
    FirstReadWaits();
    ServerActs(Idle(), Read(FIRST_READ), Asking(), []);
  }

  lemma Step5(data: bytes)
    requires |data| > INITIAL_WINDOW
    ensures Next(State4(), Step(true, OnStream(1, Write(data)))) == State5(data)
  {
    WriteBlocks(data);
    ClientActs(State4(), Write(data), Blocked(data), [Payload(1, data[..INITIAL_WINDOW])]);
    hide Next, Blocked;
    var out := [Payload(1, data[..INITIAL_WINDOW])];
    assert [] + out == out;
  }

  lemma Step6(data: bytes)
    requires |data| > INITIAL_WINDOW
    ensures var d := data[..INITIAL_WINDOW];
            Next(State5(data), Step(false, Receive)) == AllRead(data, Asking().(inbox := [DataTask(d)]))
  {
    ReceivedPayload(data[..INITIAL_WINDOW]);
    hide Session.HandleFrame, ApplyOutcome, Blocked;
  }

  lemma Step7(data: bytes)
    requires |data| > INITIAL_WINDOW
    ensures var d := data[..INITIAL_WINDOW];
            Next(AllRead(data, Asking().(inbox := [DataTask(d)])), Step(false, OnStream(1, RunTask)))
            == AllRead(data, HalfRead(d))
  {
    var d := data[..INITIAL_WINDOW];
    FirstReadServed(d);
    ServerActs(AllRead(data, Asking().(inbox := [DataTask(d)])), RunTask, HalfRead(d), []);
  }

  lemma Step8(data: bytes, n: nat)
    requires |data| > INITIAL_WINDOW && n >= STALL_SIZE
    ensures var o := HalfRead(data[..INITIAL_WINDOW]);
            Next(AllRead(data, o), Step(false, OnStream(1, Read(ReadReq(n, true)))))
            == AllRead(data, o.(s := o.s.(pendingReads := [ReadReq(n, true)])))
  {
    var o := HalfRead(data[..INITIAL_WINDOW]);
    SecondReadWaits(data[..INITIAL_WINDOW], n);
    ServerActs(AllRead(data, o), Read(ReadReq(n, true)), o.(s := o.s.(pendingReads := [ReadReq(n, true)])), []);
  }

  /** The bound is tight: for every larger `n` a run gets stuck with an `async_read` of `n` bytes. */
  lemma StallReachable(data: bytes, n: nat)
    requires |data| > INITIAL_WINDOW && n >= STALL_SIZE
    ensures var p := MuxTheorems.Stream(StallingRun(data, n), 1, true);
            Stuck(p) && p.r.s.pendingReads == [ReadReq(n, true)]
  {
    OpenedRun();
    Step4();
    Step5(data);
    Step6(data);
    Step7(data);
    Step8(data, n);
    EndStuck(data, n);
    hide Next, Idle, State4, State5, AllRead, HalfRead, Stuck, OpeningRun, Run;
    var w3 := OpeningRun();
    var w4 := w3 + [Step(false, OnStream(1, Read(FIRST_READ)))];
    var w5 := w4 + [Step(true, OnStream(1, Write(data)))];
    var w6 := w5 + [Step(false, Receive)];
    var w7 := w6 + [Step(false, OnStream(1, RunTask))];
    RunSnoc(w3, Step(false, OnStream(1, Read(FIRST_READ))));
    RunSnoc(w4, Step(true, OnStream(1, Write(data))));
    RunSnoc(w5, Step(false, Receive));
    RunSnoc(w6, Step(false, OnStream(1, RunTask)));
    RunSnoc(w7, Step(false, OnStream(1, Read(ReadReq(n, true)))));
  }

  // ---------- a stream that gets data after its own close is never forgotten ----------

  /** Closed by its user, with data in the queue that nobody will read. */
  predicate Lingers(v: View) {
    v.present && v.s.localClosed && v.s.unread != []
  }

  lemma LocalKeepsLingering(p: Pair, a: Action, id: u32, leftOpens: bool)
    requires Inv(p, id, leftOpens) && Lingers(p.l)
    ensures Lingers(Local(p.l, a).v)
  {
    hide Flow;
    if a.RunTask? && p.l.inbox != [] {
      var v1 := Popped(p.l);
      assert v1.s.pendingReads == [] && v1.s.pendingWrites == [];
    }
  }

  lemma HandleKeepsLingering(p: Pair, id: u32, leftOpens: bool)
    requires Inv(p, id, leftOpens) && Lingers(p.l)
    ensures Lingers(ReceiveLeft(p).l)
  {
    hide Flow;
    assert !p.l.stopped ==> p.l.inTable;
  }

  lemma StepKeepsLingering(n: Net, act: SideAction, id: u32)
    requires NetInv(n) && Lingers(ViewOf(n.a, id))
    ensures Lingers(ViewOf(StepLeft(n, act).a, id))
  {
    hide Inv, Local, Lingers;
    var p, leftOpens := Project(n, id), OpenedBy(n.a.isServer, id);
    assert Inv(p, id, leftOpens);
    match act
    case OpenStream =>
      if n.a.opens < MAX_OPENS {
        OpenProjects(n, id);
        LocalKeepsLingering(p, Open, id, leftOpens);
      }
    case OnStream(j, a) =>
      if j in n.a.objects && !a.Open? && !a.Stop? {
        OnStreamProjects(n, j, a, id);
        LocalKeepsLingering(p, a, id, leftOpens);
      }
    case StopSession =>
      StopProjects(n, id);
      LocalKeepsLingering(p, Stop, id, leftOpens);
    case SendPing =>
    case Receive =>
      if !n.a.session.stopped && n.ba != [] {
        ReceiveProjects(n, id);
        HandleKeepsLingering(p, id, leftOpens);
      }
  }

  function SideOf(n: Net, left: bool): Side {
    if left then n.a else n.b
  }

  /** Such a stream stays in the table for as long as its session runs, whatever happens afterwards,
      although both ends may have closed long ago. */
  lemma {:induction false} LingersForever(steps: seq<Step>, more: seq<Step>, id: u32, left: bool)
    requires Lingers(ViewOf(SideOf(Run(steps), left), id))
    ensures var side := SideOf(Run(steps + more), left);
            Lingers(ViewOf(side, id)) && (!side.session.stopped ==> id in side.session.table)
    decreases |more|
  {
    hide Lingers, StepLeft, Run, NetInv, ViewOf;
    if more == [] {
      assert steps + more == steps;
    } else {
      var before, step := more[..|more| - 1], more[|more| - 1];
      LingersForever(steps, before, id, left);
      assert steps + more == steps + before + [step];
      RunSnoc(steps + before, step);
      EveryRunKeepsInv(steps + before);
      NextKeepsLingering(Run(steps + before), step, id, left);
    }
    EveryRunKeepsInv(steps + more);
    if !SideOf(Run(steps + more), left).session.stopped {
      LingeringInTable(Run(steps + more), id, left);
    }
  }

  lemma NextKeepsLingering(n: Net, step: Step, id: u32, left: bool)
    requires NetInv(n) && Lingers(ViewOf(SideOf(n, left), id))
    ensures Lingers(ViewOf(SideOf(Next(n, step), left), id))
  {
    hide Lingers, NetInv;
    SwapInv(n);
    var m := if step.left then n else Swap(n);
    assert StepLeft(m, step.act).b == m.b;
    if left == step.left {
      StepKeepsLingering(m, step.act, id);
    }
  }

  lemma LingeringInTable(n: Net, id: u32, left: bool)
    requires NetInv(n) && Lingers(ViewOf(SideOf(n, left), id)) && !SideOf(n, left).session.stopped
    ensures id in SideOf(n, left).session.table
  {
    assert Inv(Project(n, id), id, OpenedBy(n.a.isServer, id));
    hide Core;
    assert TableOk(ViewOf(SideOf(n, left), id));
  }

  /** It takes no more than a close while data is on its way. */
  function LingeringRun(data: bytes): seq<Step> {
    OpeningRun()
    + [Step(false, OnStream(1, Write(data)))]
    + [Step(true, OnStream(1, Close))]
    + [Step(true, Receive)]
    + [Step(true, OnStream(1, RunTask))]
  }

  function Closed(inbox: seq<Task>, unread: bytes): Object {
    Object(NewStream(1).(localClosed := true, unread := unread), inbox, [], [], [])
  }

  function Wrote(data: bytes): Object
    requires |data| <= INITIAL_WINDOW
  {
    Object(NewStream(1).(window := INITIAL_WINDOW - |data|), [], data, data, [])
  }

  lemma ServerWrites(data: bytes)
    requires 0 < |data| <= INITIAL_WINDOW
    ensures Next(Idle(), Step(false, OnStream(1, Write(data))))
            == Net(ClientSide(NewObject(1)), ServerSide(Wrote(data)), [], [Payload(1, data)])
  {
    var s := NewStream(1).(pendingWrites := [data]);
    assert [] + [data] == [data];
    var e := SendOne(Effect(s, [], [], false));
    assert data[..|data|] == data && [data][1..] == [];
    assert e.s == Wrote(data).s && e.frames == [Payload(1, data)];
    assert WriteLoop(e) == e && DoWrite(s) == WriteLoop(SendOne(Effect(s, [], [], false)));
    assert Bodies(e.frames) == data + Bodies([]) == data;
    assert [] + data == data && [] + e.frames == e.frames;
    ServerActs(Idle(), Write(data), Wrote(data), [Payload(1, data)]);
  }

  lemma ClientCloses(n: Net)
    requires n.a == ClientSide(NewObject(1))
    ensures Next(n, Step(true, OnStream(1, Close))) == n.(a := ClientSide(Closed([], [])), ab := n.ab + [Fin(1)])
  {
    assert Bodies([Fin(1)]) == [] + Bodies([]);
    ClientActs(n, Close, Closed([], []), [Fin(1)]);
  }

  lemma ClientReceives(n: Net, data: bytes)
    requires 0 < |data| <= INITIAL_WINDOW && n.a == ClientSide(Closed([], [])) && n.ba == [Payload(1, data)]
    ensures Next(n, Step(true, Receive)) == n.(a := ClientSide(Closed([DataTask(data)], [])), ba := [])
  {
    var o := Session.HandleFrame(n.a.session, Payload(1, data));
    assert Session.FrameTasks(Payload(1, data)) == [DataTask(data)];
    assert [] + [DataTask(data)] == [DataTask(data)] && n.ab + [] == n.ab;
    assert ApplyOutcome(n.a, o).objects == map[1 := Closed([DataTask(data)], [])];
  }

  lemma ClientRuns(n: Net, data: bytes)
    requires data != [] && n.a == ClientSide(Closed([DataTask(data)], []))
    ensures Next(n, Step(true, OnStream(1, RunTask))).a == ClientSide(Closed([], data))
  {
    assert [] + data == data && [] + Bodies([]) == [];
    ClientActs(n, RunTask, Closed([], data), []);
  }

  lemma LingeringReachable(data: bytes)
    requires 0 < |data| <= INITIAL_WINDOW
    ensures Lingers(ViewOf(Run(LingeringRun(data)).a, 1))
  {
    OpenedRun();
    ServerWrites(data);
    var w3, w4 := OpeningRun(), OpeningRun() + [Step(false, OnStream(1, Write(data)))];
    var w5 := w4 + [Step(true, OnStream(1, Close))];
    var w6 := w5 + [Step(true, Receive)];
    RunSnoc(w3, Step(false, OnStream(1, Write(data))));
    RunSnoc(w4, Step(true, OnStream(1, Close)));
    RunSnoc(w5, Step(true, Receive));
    RunSnoc(w6, Step(true, OnStream(1, RunTask)));
    hide Next, OpeningRun, Run;
    ClientCloses(Run(w4));
    ClientReceives(Run(w5), data);
    ClientRuns(Run(w6), data);
  }
}
