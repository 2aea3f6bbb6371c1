/** Two sessions joined by a link that delivers frames in order. A run interleaves, in any way, the
    steps of both users, of every stream's strand and of both sessions. Seen from one stream id, a run
    is a run of `MuxPair`. */
module MuxNet {
  import opened Bytes
  import opened MuxFrame
  import opened MuxStreamSpec
  import opened MuxPair
  import opened MuxPairProofs
  import Session = MuxSessionSpec

  /** A stream object with its strand's queue and its history. */
  datatype Object = Object(s: Stream, inbox: seq<Task>, written: bytes, sent: bytes, log: seq<Completion>)

  datatype Side = Side(isServer: bool, opens: nat, session: Session.Session, objects: map<u32, Object>)

  datatype Net = Net(a: Side, b: Side, ab: seq<Frame>, ba: seq<Frame>)

  datatype SideAction =
    | OpenStream
    | OnStream(id: u32, act: Action)   // a step of the stream's user or of its strand
    | StopSession
    | SendPing
    | Receive

  /** Who acts, and how. */
  datatype Step = Step(left: bool, act: SideAction)

  // ---------- ids ----------

  /** Stream ids are 32-bit, so a session hands out this many before it repeats one. */
  const MAX_OPENS: nat := 0x8000_0000

  /** The id a session gives to its `k`-th stream. */
  function IdOf(isServer: bool, k: nat): u32 {
    Truncate32((if isServer then 2 else 1) + 2 * k)
  }

  predicate OpenedBy(isServer: bool, id: u32) {
    (id % 2 == 0) == isServer
  }

  /** Inverse of `IdOf`. */
  function IndexOf(id: u32): nat {
    if id % 2 == 1 then id / 2 else if id == 0 then MAX_OPENS - 1 else id / 2 - 1
  }

  lemma IdRoundTrip(isServer: bool, k: nat)
    requires k < MAX_OPENS
    ensures OpenedBy(isServer, IdOf(isServer, k)) && IndexOf(IdOf(isServer, k)) == k
  {
  }

  // ---------- steps ----------

  function NewObject(id: u32): Object {
    Object(NewStream(id), [], [], [], [])
  }

  function NewSide(isServer: bool): Side {
    Side(isServer, 0, Session.NewSession(isServer), map[])
  }

  function Init(): Net {
    Net(NewSide(false), NewSide(true), [], [])
  }

  function ObjectOf(side: Side, id: u32): Object {
    if id in side.objects then side.objects[id] else NewObject(id)
  }

  function ViewOf(side: Side, id: u32): View {
    var o := ObjectOf(side, id);
    View(side.session.stopped, id in side.objects, id in side.session.table, o.s, o.inbox, o.written, o.sent, o.log)
  }

  /** The side after a step of stream `id` alone. */
  function Put(side: Side, id: u32, v: View): Side {
    side.(objects := side.objects[id := Object(v.s, v.inbox, v.written, v.sent, v.log)],
          session := if v.inTable then side.session else Session.RemoveStream(side.session, id))
  }

  function PostsTo(o: Session.Outcome, id: u32): seq<Task> {
    if id in o.posts then o.posts[id] else []
  }

  /** The side after a step of its session: new objects exist, and posted tasks wait in strand queues. */
  function ApplyOutcome(side: Side, o: Session.Outcome): Side {
    side.(session := o.st,
          objects := map id | id in side.objects.Keys + o.created ::
                       var obj := if id in o.created then NewObject(id) else side.objects[id];
                       obj.(inbox := obj.inbox + PostsTo(o, id)))
  }

  lemma AfterOutcome(side: Side, o: Session.Outcome, j: u32)
    requires j in o.posts ==> j in side.objects || j in o.created
    ensures var side' := ApplyOutcome(side, o);
            && side'.session == o.st && side'.isServer == side.isServer && side'.opens == side.opens
            && (j in side'.objects <==> j in side.objects || j in o.created)
            && var obj := if j in o.created then NewObject(j) else ObjectOf(side, j);
               ObjectOf(side', j) == obj.(inbox := obj.inbox + PostsTo(o, j))
  {
    var inbox := ObjectOf(side, j).inbox;
    assert inbox + [] == inbox;
  }

  function StepLeft(n: Net, act: SideAction): Net {
    match act
    case OpenStream =>
      if n.a.opens >= MAX_OPENS then n
      else
        var o := Session.OpenStream(n.a.session);
        n.(a := ApplyOutcome(n.a, o).(opens := n.a.opens + 1), ab := n.ab + o.out)
    case OnStream(id, a) =>
      if id !in n.a.objects || a.Open? || a.Stop? then n
      else
        var m := Local(ViewOf(n.a, id), a);
        n.(a := Put(n.a, id, m.v), ab := n.ab + m.out)
    case StopSession =>
      n.(a := ApplyOutcome(n.a, Session.Stop(n.a.session)))
    case SendPing =>
      n.(ab := n.ab + [Ping(SYN)])
    case Receive =>
      if n.a.session.stopped || n.ba == [] then n
      else
        var o := Session.HandleFrame(n.a.session, n.ba[0]);
        Net(ApplyOutcome(n.a, o), n.b, n.ab + o.out, n.ba[1..])
  }

  function Swap(n: Net): Net {
    Net(n.b, n.a, n.ba, n.ab)
  }

  function Next(n: Net, step: Step): Net {
    if step.left then StepLeft(n, step.act) else Swap(StepLeft(Swap(n), step.act))
  }

  /** The state after a run. */
  function Run(steps: seq<Step>): Net {
    if steps == [] then Init() else Next(Run(steps[..|steps| - 1]), steps[|steps| - 1])
  }

  // ---------- one stream of a net ----------

  predicate Concerns(f: Frame, id: u32) {
    f.h.kind != PING && f.h.streamId == id
  }

  /** The frames of one stream. */
  function Only(fs: seq<Frame>, id: u32): seq<Frame> {
    if fs == [] then []
    else (if Concerns(fs[0], id) then [fs[0]] else []) + Only(fs[1..], id)
  }

  lemma {:induction false} OnlyAppend(a: seq<Frame>, b: seq<Frame>, id: u32)
    ensures Only(a + b, id) == Only(a, id) + Only(b, id)
  {
    if a == [] {
      assert a + b == b;
    } else {
      OnlyAppend(a[1..], b, id);
      assert (a + b)[1..] == a[1..] + b;
      Assoc(if Concerns(a[0], id) then [a[0]] else [], Only(a[1..], id), Only(b, id));
    }
  }

  lemma {:induction false} OnlyAll(fs: seq<Frame>, id: u32, j: u32)
    requires ForStream(fs, id)
    ensures Only(fs, j) == if j == id then fs else []
  {
    if fs != [] {
      OnlyAll(fs[1..], id, j);
    }
  }

  function Project(n: Net, id: u32): Pair {
    Pair(ViewOf(n.a, id), ViewOf(n.b, id), Only(n.ab, id), Only(n.ba, id))
  }

  // ---------- invariant ----------

  predicate AllConforming(fs: seq<Frame>) {
    forall i :: 0 <= i < |fs| ==> Conforming(fs[i])
  }

  /** Ids are handed out in order, and none is in use before it is handed out. */
  predicate IdsOk(side: Side) {
    && side.opens <= MAX_OPENS
    && side.session.next == IdOf(side.isServer, side.opens)
    && forall id :: id in side.objects && OpenedBy(side.isServer, id) ==> IndexOf(id) < side.opens
  }

  ghost predicate NetInv(n: Net) {
    && n.a.isServer != n.b.isServer
    && IdsOk(n.a) && IdsOk(n.b)
    && AllConforming(n.ab) && AllConforming(n.ba)
    && forall id: u32 :: Inv(Project(n, id), id, OpenedBy(n.a.isServer, id))
  }

  lemma SwapInv(n: Net)
    requires NetInv(n)
    ensures NetInv(Swap(n))
  {
    hide Inv;
    forall id: u32 ensures Inv(Project(Swap(n), id), id, OpenedBy(n.b.isServer, id)) {
      assert Inv(Project(n, id), id, OpenedBy(n.a.isServer, id));
      MirrorInv(Project(n, id), id, OpenedBy(n.a.isServer, id));
      assert Project(Swap(n), id) == Mirror(Project(n, id));
    }
  }

  lemma InitInv()
    ensures NetInv(Init())
  {
    hide Inv;
    forall id: u32 ensures Inv(Project(Init(), id), id, OpenedBy(false, id)) {
      InitialPair(id, OpenedBy(false, id));
      assert Project(Init(), id) == Pair(Absent(id, false), Absent(id, false), [], []);
    }
  }

  // ---------- every step of a net is a step of each pair ----------

  lemma ForStreamTail(a: seq<Frame>, b: seq<Frame>, id: u32)
    requires ForStream(a + b, id)
    ensures ForStream(b, id)
  {
    forall i | 0 <= i < |b| ensures Conforming(b[i]) && !IsPing(b[i]) && b[i].h.streamId == id {
      assert (a + b)[|a| + i] == b[i];
    }
  }

  lemma InvForStream(p: Pair, id: u32, leftOpens: bool)
    requires Inv(p, id, leftOpens)
    ensures ForStream(p.lr, id) && ForStream(p.rl, id)
  {
  }

  lemma PutView(side: Side, id: u32, v: View, j: u32)
    requires id in side.objects && v.present && v.stopped == side.session.stopped
    requires v.inTable ==> id in side.session.table
    ensures ViewOf(Put(side, id, v), j) == if j == id then v else ViewOf(side, j)
  {
  }

  /** The frames a stream's step sends carry the stream's id. */
  lemma StepFrames(p: Pair, a: Action, id: u32, leftOpens: bool)
    requires Inv(p, id, leftOpens) && !a.Open?
    ensures ForStream(Local(p.l, a).out, id)
  {
    hide Inv, Local, Conforming;
    LocalKeepsInv(p, a, id, leftOpens);
    InvForStream(LocalLeft(p, a), id, leftOpens);
    ForStreamTail(p.lr, Local(p.l, a).out, id);
  }

  lemma OnStreamProjects(n: Net, id: u32, a: Action, j: u32)
    requires NetInv(n) && id in n.a.objects && !a.Open? && !a.Stop?
    ensures var n' := StepLeft(n, OnStream(id, a));
            Project(n', j) == if j == id then LocalLeft(Project(n, id), a) else Project(n, j)
    ensures ForStream(Local(ViewOf(n.a, id), a).out, id)
  {
    hide Inv, Local, Conforming;
    var p, m := Project(n, id), Local(ViewOf(n.a, id), a);
    assert Inv(p, id, OpenedBy(n.a.isServer, id));
    StepFrames(p, a, id, OpenedBy(n.a.isServer, id));
    OnlyAppend(n.ab, m.out, j);
    OnlyAll(m.out, id, j);
    LocalKeepsPlace(p.l, a);
    PutView(n.a, id, m.v, j);
    hide Put, ViewOf, Only, ForStream, OpenedBy;
    assert Only(n.ab, j) + [] == Only(n.ab, j);
  }

  /** A stream's own step never creates it, stops its session or puts it into the table. */
  lemma LocalKeepsPlace(v: View, a: Action)
    requires !a.Open? && !a.Stop?
    ensures var v' := Local(v, a).v;
            v'.stopped == v.stopped && v'.present == v.present && (v'.inTable ==> v.inTable)
  {
  }

  lemma AbsentUntilOpened(n: Net, id: u32)
    requires NetInv(n) && OpenedBy(n.a.isServer, id) && IndexOf(id) >= n.a.opens
    ensures ViewOf(n.a, id) == Absent(id, n.a.session.stopped)
  {
    assert Inv(Project(n, id), id, OpenedBy(n.a.isServer, id));
  }

  lemma OneSyn(id: u32)
    ensures ForStream([Syn(id)], id)
  {
  }

  lemma OpenProjects(n: Net, j: u32)
    requires NetInv(n) && n.a.opens < MAX_OPENS
    ensures var id := n.a.session.next;
            && OpenedBy(n.a.isServer, id)
            && Project(StepLeft(n, OpenStream), j) == if j == id then LocalLeft(Project(n, id), Open) else Project(n, j)
  {
    hide Inv, IdOf, Truncate32, Only, Conforming, ApplyOutcome, OpenedBy, ForStream;
    var id := n.a.session.next;
    IdRoundTrip(n.a.isServer, n.a.opens);
    AbsentUntilOpened(n, id);
    OnlyAppend(n.ab, [Syn(id)], j);
    OneSyn(id);
    OnlyAll([Syn(id)], id, j);
    AfterOutcome(n.a, Session.OpenStream(n.a.session), j);
    var inbox := ObjectOf(n.a, j).inbox;
    assert inbox + [] == inbox;
  }

  lemma TableHasObjects(n: Net)
    requires NetInv(n)
    ensures n.a.session.table <= n.a.objects.Keys
  {
    forall id | id in n.a.session.table ensures id in n.a.objects {
      assert Inv(Project(n, id), id, OpenedBy(n.a.isServer, id));
    }
  }

  lemma StopProjects(n: Net, j: u32)
    requires NetInv(n)
    ensures Project(StepLeft(n, StopSession), j) == LocalLeft(Project(n, j), Stop)
  {
    hide Inv;
    TableHasObjects(n);
    AfterOutcome(n.a, Session.Stop(n.a.session), j);
    hide ApplyOutcome;
    var inbox := ObjectOf(n.a, j).inbox;
    assert inbox + [] == inbox;
    assert Only(n.ab, j) + [] == Only(n.ab, j);
  }

  lemma PingProjects(fs: seq<Frame>, f: Frame, j: u32)
    requires IsPing(f)
    ensures Only(fs + [f], j) == Only(fs, j)
  {
    OnlyAppend(fs, [f], j);
    assert Only([f], j) == [] + Only([], j);
  }

  /** `handle_frame` does to the frame's stream what `Handle` says, and to other streams nothing. */
  lemma HandleProjects(side: Side, f: Frame, j: u32)
    requires Conforming(f) && !IsPing(f)
    requires side.session.table <= side.objects.Keys
    ensures var o := Session.HandleFrame(side.session, f);
            && o.out == Handle(ViewOf(side, f.h.streamId), f).out
            && ViewOf(ApplyOutcome(side, o), j)
               == if j == f.h.streamId then Handle(ViewOf(side, j), f).v else ViewOf(side, j)
  {
    hide Has, ApplyOutcome;
    var o := Session.HandleFrame(side.session, f);
    AfterOutcome(side, o, j);
    var inbox := ObjectOf(side, j).inbox;
    assert inbox + [] == inbox;
    if j == f.h.streamId {
      var data := if f.body != [] then [DataTask(f.body)] else [];
      var fin := if Has(f.h.flags, FIN) then [CloseTask] else [];
      Assoc(inbox, data, fin);
    }
  }

  lemma ReceivePingProjects(n: Net, j: u32)
    requires !n.a.session.stopped && n.ba != [] && IsPing(n.ba[0])
    ensures Project(StepLeft(n, Receive), j) == Project(n, j)
  {
    hide Has, ApplyOutcome;
    PingProjects(n.ab, Ping(ACK), j);
    AfterOutcome(n.a, Session.HandleFrame(n.a.session, n.ba[0]), j);
    assert n.ab + [] == n.ab;
    var inbox := ObjectOf(n.a, j).inbox;
    assert inbox + [] == inbox;
  }

  lemma OnlyRest(fs: seq<Frame>, j: u32)
    requires fs != []
    ensures if Concerns(fs[0], j) then Only(fs, j) != [] && Only(fs, j)[0] == fs[0] && Only(fs[1..], j) == Only(fs, j)[1..]
            else Only(fs[1..], j) == Only(fs, j)
  {
  }

  /** The replies to a frame go to its own stream. */
  lemma RepliesProject(n: Net, j: u32)
    requires !n.a.session.stopped && n.ba != [] && Conforming(n.ba[0]) && !IsPing(n.ba[0])
    requires n.a.session.table <= n.a.objects.Keys
    ensures var f := n.ba[0];
            Only(n.ab + Session.HandleFrame(n.a.session, f).out, j) ==
            if Concerns(f, j) then Only(n.ab, j) + Handle(ViewOf(n.a, j), f).out else Only(n.ab, j)
  {
    hide Session.HandleFrame, Has, Handle, Only;
    var f := n.ba[0];
    HandleProjects(n.a, f, j);
    var out := Session.HandleFrame(n.a.session, f).out;
    HandleReplies(ViewOf(n.a, f.h.streamId), f);
    OnlyAppend(n.ab, out, j);
    OnlyAll(out, f.h.streamId, j);
    assert Only(n.ab, j) + [] == Only(n.ab, j);
  }

  lemma ReceiveProjects(n: Net, j: u32)
    requires NetInv(n) && !n.a.session.stopped && n.ba != []
    ensures var f := n.ba[0];
            Project(StepLeft(n, Receive), j)
            == if Concerns(f, j) then ReceiveLeft(Project(n, j)) else Project(n, j)
  {
    hide Inv, Session.HandleFrame, ApplyOutcome, Only, Has, Handle, ViewOf;
    var f := n.ba[0];
    assert Conforming(f);
    if IsPing(f) {
      ReceivePingProjects(n, j);
    } else {
      TableHasObjects(n);
      HandleProjects(n.a, f, j);
      RepliesProject(n, j);
      OnlyRest(n.ba, j);
      SameStopped(n.a, j);
      hide IdsOk, AllConforming, Conforming, Session.HandleFrame;
    }
  }

  lemma SameStopped(side: Side, j: u32)
    ensures ViewOf(side, j).stopped == side.session.stopped
  {
  }

  lemma HandleReplies(v: View, f: Frame)
    ensures ForStream(Handle(v, f).out, f.h.streamId)
  {
    assert Conforming(Ack(f.h.streamId));
  }
}
