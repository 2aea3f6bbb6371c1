/** What every run of two sessions guarantees, for every stream id and for either direction of the
    stream (`fromLeft` tells which session is the sender). */
module MuxTheorems {
  import opened Bytes
  import opened MuxFrame
  import opened MuxStreamSpec
  import opened MuxPair
  import opened MuxPairProofs
  import opened MuxNet
  import opened MuxNetInv
  import Session = MuxSessionSpec

  /** The stream `id` after a run, with the sender of the direction in question on the left. */
  function Stream(steps: seq<Step>, id: u32, fromLeft: bool): Pair {
    var p := Project(Run(steps), id);
    if fromLeft then p else Mirror(p)
  }

  lemma StreamInv(steps: seq<Step>, id: u32, fromLeft: bool)
    ensures Inv(Stream(steps, id, fromLeft), id, OpenedBy(!fromLeft, id))
  {
    hide Inv;
    EveryRunKeepsInv(steps);
    RunSides(steps);
    var n := Run(steps);
    assert Inv(Project(n, id), id, OpenedBy(n.a.isServer, id));
    MirrorInv(Project(n, id), id, OpenedBy(n.a.isServer, id));
  }

  lemma {:induction false} RunSides(steps: seq<Step>)
    ensures !Run(steps).a.isServer && Run(steps).b.isServer
  {
    if steps != [] {
      RunSides(steps[..|steps| - 1]);
      SidesKept(Run(steps[..|steps| - 1]), steps[|steps| - 1]);
      hide Next;
    }
  }

  lemma SidesKept(n: Net, step: Step)
    ensures Next(n, step).a.isServer == n.a.isServer && Next(n, step).b.isServer == n.b.isServer
  {
    hide Local, Session.HandleFrame;
  }

  // ---------- the byte pipe ----------

  /** The bytes read from a stream are always a prefix of the bytes written to it at the other end. Writes are values
      here, where the source queues pointers into the writer's buffers: the lemma is about writers that leave a buffer
      unchanged until every frame cut from it has left the session's write queue, even when `close` has called the
      handler of a partly sent write before that (src/common/mux.cpp:192-202 and 267-273). */
  lemma BytePipe(steps: seq<Step>, id: u32, fromLeft: bool)
    ensures var p := Stream(steps, id, fromLeft); Delivered(p.r.log) <= p.l.written
  {
    StreamInv(steps, id, fromLeft);
    var p := Stream(steps, id, fromLeft);
    PrefixTrans(Delivered(p.r.log), p.l.sent, p.l.written);
  }

  /** While neither end has closed, each written byte is in exactly one place, in order: read, unread,
      posted to the reader's strand, on the link, or waiting for the window. */
  lemma NothingLost(steps: seq<Step>, id: u32, fromLeft: bool)
    ensures var p := Stream(steps, id, fromLeft);
            !p.l.s.localClosed && !p.r.s.localClosed ==>
              p.l.written == Delivered(p.r.log) + (p.r.s.unread + (TaskData(p.r.inbox) + Bodies(p.lr)))
                             + Flatten(p.l.s.pendingWrites)
  {
    StreamInv(steps, id, fromLeft);
  }

  /** A reader that was told of the end has had every byte the writer's side sent, the writer has closed,
      and it never gets data again, unless its own session was stopped. */
  lemma EndIsComplete(steps: seq<Step>, id: u32, fromLeft: bool)
    ensures var p := Stream(steps, id, fromLeft);
            && SaneLog(p.r.log) && EndIsFinal(p.r.log)
            && (EndSeen(p.r.log) && !p.r.stopped ==>
                  Delivered(p.r.log) == p.l.sent && p.l.s.localClosed && p.lr == [] && TaskData(p.r.inbox) == [])
  {
    StreamInv(steps, id, fromLeft);
    var p := Stream(steps, id, fromLeft);
    if EndSeen(p.r.log) && !p.r.stopped {
      NoTaskData(p.r.inbox);
    }
  }

  // ---------- credit ----------

  /** Credit is conserved exactly until the reader closes. */
  lemma CreditConserved(steps: seq<Step>, id: u32, fromLeft: bool)
    ensures var p := Stream(steps, id, fromLeft);
            !p.r.s.localClosed ==>
              p.l.s.window + |Bodies(p.lr)| + |TaskData(p.r.inbox)| + |p.r.s.unread| + p.r.s.consumed
              + Credits(p.rl) + TaskCredits(p.l.inbox) == 128 * 1024
  {
    hide Stream, TaskData, TaskCredits, Bodies, Credits;
    StreamInv(steps, id, fromLeft);
  }

  /** So unread data never exceeds 128 KiB, and fewer than 32 KiB stay unreported. */
  lemma UnreadBounded(steps: seq<Step>, id: u32, fromLeft: bool)
    ensures var p := Stream(steps, id, fromLeft);
            !p.r.s.localClosed ==> |p.r.s.unread| + p.r.s.consumed <= 128 * 1024 && p.r.s.consumed < 32 * 1024
  {
    CreditConserved(steps, id, fromLeft);
    StreamInv(steps, id, fromLeft);
  }

  /** The 1 MiB cap on the window never changes its value. */
  lemma WindowCapIdle(steps: seq<Step>, id: u32, fromLeft: bool)
    ensures var p := Stream(steps, id, fromLeft);
            p.l.inbox != [] && p.l.inbox[0].UpdateTask? ==>
              Min(p.l.s.window + p.l.inbox[0].delta, MAX_MESSAGE_SIZE) == p.l.s.window + p.l.inbox[0].delta
  {
    StreamInv(steps, id, fromLeft);
  }

  lemma {:induction false} BodyBound(fs: seq<Frame>, i: nat)
    requires i < |fs|
    ensures |fs[i].body| <= |Bodies(fs)|
  {
    if i > 0 {
      BodyBound(fs[1..], i - 1);
    }
  }

  lemma {:induction false} InOnly(fs: seq<Frame>, i: nat) returns (j: nat)
    requires i < |fs| && fs[i].h.kind != PING
    ensures j < |Only(fs, fs[i].h.streamId)| && Only(fs, fs[i].h.streamId)[j] == fs[i]
  {
    var id := fs[i].h.streamId;
    if i == 0 {
      j := 0;
    } else {
      j := InOnly(fs[1..], i - 1);
      if Concerns(fs[0], id) {
        j := j + 1;
      }
    }
  }

  /** The frames a run has put on the link towards the right or the left session. */
  function Link(steps: seq<Step>, fromLeft: bool): seq<Frame> {
    if fromLeft then Run(steps).ab else Run(steps).ba
  }

  /** No frame on the link carries more than 128 KiB, and none makes the reader give up. */
  lemma FramesBounded(steps: seq<Step>, fromLeft: bool, i: nat)
    requires i < |Link(steps, fromLeft)|
    ensures var f := Link(steps, fromLeft)[i];
            WellFormed(f) && |f.body| <= 128 * 1024 && |Wire(f)| <= 128 * 1024 + 12
  {
    EveryRunKeepsInv(steps);
    var fs := Link(steps, fromLeft);
    var f := fs[i];
    assert Conforming(f);
    if !IsPing(f) {
      var j := InOnly(fs, i);
      StreamInv(steps, f.h.streamId, fromLeft);
      BodyBound(Only(fs, f.h.streamId), j);
    }
  }

  // ---------- no stall ----------

  /** Nothing of the stream is in transit and no task of it is waiting to run. */
  predicate Quiet(p: Pair) {
    p.lr == [] && p.rl == [] && p.l.inbox == [] && p.r.inbox == []
  }

  predicate BothOpen(p: Pair) {
    && p.l.present && !p.l.s.localClosed && !p.l.s.remoteClosed
    && p.r.present && !p.r.s.localClosed && !p.r.s.remoteClosed
  }

  /** A quiet stream with bytes waiting at the writer and a read waiting at the reader: nothing will move. */
  predicate Stuck(p: Pair) {
    Quiet(p) && BothOpen(p) && Flatten(p.l.s.pendingWrites) != [] && p.r.s.pendingReads != []
  }

  /** One more than the 128 KiB of credit less the 32767 bytes that can be consumed but unreported. */
  const STALL_SIZE: nat := 98306

  /** Only an `async_read` of at least that many bytes can be left waiting. */
  lemma NoStall(steps: seq<Step>, id: u32, fromLeft: bool)
    ensures var p := Stream(steps, id, fromLeft);
            Stuck(p) ==> p.r.s.pendingReads[0].all && p.r.s.pendingReads[0].size >= STALL_SIZE
  {
    StreamInv(steps, id, fromLeft);
  }

  // ---------- lifecycle ----------

  /** The head of the link is the head of its stream's part of the link. */
  lemma HeadOfStream(steps: seq<Step>, fromLeft: bool)
    requires Link(steps, fromLeft) != []
    ensures var f := Link(steps, fromLeft)[0];
            var p := Stream(steps, f.h.streamId, !fromLeft);
            var receiver := if fromLeft then Run(steps).b else Run(steps).a;
            && Conforming(f)
            && (!IsPing(f) ==> p.rl != [] && p.rl[0] == f)
            && p.l.inTable == (f.h.streamId in receiver.session.table)
            && p.l.stopped == receiver.session.stopped
  {
    EveryRunKeepsInv(steps);
    hide Inv, Run;
  }

  /** A payload, FIN, ACK or window update always finds its stream in the table. */
  lemma FramesFindTheirStream(steps: seq<Step>, fromLeft: bool)
    requires Link(steps, fromLeft) != []
    ensures var f := Link(steps, fromLeft)[0];
            var receiver := if fromLeft then Run(steps).b else Run(steps).a;
            !receiver.session.stopped && !IsPing(f) && !IsSyn(f) ==> f.h.streamId in receiver.session.table
  {
    hide Stream, Link, Run, IsPing, IsSyn, Conforming, Inv;
    var f := Link(steps, fromLeft)[0];
    var id := f.h.streamId;
    var p := Stream(steps, id, !fromLeft);
    HeadOfStream(steps, fromLeft);
    StreamInv(steps, id, !fromLeft);
    if !p.l.stopped && !IsPing(f) && !IsSyn(f) {
      FrameMeetsStream(p, id, OpenedBy(fromLeft, id));
    }
  }

  /** The first frame of a stream is its SYN; after a FIN nothing follows. */
  lemma SynFirstFinLast(steps: seq<Step>, id: u32, fromLeft: bool)
    ensures var p := Stream(steps, id, fromLeft);
            && (p.l.present && !p.r.present ==> p.lr != [] && IsSyn(p.lr[0]) && NoSyn(p.lr[1..]))
            && (p.r.present ==> NoSyn(p.lr))
            && (p.l.s.localClosed && p.lr != [] ==> FinLast(p.lr))
            && (!p.l.s.localClosed ==> NoFin(p.lr))
  {
    StreamInv(steps, id, fromLeft);
  }

  /** Until `stop`, a stream is in the table exactly until both ends have closed and nothing is unread. */
  lemma TableMembership(steps: seq<Step>, id: u32, fromLeft: bool)
    ensures var v := Stream(steps, id, fromLeft).l;
            v.present && !v.stopped ==>
              (v.inTable <==> !(v.s.localClosed && v.s.remoteClosed && v.s.unread == []))
  {
    StreamInv(steps, id, fromLeft);
  }

  /** Two streams opened by the same session get the same id exactly when their numbers differ by a
      multiple of 2^31; streams opened by different sessions never do. */
  lemma IdsCollideOnlyOnWrap(s: bool, i: nat, t: bool, j: nat)
    ensures IdOf(s, i) == IdOf(t, j) <==> s == t && (i - j) % MAX_OPENS == 0
  {
    if s == t {
      var d: int := i - j;
      WrapDivides(2 * i + (if s then 2 else 1), 2 * j + (if s then 2 else 1), d);
    } else {
      IdParity(s, i);
      IdParity(t, j);
      hide IdOf;
    }
  }

  lemma IdParity(s: bool, i: nat)
    ensures IdOf(s, i) % 2 == if s then 0 else 1
  {
  }

  lemma WrapDivides(a: nat, b: nat, d: int)
    requires a - b == 2 * d
    ensures a % 0x1_0000_0000 == b % 0x1_0000_0000 <==> d % MAX_OPENS == 0
  {
    var qa, qb := a / 0x1_0000_0000, b / 0x1_0000_0000;
    if a % 0x1_0000_0000 == b % 0x1_0000_0000 {
      assert 2 * d == 0x1_0000_0000 * (qa - qb);
      assert d == MAX_OPENS * (qa - qb);
    }
  }
}
