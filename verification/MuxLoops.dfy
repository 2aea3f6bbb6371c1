/** What the two loops of a stream do to bytes, credit and history, whatever the number of rounds. */
module MuxLoops {
  import opened Bytes
  import opened MuxFrame
  import opened MuxStreamSpec
  import opened MuxPair

  predicate AllPayload(fs: seq<Frame>, id: u32) {
    forall i :: 0 <= i < |fs| ==> IsPayload(fs[i]) && Conforming(fs[i]) && fs[i].h.streamId == id
  }

  predicate AllUpdate(fs: seq<Frame>, id: u32) {
    forall i :: 0 <= i < |fs| ==> IsUpdate(fs[i]) && Conforming(fs[i]) && fs[i].h.streamId == id
  }

  lemma BodiesSnoc(fs: seq<Frame>, f: Frame)
    ensures Bodies(fs + [f]) == Bodies(fs) + f.body
    ensures Credits(fs + [f]) == Credits(fs) + Credit(f)
  {
    BodiesAppend(fs, [f]);
    CreditsAppend(fs, [f]);
    assert Bodies([f]) == f.body + Bodies([]);
    assert Credits([f]) == Credit(f) + Credits([]);
  }

  lemma DeliveredSnoc(log: seq<Completion>, c: Completion)
    ensures Delivered(log + [c]) == Delivered(log) + Result(c)
  {
    DeliveredAppend(log, [c]);
    assert Delivered([c]) == Result(c) + Delivered([]);
  }

  // ---------- the write loop ----------

  /** What a round of `do_write` conserves: bytes (sent, then still pending) and window (used, then left). */
  predicate SendKeeps(e: Effect, r: Effect) {
    && Bodies(r.frames) + Flatten(r.s.pendingWrites) == Bodies(e.frames) + Flatten(e.s.pendingWrites)
    && r.s.window + |Bodies(r.frames)| == e.s.window + |Bodies(e.frames)|
    && Credits(r.frames) == Credits(e.frames)
    && r.s == e.s.(window := r.s.window, pendingWrites := r.s.pendingWrites)
    && (AllPayload(e.frames, e.s.id) ==> AllPayload(r.frames, r.s.id))
  }

  lemma SendOneKeeps(e: Effect)
    requires e.s.pendingWrites != [] && e.s.window > 0
    ensures SendKeeps(e, SendOne(e))
  {
    if e.s.pendingWrites[0] == [] {
      assert Flatten(e.s.pendingWrites) == [] + Flatten(e.s.pendingWrites[1..]);
    } else {
      var f := NextPayload(e.s);
      BodiesSnoc(e.frames, f);
      Assoc(Bodies(e.frames), f.body, Flatten(DropSent(e.s.pendingWrites, SendSize(e.s))));
    }
  }

  lemma {:induction false} WriteLoopKeeps(e: Effect)
    ensures SendKeeps(e, WriteLoop(e))
    ensures WriteLoop(e).s.pendingWrites == [] || WriteLoop(e).s.window == 0
    decreases e.s.window, |e.s.pendingWrites|
  {
    if e.s.pendingWrites != [] && e.s.window > 0 {
      SendOneKeeps(e);
      WriteLoopKeeps(SendOne(e));
    }
  }

  /** `do_write` sends pending bytes in order until they or the window run out. */
  lemma DoWriteFacts(s: Stream)
    ensures var e := DoWrite(s);
            && Bodies(e.frames) + Flatten(e.s.pendingWrites) == Flatten(s.pendingWrites)
            && e.s.window + |Bodies(e.frames)| == s.window
            && Credits(e.frames) == 0
            && e.s == s.(window := e.s.window, pendingWrites := e.s.pendingWrites)
            && (e.s.pendingWrites != [] ==> e.s.window == 0)
            && AllPayload(e.frames, s.id)
  {
    WriteLoopKeeps(Effect(s, [], [], false));
    assert Bodies([]) + Flatten(s.pendingWrites) == Flatten(s.pendingWrites);
  }

  /** A window update adds to the window, up to 1 MiB, and pays for what is then sent. */
  lemma WindowUpdateFacts(s: Stream, delta: u32)
    ensures var e := HandleWindowUpdate(s, delta);
            && e.s.window + |Bodies(e.frames)| == (if s.window + delta <= 0x10_0000 then s.window + delta else 0x10_0000)
            && Bodies(e.frames) + Flatten(e.s.pendingWrites) == Flatten(s.pendingWrites)
            && (e.s.pendingWrites != [] ==> e.s.window == 0)
  {
    DoWriteFacts(s.(window := Min(s.window + delta, MAX_MESSAGE_SIZE)));
  }

  // ---------- the read loop ----------

  /** After a handler has been told of the end there is nothing left to deliver. */
  predicate EndMeansDrained(log: seq<Completion>, s: Stream) {
    && SaneLog(log) && EndIsFinal(log)
    && (EndSeen(log) ==> s.remoteClosed && s.unread == [])
  }

  /** What a round of `do_read_from_buffer` conserves: bytes (delivered, then unread) and credit
      (reported, then consumed but unreported, then unread). `base` is the history before the loop. */
  predicate ReadKeeps(base: seq<Completion>, e: Effect, r: Effect) {
    && Delivered(r.log) + r.s.unread == Delivered(e.log) + e.s.unread
    && Credits(r.frames) + r.s.consumed + |r.s.unread| == Credits(e.frames) + e.s.consumed + |e.s.unread|
    && Bodies(r.frames) == Bodies(e.frames)
    && r.s == e.s.(consumed := r.s.consumed, unread := r.s.unread, pendingReads := r.s.pendingReads)
    && (e.s.consumed < UPDATE_THRESHOLD ==> r.s.consumed < UPDATE_THRESHOLD)
    && (AllUpdate(e.frames, e.s.id) ==> AllUpdate(r.frames, r.s.id))
    && (EndMeansDrained(base + e.log, e.s) ==> EndMeansDrained(base + r.log, r.s))
  }

  lemma EndSeenSnoc(log: seq<Completion>, c: Completion)
    ensures EndSeen(log + [c]) <==> EndSeen(log) || SaysEnd(c)
  {
    var log' := log + [c];
    if EndSeen(log) {
      var i :| 0 <= i < |log| && SaysEnd(log[i]);
      assert log'[i] == log[i];
    }
    if SaysEnd(c) {
      assert log'[|log|] == c;
    }
  }

  lemma EndSnoc(log: seq<Completion>, c: Completion, s: Stream, s': Stream)
    requires EndMeansDrained(log, s) && Sane(c)
    requires EndSeen(log) ==> !c.result.Got? && s'.remoteClosed && s'.unread == []
    requires SaysEnd(c) ==> s'.remoteClosed && s'.unread == []
    ensures EndMeansDrained(log + [c], s')
  {
    EndSeenSnoc(log, c);
    var log' := log + [c];
    forall i, j | 0 <= i < j < |log'| && SaysEnd(log'[i])
      ensures !log'[j].result.Got?
    {
      assert log'[i] == log[i];
      if j < |log| {
        assert log'[j] == log[j];
      }
    }
  }

  lemma CopyKeeps(base: seq<Completion>, e: Effect)
    requires e.s.pendingReads != [] && e.s.unread != [] && !MustWait(e.s)
    ensures var r := CopyOne(e);
            && Delivered(r.log) + r.s.unread == Delivered(e.log) + e.s.unread
            && (EndMeansDrained(base + e.log, e.s) ==> EndMeansDrained(base + r.log, r.s))
            && r.s.consumed + |r.s.unread| == e.s.consumed + |e.s.unread| && r.frames == e.frames
            && r.s == e.s.(consumed := r.s.consumed, unread := r.s.unread, pendingReads := r.s.pendingReads)
  {
    var req := e.s.pendingReads[0];
    var n := Min(req.size, |e.s.unread|);
    var c := Completion(req, Got(e.s.unread[..n]));
    DeliveredSnoc(e.log, c);
    assert e.s.unread == e.s.unread[..n] + e.s.unread[n..];
    Assoc(Delivered(e.log), e.s.unread[..n], e.s.unread[n..]);
    Assoc(base, e.log, [c]);
    if EndMeansDrained(base + e.log, e.s) {
      EndSnoc(base + e.log, c, e.s, CopyOne(e).s);
    }
  }

  lemma EofKeeps(base: seq<Completion>, e: Effect)
    requires e.s.pendingReads != [] && !MustWait(e.s) && e.s.unread == []
    ensures ReadKeeps(base, e, TakeOne(e)) && TakeOne(e).s.consumed == e.s.consumed && TakeOne(e).s.unread == []
  {
    hide EndMeansDrained, AllUpdate;
    var c := Completion(e.s.pendingReads[0], Eof);
    DeliveredSnoc(e.log, c);
    Assoc(base, e.log, [c]);
    if EndMeansDrained(base + e.log, e.s) {
      EofDrained(base + e.log, e.s, c, TakeOne(e).s);
    }
  }

  lemma EofDrained(log: seq<Completion>, s: Stream, c: Completion, s': Stream)
    requires EndMeansDrained(log, s) && c.result.Eof? && s'.remoteClosed && s'.unread == []
    ensures EndMeansDrained(log + [c], s')
  {
    EndSnoc(log, c, s, s');
  }

  lemma DataKeeps(base: seq<Completion>, e: Effect)
    requires e.s.pendingReads != [] && !MustWait(e.s) && e.s.unread != []
    requires e.s.consumed + |e.s.unread| < 0x1_0000_0000
    ensures ReadKeeps(base, e, TakeOne(e)) && TakeOne(e).s.consumed + |TakeOne(e).s.unread| < 0x1_0000_0000
  {
    hide EndMeansDrained, CopyOne, AllUpdate, MustWait, Bodies, Credits;
    CopyKeeps(base, e);
    var m := CopyOne(e);
    ReportKeeps(m);
    SameDrained(base + m.log, m.s, Report(m).s);
    assert TakeOne(e) == Report(m);
  }

  lemma ReportKeeps(e: Effect)
    requires e.s.consumed + |e.s.unread| < 0x1_0000_0000
    ensures var r := Report(e);
            && Credits(r.frames) + r.s.consumed == Credits(e.frames) + e.s.consumed && r.s.consumed < UPDATE_THRESHOLD
            && Bodies(r.frames) == Bodies(e.frames) && r.log == e.log && r.s == e.s.(consumed := r.s.consumed)
            && r.s.consumed <= e.s.consumed && (AllUpdate(e.frames, e.s.id) ==> AllUpdate(r.frames, e.s.id))
  {
    if e.s.consumed >= UPDATE_THRESHOLD {
      BodiesSnoc(e.frames, WindowUpdate(e.s.id, Truncate32(e.s.consumed)));
    }
  }

  lemma SameDrained(log: seq<Completion>, s: Stream, s': Stream)
    requires s'.remoteClosed == s.remoteClosed && s'.unread == s.unread
    ensures EndMeansDrained(log, s) ==> EndMeansDrained(log, s')
  {
  }

  lemma TakeOneKeeps(base: seq<Completion>, e: Effect)
    requires e.s.pendingReads != [] && !MustWait(e.s)
    requires e.s.consumed + |e.s.unread| < 0x1_0000_0000
    ensures ReadKeeps(base, e, TakeOne(e))
    ensures TakeOne(e).s.consumed + |TakeOne(e).s.unread| < 0x1_0000_0000
  {
    hide ReadKeeps;
    if e.s.unread == [] {
      EofKeeps(base, e);
    } else {
      DataKeeps(base, e);
    }
  }

  lemma {:induction false} ReadLoopKeeps(base: seq<Completion>, e: Effect)
    requires e.s.pendingReads != [] ==> e.s.consumed + |e.s.unread| < 0x1_0000_0000
    ensures ReadKeeps(base, e, ReadLoop(e))
    ensures var s := ReadLoop(e).s; s.pendingReads != [] ==> MustWait(s)
    decreases |e.s.pendingReads|
  {
    if e.s.pendingReads != [] && !MustWait(e.s) {
      TakeOneKeeps(base, e);
      ReadLoopKeeps(base, TakeOne(e));
    }
  }

  /** `do_read_from_buffer` hands unread bytes to the waiting reads in order, accounts for every byte
      it hands out, and announces the end only when nothing is left. */
  lemma DoReadFacts(base: seq<Completion>, s: Stream)
    requires s.pendingReads != [] ==> s.consumed + |s.unread| < 0x1_0000_0000
    ensures var e := DoRead(s);
            && Delivered(e.log) + e.s.unread == s.unread
            && Credits(e.frames) + e.s.consumed + |e.s.unread| == s.consumed + |s.unread|
            && Bodies(e.frames) == []
            && e.s == s.(consumed := e.s.consumed, unread := e.s.unread, pendingReads := e.s.pendingReads)
            && (s.consumed < UPDATE_THRESHOLD ==> e.s.consumed < UPDATE_THRESHOLD)
            && AllUpdate(e.frames, s.id)
            && (EndMeansDrained(base, s) ==> EndMeansDrained(base + e.log, e.s))
            && (e.s.pendingReads != [] ==> MustWait(e.s))
            && e.removed == CleanupDue(e.s)
            && (s.pendingReads == [] ==> e == Effect(s, [], [], CleanupDue(s)))
  {
    ReadLoopKeeps(base, Effect(s, [], [], false));
    assert base + [] == base;
    assert Delivered([]) + s.unread == s.unread;
  }
}
