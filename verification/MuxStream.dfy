/** `MuxStream` as the program runs it: a queue of received blocks with an offset into the first,
    scatter lists sliced on partial sends, and handlers called in order. Every method is proved to
    compute the matching function of `MuxStreamSpec` on the flattened state. */
module MuxStream {
  import opened Bytes
  import opened MuxFrame
  import Spec = MuxStreamSpec

  /** The body of a received payload frame is never empty. */
  type Block = b: bytes | b != [] witness [0]

  /** Scatter list of one write, flattened. */
  ghost function FlattenEach(ws: seq<seq<bytes>>): (r: seq<bytes>)
    ensures |r| == |ws|
  {
    seq(|ws|, i requires 0 <= i < |ws| => Flatten(ws[i]))
  }

  /** Replacing the head write by what is left of it, or dropping it when nothing is. */
  lemma DropFromHead(ws: seq<seq<bytes>>, rest: seq<bytes>, n: nat)
    requires ws != [] && n <= |Flatten(ws[0])|
    ensures n == |Flatten(ws[0])| ==> FlattenEach(ws[1..]) == Spec.DropSent(FlattenEach(ws), n)
    ensures n < |Flatten(ws[0])| && Flatten(rest) == Flatten(ws[0])[n..] ==>
              FlattenEach(ws[0 := rest]) == Spec.DropSent(FlattenEach(ws), n)
  {
    hide Flatten;
    assert FlattenEach(ws)[0] == Flatten(ws[0]);
    assert FlattenEach(ws[1..]) == FlattenEach(ws)[1..];
    if n < |Flatten(ws[0])| && Flatten(rest) == Flatten(ws[0])[n..] {
      assert FlattenEach(ws[0 := rest]) == [Flatten(rest)] + FlattenEach(ws)[1..];
    }
  }

  lemma FlattenTail(ss: seq<bytes>, i: nat)
    requires i < |ss|
    ensures Flatten(ss[i..]) == ss[i] + Flatten(ss[i + 1..])
  {
    assert ss[i..][1..] == ss[i + 1..];
  }

  /** Total number of bytes in a scatter list. */
  method TotalLength(buffers: seq<bytes>) returns (n: nat)
    ensures n == |Flatten(buffers)|
  {
    n := 0;
    for i := 0 to |buffers|
      invariant n + |Flatten(buffers[i..])| == |Flatten(buffers)|
    {
      FlattenTail(buffers, i);
      n := n + |buffers[i]|;
    }
  }

  /** The first `n` bytes of a scatter list, as a scatter list. */
  method Slice(buffers: seq<bytes>, n: nat) returns (sliced: seq<bytes>)
    requires n <= |Flatten(buffers)|
    ensures Flatten(sliced) == Flatten(buffers)[..n]
  {
    sliced := [];
    var remaining: nat := n;
    var i := 0;
    while i < |buffers| && remaining != 0
      invariant 0 <= i <= |buffers|
      invariant remaining <= |Flatten(buffers[i..])|
      invariant Flatten(sliced) + Flatten(buffers[i..])[..remaining] == Flatten(buffers)[..n]
    {
      FlattenTail(buffers, i);
      var take := Min(remaining, |buffers[i]|);
      FlattenSnoc(sliced, buffers[i][..take]);
      assert Flatten(buffers[i..])[..remaining]
          == buffers[i][..take] + Flatten(buffers[i + 1..])[..remaining - take];
      sliced := sliced + [buffers[i][..take]];
      remaining := remaining - take;
      i := i + 1;
    }
  }

  /** What is left of a scatter list after its first `n` bytes, without empty leading entries. */
  method Skip(buffers: seq<bytes>, n: nat) returns (rest: seq<bytes>)
    requires n <= |Flatten(buffers)|
    ensures Flatten(rest) == Flatten(buffers)[n..]
  {
    rest := [];
    var skipped: nat := n;
    for i := 0 to |buffers|
      invariant skipped <= |Flatten(buffers[i..])|
      invariant skipped > 0 ==> rest == []
      invariant Flatten(rest) + Flatten(buffers[i..])[skipped..] == Flatten(buffers)[n..]
    {
      FlattenTail(buffers, i);
      if skipped >= |buffers[i]| {
        assert Flatten(buffers[i..])[skipped..] == Flatten(buffers[i + 1..])[skipped - |buffers[i]|..];
        skipped := skipped - |buffers[i]|;
      } else {
        FlattenSnoc(rest, buffers[i][skipped..]);
        assert Flatten(buffers[i..])[skipped..] == buffers[i][skipped..] + Flatten(buffers[i + 1..]);
        rest := rest + [buffers[i][skipped..]];
        skipped := 0;
      }
    }
  }

  /** The unread bytes of a block queue, from `offset` into its first block on. */
  ghost function Rest(queue: seq<Block>, offset: nat): bytes
    requires queue != [] ==> offset <= |queue[0]|
  {
    if queue == [] then [] else queue[0][offset..] + Flatten(queue[1..])
  }

  ghost predicate InQueue(queue: seq<Block>, offset: nat) {
    if queue == [] then offset == 0 else offset < |queue[0]|
  }

  lemma RestNext(queue: seq<Block>)
    requires queue != []
    ensures Rest(queue, |queue[0]|) == Rest(queue[1..], 0)
  {
    if |queue| > 1 {
      assert queue[1..][0] == queue[1] && queue[1][0..] == queue[1];
    }
  }

  /** Copying `n` bytes out of the first block moves them from the unread bytes to the copied ones. */
  lemma CopyStep(copied: bytes, queue: seq<Block>, offset: nat, n: nat)
    requires queue != [] && offset + n <= |queue[0]|
    ensures copied + queue[0][offset..offset + n] + Rest(queue, offset + n) == copied + Rest(queue, offset)
  {
    var taken, left, tail := queue[0][offset..offset + n], queue[0][offset + n..], Flatten(queue[1..]);
    assert queue[0][offset..] == taken + left;
    Assoc(taken, left, tail);
    Assoc(copied, taken, left + tail);
  }

  lemma RestAppend(queue: seq<Block>, offset: nat, data: bytes)
    requires if queue == [] then offset == 0 else offset <= |queue[0]|
    requires data != []
    ensures Rest(queue + [data], offset) == Rest(queue, offset) + data
    ensures Flatten(queue + [data]) == Flatten(queue) + data
  {
    FlattenSnoc(queue, data);
    if queue == [] {
      assert Flatten([data][1..]) == [];
    } else {
      FlattenSnoc(queue[1..], data);
      assert (queue + [data])[1..] == queue[1..] + [data];
    }
  }

  /** Moves the offset past `n` bytes of the first block, and drops the block once it is used up. */
  method Advance(queue: seq<Block>, offset: nat, n: nat) returns (queue': seq<Block>, offset': nat)
    requires queue != [] && offset + n <= |queue[0]|
    ensures InQueue(queue', offset')
    ensures Rest(queue', offset') == Rest(queue, offset + n)
  {
    queue', offset' := queue, offset + n;
    if offset' == |queue[0]| {
      RestNext(queue);
      queue', offset' := queue[1..], 0;
    }
  }

  /** The copy loop for one request: drains a block queue into a buffer of `size` bytes. */
  method Drain(queue: seq<Block>, offset: nat, size: nat)
    returns (copied: bytes, queue': seq<Block>, offset': nat)
    requires InQueue(queue, offset)
    ensures InQueue(queue', offset')
    ensures var all := Rest(queue, offset);
            var n := Min(size, |all|);
            copied == all[..n] && Rest(queue', offset') == all[n..]
  {
    copied, queue', offset' := [], queue, offset;
    var remaining: nat := size;
    while remaining > 0 && queue' != []
      invariant InQueue(queue', offset')
      invariant |copied| + remaining == size
      invariant copied + Rest(queue', offset') == Rest(queue, offset)
      decreases remaining
    {
      var block := queue'[0];
      var toCopy := Min(remaining, |block| - offset');
      CopyStep(copied, queue', offset', toCopy);
      copied := copied + block[offset'..offset' + toCopy];
      remaining := remaining - toCopy;
      queue', offset' := Advance(queue', offset', toCopy);
    }
    SplitConcat(copied, Rest(queue', offset'), |copied|);
  }

  class MuxStream {
    const id: u32
    var remoteWindowSize: nat
    var consumedSinceLastUpdate: nat
    var readQueue: seq<Block>
    var readQueueOffset: nat
    var pendingReads: seq<Spec.ReadReq>
    var pendingWrites: seq<seq<bytes>>
    var localClosed: bool
    var remoteClosed: bool
    // Effects on the outside: frames given to the session, read handlers called, and whether
    // the session has been told to forget this stream.
    var sent: seq<Frame>
    var completed: seq<Spec.Completion>
    var removed: bool

    /** After a local close the offset is stale, and nobody looks at it again. */
    ghost predicate Valid()
      reads this
    {
      && (localClosed ==> pendingReads == [] && pendingWrites == [])
      && (!localClosed ==> InQueue(readQueue, readQueueOffset))
    }

    ghost function Unread(): bytes
      reads `localClosed, `readQueue, `readQueueOffset
      requires !localClosed && readQueue != [] ==> readQueueOffset <= |readQueue[0]|
    {
      if localClosed then Flatten(readQueue) else Rest(readQueue, readQueueOffset)
    }

    ghost function State(): Spec.Stream
      reads this
      requires Valid()
    {
      Spec.Stream(id, remoteWindowSize, consumedSinceLastUpdate, Unread(), pendingReads,
                  FlattenEach(pendingWrites), localClosed, remoteClosed)
    }

    /** The state and the effects after an operation are those of `e`. */
    twostate predicate Performed(e: Spec.Effect)
      reads this
      requires Valid()
    {
      && State() == e.s
      && sent == old(sent) + e.frames
      && completed == old(completed) + e.log
      && removed == (old(removed) || e.removed)
    }

    constructor (id: u32)
      ensures Valid() && State() == Spec.NewStream(id)
      ensures sent == [] && completed == [] && !removed
    {
      this.id := id;
      remoteWindowSize, consumedSinceLastUpdate := Spec.INITIAL_WINDOW, 0;
      readQueue, readQueueOffset := [], 0;
      pendingReads, pendingWrites := [], [];
      localClosed, remoteClosed := false, false;
      sent, completed, removed := [], [], false;
    }

    /** Sends as much of the head write as the window and the frame limit allow. */
    method SendHead(totalLength: nat)
      requires Valid() && pendingWrites != [] && remoteWindowSize > 0
      requires totalLength == |Flatten(pendingWrites[0])| > 0
      modifies `remoteWindowSize, `pendingWrites, `sent
      ensures Valid() && sent == old(sent) + [Spec.NextPayload(old(State()))]
      ensures State() == Spec.AfterSend(old(State()))
    {
      var buffers := pendingWrites[0];
      var toSend := Min(Min(totalLength, remoteWindowSize), MAX_MESSAGE_SIZE);
      var sliced := Slice(buffers, toSend);
      assert State().pendingWrites[0] == Flatten(buffers) && Spec.SendSize(State()) == toSend;
      hide Flatten, FlattenEach, Spec.DropSent, Rest, Spec.SendSize;
      remoteWindowSize := remoteWindowSize - toSend;
      DropFromHead(pendingWrites, [], toSend);
      if toSend < totalLength {
        var rest := Skip(buffers, toSend);
        DropFromHead(pendingWrites, rest, toSend);
        pendingWrites := pendingWrites[0 := rest];
      } else {
        pendingWrites := pendingWrites[1..];
      }
      sent := sent + [Payload(id, Flatten(sliced))];
    }

    method DoWrite()
      requires Valid()
      modifies `remoteWindowSize, `pendingWrites, `sent
      ensures Valid() && Performed(Spec.DoWrite(old(State())))
    {
      ghost var e := Spec.Effect(State(), [], [], false);
      while pendingWrites != [] && remoteWindowSize > 0
        invariant Valid() && State() == e.s && e.log == [] && !e.removed
        invariant sent == old(sent) + e.frames
        invariant Spec.WriteLoop(e) == Spec.DoWrite(old(State()))
        decreases remoteWindowSize, |pendingWrites|
      {
        var totalLength := TotalLength(pendingWrites[0]);
        if totalLength == 0 {
          pendingWrites := pendingWrites[1..];
          assert State().pendingWrites == e.s.pendingWrites[1..];
        } else {
          SendHead(totalLength);
        }
        e := Spec.SendOne(e);
      }
    }

    method CheckCleanup()
      requires Valid()
      modifies `removed
      ensures Valid() && State() == old(State())
      ensures removed == (old(removed) || Spec.CleanupDue(State()))
    {
      assert readQueue != [] ==> |Flatten(readQueue)| >= |readQueue[0]| > 0;
      if localClosed && remoteClosed && readQueue == [] {
        removed := true;
      }
      assert Unread() == old(Unread());
      assert localClosed ==> (Unread() == [] <==> readQueue == []);
    }

    /** How many unread bytes the block queue holds. */
    method Available() returns (n: nat)
      requires Valid() && !localClosed && readQueue != []
      ensures n == |Unread()|
    {
      n := TotalLength(readQueue);
      n := n - readQueueOffset;
    }

    /** The effects so far, since `sent` was `sent0` and `completed` was `completed0`, are those of `e`. */
    ghost predicate Matches(e: Spec.Effect, sent0: seq<Frame>, completed0: seq<Spec.Completion>)
      reads this
    {
      && Valid() && State() == e.s
      && sent == sent0 + e.frames
      && completed == completed0 + e.log
    }

    /** Completes the head request from the block queue. */
    method CompleteHead(ghost e: Spec.Effect, ghost sent0: seq<Frame>, ghost completed0: seq<Spec.Completion>)
      requires Matches(e, sent0, completed0) && pendingReads != [] && !localClosed
      modifies `readQueue, `readQueueOffset, `consumedSinceLastUpdate, `pendingReads, `completed
      ensures Matches(Spec.CopyOne(e), sent0, completed0)
    {
      hide Flatten, FlattenEach, Rest;
      var pr := pendingReads[0];
      var copied;
      copied, readQueue, readQueueOffset := Drain(readQueue, readQueueOffset, pr.size);
      pendingReads := pendingReads[1..];
      completed := completed + [Spec.Completion(pr, Spec.Got(copied))];
      consumedSinceLastUpdate := consumedSinceLastUpdate + |copied|;
      Assoc(completed0, e.log, [Spec.Completion(pr, Spec.Got(copied))]);
    }

    /** Sends a window update once enough bytes have been consumed. */
    method ReportConsumed(ghost e: Spec.Effect, ghost sent0: seq<Frame>, ghost completed0: seq<Spec.Completion>)
      requires Matches(e, sent0, completed0)
      modifies `consumedSinceLastUpdate, `sent
      ensures Matches(Spec.Report(e), sent0, completed0)
    {
      if consumedSinceLastUpdate >= Spec.UPDATE_THRESHOLD {
        sent := sent + [WindowUpdate(id, Truncate32(consumedSinceLastUpdate))];
        Assoc(sent0, e.frames, [WindowUpdate(id, Truncate32(consumedSinceLastUpdate))]);
        consumedSinceLastUpdate := 0;
      }
    }

    /** The head request meets the end of the stream. */
    method CompleteAtEof(ghost e: Spec.Effect, ghost sent0: seq<Frame>, ghost completed0: seq<Spec.Completion>)
      requires Matches(e, sent0, completed0) && pendingReads != [] && Unread() == []
      modifies `pendingReads, `completed
      ensures Matches(Spec.TakeOne(e), sent0, completed0)
    {
      var pr := pendingReads[0];
      pendingReads := pendingReads[1..];
      completed := completed + [Spec.Completion(pr, Spec.Eof)];
      Assoc(completed0, e.log, [Spec.Completion(pr, Spec.Eof)]);
    }

    /** One turn of the loop in `do_read_from_buffer`; `blocked` where the source breaks out of it. */
    method ServeHead(ghost e: Spec.Effect, ghost sent0: seq<Frame>, ghost completed0: seq<Spec.Completion>)
      returns (blocked: bool)
      requires Matches(e, sent0, completed0) && pendingReads != []
      modifies `readQueue, `readQueueOffset, `consumedSinceLastUpdate, `pendingReads, `sent, `completed
      ensures blocked == Spec.MustWait(e.s)
      ensures Matches(if blocked then e else Spec.TakeOne(e), sent0, completed0)
    {
      var pr := pendingReads[0];
      if readQueue == [] {
        if !remoteClosed {
          return true;
        }
        CompleteAtEof(e, sent0, completed0);
      } else {
        if pr.all {
          var available := Available();
          if available < pr.size && !remoteClosed {
            return true;
          }
        }
        CompleteHead(e, sent0, completed0);
        ReportConsumed(Spec.CopyOne(e), sent0, completed0);
      }
      return false;
    }

    method DoReadFromBuffer()
      requires Valid()
      modifies `readQueue, `readQueueOffset, `consumedSinceLastUpdate, `pendingReads, `sent, `completed, `removed
      ensures Valid() && Performed(Spec.DoRead(old(State())))
    {
      hide Flatten, FlattenEach, Rest;
      ghost var e := Spec.Effect(State(), [], [], false);
      while pendingReads != []
        invariant Matches(e, old(sent), old(completed)) && removed == old(removed)
        invariant Spec.ReadLoop(e) == Spec.DoRead(old(State()))
        decreases |pendingReads|
      {
        var blocked := ServeHead(e, old(sent), old(completed));
        if blocked {
          break;
        }
        e := Spec.TakeOne(e);
      }
      CheckCleanup();
    }

    method AsyncRead(req: Spec.ReadReq)
      requires Valid() && !localClosed
      modifies this
      ensures Valid() && Performed(Spec.AsyncRead(old(State()), req))
      ensures |old(pendingReads)| >= 1024 ==>
                completed == old(completed) + [Spec.Completion(req, Spec.NoBufferSpace)] && pendingReads == old(pendingReads)
    {
      if |pendingReads| >= Spec.MAX_PENDING {
        completed := completed + [Spec.Completion(req, Spec.NoBufferSpace)];
        return;
      }
      pendingReads := pendingReads + [req];
      DoReadFromBuffer();
    }

    method AsyncWrite(buffers: seq<bytes>) returns (accepted: bool)
      requires Valid() && !localClosed
      modifies this
      ensures Valid() && Performed(Spec.AsyncWrite(old(State()), Flatten(buffers)))
      ensures accepted == Spec.WriteAccepted(old(State())) == (|old(pendingWrites)| < 1024)
    {
      accepted := |pendingWrites| < Spec.MAX_PENDING;
      if accepted {
        ghost var before := State();
        pendingWrites := pendingWrites + [buffers];
        assert State().pendingWrites == before.pendingWrites + [Flatten(buffers)];
        DoWrite();
      }
    }

    method HandleData(data: Block)
      requires Valid()
      modifies this
      ensures Valid() && Performed(Spec.HandleData(old(State()), data))
    {
      ghost var before := State();
      if localClosed {
        FlattenSnoc(readQueue, data);
      } else {
        RestAppend(readQueue, readQueueOffset, data);
      }
      readQueue := readQueue + [data];
      assert State().unread == before.unread + data;
      DoReadFromBuffer();
    }

    method HandleWindowUpdate(delta: u32)
      requires Valid()
      modifies this
      ensures Valid() && Performed(Spec.HandleWindowUpdate(old(State()), delta))
    {
      remoteWindowSize := Min(remoteWindowSize + delta, MAX_MESSAGE_SIZE);
      DoWrite();
    }

    method HandleClose()
      requires Valid()
      modifies this
      ensures Valid() && Performed(Spec.HandleClose(old(State())))
    {
      remoteClosed := true;
      DoReadFromBuffer();
      CheckCleanup();
    }

    /** Calls every pending read handler with `operation_aborted`, in order. */
    method AbortReads()
      modifies `completed
      ensures completed == old(completed) + Spec.Aborts(pendingReads)
    {
      for i := 0 to |pendingReads|
        invariant completed + Spec.Aborts(pendingReads[i..]) == old(completed) + Spec.Aborts(pendingReads)
      {
        assert pendingReads[i..][1..] == pendingReads[i + 1..];
        var aborted := Spec.Completion(pendingReads[i], Spec.Aborted);
        Assoc(completed, [aborted], Spec.Aborts(pendingReads[i + 1..]));
        completed := completed + [aborted];
      }
    }

    method Close()
      requires Valid()
      modifies this
      ensures Valid() && Performed(Spec.Close(old(State())))
    {
      if localClosed {
        return;
      }
      localClosed := true;
      sent := sent + [Fin(id)];
      AbortReads();
      pendingReads, pendingWrites, readQueue := [], [], [];
      CheckCleanup();
    }
  }
}
