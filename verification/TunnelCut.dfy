/** What the far service gets when a stream ends inside the body of a packet: over every run, exactly when its output is
    still a prefix. */
module TunnelCut {
  import opened Bytes
  import opened MuxStreamSpec
  import opened MuxPair
  import opened BridgeSpec
  import opened EndToEnd
  import MuxNet
  import Stack = LinkStack

  type Pool = nat -> (nat -> byte)

  // ---------- the read that cuts ----------

  /** A stream that has been closed completes an `async_read` short, without an error. */
  lemma ShortReadSucceeds(s: Stream, n: nat)
    requires s.remoteClosed && s.pendingReads == [] && 0 < |s.unread| < n && s.consumed < UPDATE_THRESHOLD
    ensures AsyncRead(s, ReadReq(n, true)).log == [Completion(ReadReq(n, true), Got(s.unread))]
  {
    var e := Effect(s.(pendingReads := [ReadReq(n, true)]), [], [], false);
    assert s.pendingReads + [ReadReq(n, true)] == [ReadReq(n, true)];
    assert s.unread[..|s.unread|] == s.unread;
    assert ReadLoop(e) == ReadLoop(TakeOne(e));
  }

  /** Reads that deliver nothing add nothing to the output. */
  lemma {:induction false} OutputStays(codec: Codec, pool: Pool, log: seq<Completion>, i: nat)
    requires i <= |log| && forall j :: i <= j < |log| ==> !log[j].result.Got?
    ensures After(codec, pool, log).out == After(codec, pool, log[..i]).out
    decreases |log|
  {
    if i == |log| {
      assert log[..i] == log;
    } else {
      var before := log[..|log| - 1];
      assert before[..i] == log[..i];
      hide OnResult;
      OutputStays(codec, pool, before, i);
      HaltsOn(codec, pool(|log| - 1), After(codec, pool, before), log[|log| - 1].result);
    }
  }

  /** `Body` of chunk `k` is the next thing on the stream behind its header. */
  lemma NextBody(codec: Codec, chunks: seq<bytes>, k: nat, delivered: bytes, data: bytes)
    requires Chunks(chunks) && k < |chunks| && delivered == Packets(codec, chunks[..k]) + HeaderBytes(codec, chunks[k])
    requires delivered + data <= Packets(codec, chunks) && |data| <= |Body(codec, chunks[k])|
    ensures data <= Body(codec, chunks[k])
  {
    PacketsSplit(codec, chunks, k);
    assert chunks[k..][0] == chunks[k];
    var word, body, tail := HeaderBytes(codec, chunks[k]), Body(codec, chunks[k]), Packets(codec, chunks[k..][1..]);
    Assoc(word, body, tail);
    Assoc(Packets(codec, chunks[..k]), word, body + tail);
    PrefixCancel(delivered, data, body + tail);
  }

  /** Where the far bridge is when a read cuts a body, and what it writes out because of it. */
  lemma CutFacts(codec: Codec, pool: Pool, log: seq<Completion>, chunks: seq<bytes>, i: nat) returns (k: nat)
    requires Faithful(codec) && Chunks(chunks) && Obeys(codec, pool, log) && EndIsFinal(log) && SaneLog(log)
    requires Delivered(log) <= Packets(codec, chunks) && CutAt(codec, pool, log, i)
    ensures k < |chunks| && log[i].result.data <= Body(codec, chunks[k])
    ensures |log[i].result.data| < |Body(codec, chunks[k])|
    ensures var u := After(codec, pool, log[..i]);
            && u.out == Flatten(chunks[..k]) && u.phase == AwaitBody(|Body(codec, chunks[k])|, Shrinks(codec, chunks[k]))
            && After(codec, pool, log).out == OnResult(codec, pool(i), u, log[i].result).out
    ensures forall j :: i < j < |log| ==> !log[j].result.Got?
  {
    hide After, Packets, Delivered, Obeys, OnResult;
    ObeysPrefix(codec, pool, log, i);
    BeforeTheEnd(log, i);
    NoCutYet(codec, pool, log, i);
    assert SaysEnd(log[i]);
    NothingAfterEnd(log, i);
    DeliveredLast(log[..i + 1]);
    assert log[..i + 1][..i] == log[..i];
    PrefixTrans(Delivered(log[..i]), Delivered(log), Packets(codec, chunks));
    k := WholeChunks(codec, pool, log[..i], chunks);
    NextBody(codec, chunks, k, Delivered(log[..i]), log[i].result.data);
    OutputStays(codec, pool, log, i + 1);
    AfterNext(codec, pool, log, i);
  }

  lemma AfterNext(codec: Codec, pool: Pool, log: seq<Completion>, i: nat)
    requires i < |log|
    ensures After(codec, pool, log[..i + 1]) == OnResult(codec, pool(i), After(codec, pool, log[..i]), log[i].result)
  {
    assert log[..i + 1][..i] == log[..i];
  }

  /** One handler call: after a cut inside an uncompressed body the rest of the pool buffer follows, and the output is
      still a prefix exactly if the buffer held the missing bytes. */
  lemma CutOutcome(codec: Codec, stale: nat -> byte, u: Unframer, chunks: seq<bytes>, k: nat, data: bytes)
    requires Chunks(chunks) && k < |chunks| && u.out == Flatten(chunks[..k])
    requires u.phase == AwaitBody(|chunks[k]|, false) && data <= chunks[k]
    ensures OnResult(codec, stale, u, Got(data)).out <= Flatten(chunks)
            <==> forall j: nat :: |data| <= j < |chunks[k]| ==> stale(j) == chunks[k][j]
  {
    var body := Overlay(data, |chunks[k]|, stale);
    var out := u.out + body;
    FlattenAppend(chunks[..k], chunks[k..]);
    assert chunks == chunks[..k] + chunks[k..];
    assert Flatten(chunks) == u.out + (chunks[k] + Flatten(chunks[k..][1..]));
    if out <= Flatten(chunks) {
      PrefixCancel(u.out, body, chunks[k] + Flatten(chunks[k..][1..]));
      forall j: nat | |data| <= j < |chunks[k]| ensures stale(j) == chunks[k][j] {
        assert body[j] == stale(j) && body[j] == (chunks[k] + Flatten(chunks[k..][1..]))[j];
      }
    }
    if forall j: nat :: |data| <= j < |chunks[k]| ==> stale(j) == chunks[k][j] {
      assert body == chunks[k];
      Assoc(u.out, body, Flatten(chunks[k..][1..]));
    }
  }

  // ---------- over whole runs ----------

  /** The buffer of read `i` held the bytes of chunk `k` that did not arrive. */
  ghost predicate HeldTheRest(pool: Pool, i: nat, chunk: bytes, arrived: nat) {
    forall j: nat :: arrived <= j < |chunk| ==> pool(i)(j) == chunk[j]
  }

  /** Through all layers: when read `i` of the far bridge cuts the body of a chunk that was sent uncompressed, the far
      service has a prefix of what the user sent if and only if the pool buffer of that read happened to hold the
      missing bytes. */
  lemma CutPrefixIff(webSocket: bool, steps: seq<Stack.StackStep>, id: u32, fromLeft: bool, codec: Codec, pool: Pool,
                     chunks: seq<bytes>, preamble: bytes, first: seq<Completion>, log: seq<Completion>, i: nat)
    returns (k: nat)
    requires Faithful(codec) && CutAt(codec, pool, log, i)
    requires var st := Stack.StackRun(webSocket, steps);
             Tunnel(Writer(st, id, fromLeft), Reader(st, id, fromLeft), codec, pool, chunks, preamble, first, log)
    ensures k < |chunks| && |log[i].result.data| < |Body(codec, chunks[k])| && log[i].result.data <= Body(codec, chunks[k])
    ensures After(codec, pool, log[..i]).out == Flatten(chunks[..k])
    ensures !Shrinks(codec, chunks[k]) ==>
              (After(codec, pool, log).out <= Flatten(chunks)
               <==> HeldTheRest(pool, i, chunks[k], |log[i].result.data|))
  {
    hide Stack.StackRun, Packets, Obeys, After, OnResult, Faithful, EndIsFinal, SaneLog;
    TunnelReads(webSocket, steps, id, fromLeft, codec, pool, chunks, preamble, first, log);
    k := CutFacts(codec, pool, log, chunks, i);
    if !Shrinks(codec, chunks[k]) {
      CutOutcome(codec, pool(i), After(codec, pool, log[..i]), chunks, k, log[i].result.data);
    }
  }

  // ---------- for every pool ----------

  /** Until a body is cut what the pool buffers held does not matter. */
  lemma {:induction false} PoolUnseen(codec: Codec, pool: Pool, other: Pool, log: seq<Completion>)
    requires Obeys(codec, pool, log) && SaneLog(log) && !CutInBody(codec, pool, log)
    ensures After(codec, other, log) == After(codec, pool, log)
    ensures Obeys(codec, other, log) && !CutInBody(codec, other, log)
    decreases |log|
  {
    if log != [] {
      var last := |log| - 1;
      LastIsWhole(codec, pool, log);
      PoolUnseen(codec, pool, other, log[..last]);
      assert !CutAt(codec, pool, log, last);
      SameResult(codec, pool(last), other(last), After(codec, pool, log[..last]), log[last]);
    }
    if CutInBody(codec, other, log) {
      var i: nat :| CutAt(codec, other, log, i);
      PoolUnseenAt(codec, pool, other, log, i);
      assert CutAt(codec, pool, log, i);
    }
  }

  lemma PoolUnseenAt(codec: Codec, pool: Pool, other: Pool, log: seq<Completion>, i: nat)
    requires Obeys(codec, pool, log) && SaneLog(log) && !CutInBody(codec, pool, log) && i < |log|
    ensures After(codec, other, log[..i]) == After(codec, pool, log[..i])
    decreases |log|, 0
  {
    ObeysPrefix(codec, pool, log, i);
    UncutPrefix(codec, pool, log, i);
    PoolUnseen(codec, pool, other, log[..i]);
  }

  lemma UncutPrefix(codec: Codec, pool: Pool, log: seq<Completion>, i: nat)
    requires i <= |log| && !CutInBody(codec, pool, log)
    ensures !CutInBody(codec, pool, log[..i])
  {
    if CutInBody(codec, pool, log[..i]) {
      var j: nat :| CutAt(codec, pool, log[..i], j);
      assert log[..i][..j] == log[..j];
      assert CutAt(codec, pool, log, j);
    }
  }

  /** A read that is not a short read of a body comes out the same whatever its buffer held. */
  lemma SameResult(codec: Codec, stale: nat -> byte, other: nat -> byte, u: Unframer, c: Completion)
    requires c.req == Request(u.phase)
    requires !(c.result.Got? && |c.result.data| < c.req.size && u.phase.AwaitBody?)
    ensures OnResult(codec, other, u, c.result) == OnResult(codec, stale, u, c.result)
  {
  }

  /** Behind an uncompressed cut the bridge goes the same way whatever its buffers held. */
  lemma {:induction false} SameWay(codec: Codec, pool: Pool, other: Pool, log: seq<Completion>, i: nat)
    requires Obeys(codec, pool, log) && SaneLog(log) && CutAt(codec, pool, log, i) && !CutInBody(codec, pool, log[..i])
    requires !After(codec, pool, log[..i]).phase.compressed && forall j :: i < j < |log| ==> !log[j].result.Got?
    ensures Obeys(codec, other, log) && After(codec, other, log).phase == After(codec, pool, log).phase
    ensures After(codec, other, log[..i]) == After(codec, pool, log[..i])
    decreases |log|
  {
    hide OnResult, CutInBody;
    var last := |log| - 1;
    var before := log[..last];
    ObeysPrefix(codec, pool, log, i);
    PoolUnseen(codec, pool, other, log[..i]);
    if i < last {
      assert before[..i] == log[..i];
      ObeysPrefix(codec, pool, log, last);
      SameWay(codec, pool, other, before, i);
    }
    NextPhase(codec, pool(last), After(codec, pool, before), log[last].result);
    NextPhase(codec, other(last), After(codec, other, before), log[last].result);
  }

  lemma NextPhase(codec: Codec, stale: nat -> byte, u: Unframer, r: ReadResult)
    ensures !r.Got? ==> OnResult(codec, stale, u, r).phase.Halted?
    ensures u.phase.AwaitBody? && !u.phase.compressed && r.Got? && |r.data| <= u.phase.len ==>
              OnResult(codec, stale, u, r).phase == AwaitHeader
  {
  }

  /** Before a cut no body has been cut. */
  lemma FirstCut(codec: Codec, pool: Pool, log: seq<Completion>, i: nat)
    requires Obeys(codec, pool, log) && EndIsFinal(log) && CutAt(codec, pool, log, i)
    ensures !CutInBody(codec, pool, log[..i]) && forall j :: i < j < |log| ==> !log[j].result.Got?
  {
    ObeysPrefix(codec, pool, log, i);
    BeforeTheEnd(log, i);
    NoCutYet(codec, pool, log, i);
    assert SaysEnd(log[i]);
  }

  lemma WholeIsPrefix(codec: Codec, pool: Pool, log: seq<Completion>, chunks: seq<bytes>)
    requires Faithful(codec) && Chunks(chunks) && Obeys(codec, pool, log) && EndIsFinal(log) && SaneLog(log)
    requires Delivered(log) <= Packets(codec, chunks) && !CutInBody(codec, pool, log)
    ensures After(codec, pool, log).out <= Flatten(chunks)
  {
    hide Obeys, EndIsFinal, SaneLog, CutInBody, Packets, Faithful, After;
    var k := WholeChunks(codec, pool, log, chunks);
    FlattenAppend(chunks[..k], chunks[k..]);
    assert chunks == chunks[..k] + chunks[k..];
  }

  /** Bytes that differ from `chunk` everywhere. */
  function Wrong(chunk: bytes): nat -> byte {
    (j: nat) => if j < |chunk| then (chunk[j] as int + 1) % 256 else 0
  }

  function WithBuffer(pool: Pool, i: nat, buffer: nat -> byte): Pool {
    j => if j == i then buffer else pool(j)
  }

  /** Some buffer at the cutting read makes the output no prefix. */
  lemma CutBreaks(codec: Codec, pool: Pool, log: seq<Completion>, chunks: seq<bytes>, i: nat) returns (other: Pool)
    requires Faithful(codec) && Chunks(chunks) && Obeys(codec, pool, log) && EndIsFinal(log) && SaneLog(log)
    requires Delivered(log) <= Packets(codec, chunks) && CutAt(codec, pool, log, i)
    requires !After(codec, pool, log[..i]).phase.compressed
    ensures Obeys(codec, other, log) && !(After(codec, other, log).out <= Flatten(chunks))
  {
    hide Packets, Obeys, After, OnResult, Faithful, EndIsFinal, SaneLog, Delivered;
    var k := CutFacts(codec, pool, log, chunks, i);
    var data := log[i].result.data;
    other := WithBuffer(pool, i, Wrong(chunks[k]));
    FirstCut(codec, pool, log, i);
    SameWay(codec, pool, other, log, i);
    OutputStays(codec, other, log, i + 1);
    AfterNext(codec, other, log, i);
    CutOutcome(codec, other(i), After(codec, other, log[..i]), chunks, k, data);
    assert Wrong(chunks[k])(|data|) != chunks[k][|data|];
  }

  /** Given what was written and what the reads returned, and as long as compressed bodies are not cut: the far service
      has a prefix whatever the pool buffers held if and only if no read cut a body. */
  lemma PrefixForEveryPoolIff(webSocket: bool, steps: seq<Stack.StackStep>, id: u32, fromLeft: bool, codec: Codec,
                              pool: Pool, chunks: seq<bytes>, preamble: bytes, first: seq<Completion>, log: seq<Completion>)
    requires Faithful(codec)
    requires var st := Stack.StackRun(webSocket, steps);
             Tunnel(Writer(st, id, fromLeft), Reader(st, id, fromLeft), codec, pool, chunks, preamble, first, log)
    requires forall i: nat :: CutAt(codec, pool, log, i) ==> !After(codec, pool, log[..i]).phase.compressed
    ensures var st := Stack.StackRun(webSocket, steps);
            (forall other: Pool ::
               Tunnel(Writer(st, id, fromLeft), Reader(st, id, fromLeft), codec, other, chunks, preamble, first, log) ==>
                 After(codec, other, log).out <= Flatten(chunks))
            <==> !CutInBody(codec, pool, log)
  {
    hide Stack.StackRun, Packets, Obeys, After, OnResult, Faithful, EndIsFinal, SaneLog, Delivered, Chunks;
    var st := Stack.StackRun(webSocket, steps);
    TunnelReads(webSocket, steps, id, fromLeft, codec, pool, chunks, preamble, first, log);
    if CutInBody(codec, pool, log) {
      var i: nat :| CutAt(codec, pool, log, i);
      var other := CutBreaks(codec, pool, log, chunks, i);
    } else {
      forall other: Pool | Tunnel(Writer(st, id, fromLeft), Reader(st, id, fromLeft), codec, other, chunks, preamble, first, log)
        ensures After(codec, other, log).out <= Flatten(chunks)
      {
        PoolUnseen(codec, pool, other, log);
        WholeIsPrefix(codec, other, log, chunks);
      }
    }
  }
}
