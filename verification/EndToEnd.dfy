/** The tunnel end to end: a bridge writes framed chunks to a multiplexed stream, a bridge at the far end
    reads them back, over the whole stack below. */
module EndToEnd {
  import opened Bytes
  import opened MuxStreamSpec
  import opened MuxPair
  import opened BridgeSpec
  import MuxNet
  import MuxTheorems
  import Stack = LinkStack

  // ---------- reading packets back ----------

  lemma PrefixCancel<T>(a: seq<T>, b: seq<T>, c: seq<T>)
    requires a + b <= a + c
    ensures b <= c
  {
    assert b == (a + b)[|a|..] && c == (a + c)[|a|..];
    assert forall i :: 0 <= i < |b| ==> b[i] == (a + b)[|a| + i] && c[i] == (a + c)[|a| + i];
  }

  lemma {:induction false} PacketsSplit(codec: Codec, chunks: seq<bytes>, k: nat)
    requires Chunks(chunks) && k <= |chunks|
    ensures Packets(codec, chunks) == Packets(codec, chunks[..k]) + Packets(codec, chunks[k..])
  {
    hide Packet;
    if k == 0 {
      assert chunks[0..] == chunks && [] + Packets(codec, chunks) == Packets(codec, chunks);
    } else {
      PacketsSplit(codec, chunks[1..], k - 1);
      assert chunks[..k][1..] == chunks[1..][..k - 1] && chunks[1..][k - 1..] == chunks[k..];
      Assoc(Packet(codec, chunks[0]), Packets(codec, chunks[1..][..k - 1]), Packets(codec, chunks[k..]));
    }
  }

  lemma PacketsSnoc(codec: Codec, chunks: seq<bytes>, k: nat)
    requires Chunks(chunks) && k < |chunks|
    ensures Packets(codec, chunks[..k + 1]) == Packets(codec, chunks[..k]) + Packet(codec, chunks[k])
    ensures Flatten(chunks[..k + 1]) == Flatten(chunks[..k]) + chunks[k]
  {
    hide Packet;
    PacketsSplit(codec, chunks[..k + 1], k);
    assert chunks[..k + 1][..k] == chunks[..k] && chunks[..k + 1][k..] == [chunks[k]];
    assert Packets(codec, [chunks[k]]) == Packet(codec, chunks[k]) + Packets(codec, []);
    assert chunks[..k + 1] == chunks[..k] + [chunks[k]];
    FlattenSnoc(chunks[..k], chunks[k]);
  }

  function HeaderBytes(codec: Codec, chunk: bytes): bytes
    requires |chunk| <= CHUNK_SIZE
  {
    ToBE(HeaderWord(codec, chunk), 4)
  }

  /** After whole reads of `delivered`, the first `k` chunks are out, and the bridge is at a packet's
      start or behind its header. */
  predicate Aligned(codec: Codec, u: Unframer, chunks: seq<bytes>, k: nat, delivered: bytes)
    requires Chunks(chunks)
  {
    && k <= |chunks| && u.out == Flatten(chunks[..k])
    && match u.phase
       case AwaitHeader => delivered == Packets(codec, chunks[..k])
       case AwaitBody(len, compressed) =>
         && k < |chunks| && len == |Body(codec, chunks[k])| && compressed == Shrinks(codec, chunks[k])
         && delivered == Packets(codec, chunks[..k]) + HeaderBytes(codec, chunks[k])
       case Halted => true
  }

  /** `n` delivered bytes hold `k` packets and at most the header of the next. */
  predicate Near(codec: Codec, chunks: seq<bytes>, k: nat, n: nat)
    requires Chunks(chunks)
  {
    && k <= |chunks| && |Packets(codec, chunks[..k])| <= n <= |Packets(codec, chunks[..k])| + 4
    && (k == |chunks| ==> n == |Packets(codec, chunks[..k])|)
  }

  /** The next `n` delivered bytes are the next `n` bytes of what was written. */
  lemma NextBytes(all: bytes, done: bytes, data: bytes, part: bytes, rest: bytes)
    requires all == done + (part + rest) && done + data <= all && |data| == |part|
    ensures data == part
  {
    PrefixCancel(done, data, part + rest);
    assert data == (part + rest)[..|data|];
  }

  lemma WholeHeader(codec: Codec, stale: nat -> byte, u: Unframer, chunks: seq<bytes>, k: nat, delivered: bytes, data: bytes)
    requires Chunks(chunks) && Aligned(codec, u, chunks, k, delivered) && u.phase == AwaitHeader
    requires |data| == 4 && delivered + data <= Packets(codec, chunks)
    ensures Aligned(codec, OnResult(codec, stale, u, Got(data)), chunks, k, delivered + data)
    ensures OnResult(codec, stale, u, Got(data)).phase.AwaitBody?
  {
    PacketsSplit(codec, chunks, k);
    assert chunks[..|chunks|] == chunks;
    assert chunks[k..][0] == chunks[k];
    var word, tail := HeaderBytes(codec, chunks[k]), Packets(codec, chunks[k..][1..]);
    Assoc(word, Body(codec, chunks[k]), tail);
    NextBytes(Packets(codec, chunks), delivered, data, word, Body(codec, chunks[k]) + tail);
    HeaderRoundTrip(codec, chunks[k]);
    assert data + u.header[4..] == data;
  }

  lemma NearAligned(codec: Codec, u: Unframer, chunks: seq<bytes>, k: nat, delivered: bytes)
    requires Chunks(chunks) && Aligned(codec, u, chunks, k, delivered) && !u.phase.Halted?
    ensures Near(codec, chunks, k, |delivered|)
  {
  }

  /** A header cut short leaves nothing for a body: the length it seems to say does not matter. */
  lemma ShortHeader(codec: Codec, u: Unframer, chunks: seq<bytes>, k: nat, delivered: bytes, data: bytes)
    requires Chunks(chunks) && Aligned(codec, u, chunks, k, delivered) && u.phase == AwaitHeader
    requires 0 < |data| < 4 && delivered + data <= Packets(codec, chunks)
    ensures Near(codec, chunks, k, |delivered + data|)
  {
    assert chunks[..|chunks|] == chunks;
  }

  lemma WholeBody(codec: Codec, stale: nat -> byte, u: Unframer, chunks: seq<bytes>, k: nat, delivered: bytes, data: bytes)
    requires Faithful(codec) && Chunks(chunks) && Aligned(codec, u, chunks, k, delivered) && u.phase.AwaitBody?
    requires |data| == u.phase.len && delivered + data <= Packets(codec, chunks)
    ensures Aligned(codec, OnResult(codec, stale, u, Got(data)), chunks, k + 1, delivered + data)
    ensures OnResult(codec, stale, u, Got(data)).phase == AwaitHeader
  {
    PacketsSplit(codec, chunks, k);
    assert chunks[k..][0] == chunks[k];
    var word, body, tail := HeaderBytes(codec, chunks[k]), Body(codec, chunks[k]), Packets(codec, chunks[k..][1..]);
    Assoc(word, body, tail);
    Assoc(Packets(codec, chunks[..k]), word, body + tail);
    NextBytes(Packets(codec, chunks), delivered, data, body, tail);
    PacketsSnoc(codec, chunks, k);
    Assoc(Packets(codec, chunks[..k]), word, body);
  }

  // ---------- a whole session of reads ----------

  /** The `i`-th read, of a body, came back short, but not empty. */
  predicate CutAt(codec: Codec, pool: nat -> (nat -> byte), log: seq<Completion>, i: nat) {
    i < |log| && log[i].result.Got? && |log[i].result.data| < log[i].req.size
    && After(codec, pool, log[..i]).phase.AwaitBody?
  }

  /** The stream ended inside a body. */
  ghost predicate CutInBody(codec: Codec, pool: nat -> (nat -> byte), log: seq<Completion>) {
    exists i :: CutAt(codec, pool, log, i)
  }

  lemma CutMonotone(codec: Codec, pool: nat -> (nat -> byte), log: seq<Completion>)
    requires log != [] && CutInBody(codec, pool, log[..|log| - 1])
    ensures CutInBody(codec, pool, log)
  {
    var before := log[..|log| - 1];
    var i: nat :| CutAt(codec, pool, before, i);
    assert before[..i] == log[..i] && log[i] == before[i];
    assert CutAt(codec, pool, log, i);
  }

  lemma EndMonotone(log: seq<Completion>)
    requires log != []
    ensures EndSeen(log[..|log| - 1]) && EndIsFinal(log) ==> EndSeen(log) && !log[|log| - 1].result.Got?
    ensures SaysEnd(log[|log| - 1]) ==> EndSeen(log)
    ensures EndIsFinal(log) ==> EndIsFinal(log[..|log| - 1])
  {
    var before := log[..|log| - 1];
    if EndSeen(before) {
      var i :| 0 <= i < |before| && SaysEnd(before[i]);
      assert SaysEnd(log[i]);
    }
    forall i, j | 0 <= i < j < |before| && SaysEnd(before[i]) && EndIsFinal(log)
      ensures !before[j].result.Got?
    {
      assert before[i] == log[i] && before[j] == log[j];
    }
  }

  lemma DeliveredLast(log: seq<Completion>)
    requires log != []
    ensures Delivered(log) == Delivered(log[..|log| - 1]) + Result(log[|log| - 1])
  {
    var last := |log| - 1;
    assert log == log[..last] + [log[last]];
    DeliveredAppend(log[..last], [log[last]]);
    assert Delivered([log[last]]) == Result(log[last]) + Delivered([]);
  }

  /** One more read, which does not cut a body. */
  lemma OneRead(codec: Codec, stale: nat -> byte, u: Unframer, chunks: seq<bytes>, k0: nat, delivered: bytes, c: Completion)
    returns (k: nat)
    requires Faithful(codec) && Chunks(chunks) && !u.phase.Halted? && c.req == Request(u.phase) && Sane(c)
    requires Aligned(codec, u, chunks, k0, delivered) && Near(codec, chunks, k0, |delivered|)
    requires delivered + Result(c) <= Packets(codec, chunks)
    requires u.phase.AwaitBody? ==> !SaysEnd(c) || !c.result.Got?
    ensures var u' := OnResult(codec, stale, u, c.result);
            && Near(codec, chunks, k, |delivered + Result(c)|) && u'.out == Flatten(chunks[..k])
            && (!SaysEnd(c) ==> Aligned(codec, u', chunks, k, delivered + Result(c)))
  {
    hide Near, Packets, Emit, Shrinks;
    k := k0;
    if c.result.Got? {
      var data := c.result.data;
      var u' := OnResult(codec, stale, u, c.result);
      if u.phase == AwaitHeader && |data| == 4 {
        WholeHeader(codec, stale, u, chunks, k0, delivered, data);
        NearAligned(codec, u', chunks, k0, delivered + data);
      } else if u.phase == AwaitHeader {
        ShortHeader(codec, u, chunks, k0, delivered, data);
      } else {
        WholeBody(codec, stale, u, chunks, k0, delivered, data);
        k := k0 + 1;
        NearAligned(codec, u', chunks, k, delivered + data);
      }
    } else {
      assert delivered + [] == delivered;
    }
  }

  /** Unless the stream ended inside a body, the far bridge has written out whole chunks only, in order;
      and as long as no read has met the end it knows exactly where it is. */
  lemma {:induction false} WholeChunks(codec: Codec, pool: nat -> (nat -> byte), log: seq<Completion>, chunks: seq<bytes>)
    returns (k: nat)
    requires Faithful(codec) && Chunks(chunks) && Obeys(codec, pool, log) && EndIsFinal(log)
    requires Delivered(log) <= Packets(codec, chunks) && !CutInBody(codec, pool, log) && SaneLog(log)
    ensures Near(codec, chunks, k, |Delivered(log)|) && After(codec, pool, log).out == Flatten(chunks[..k])
    ensures !EndSeen(log) ==> Aligned(codec, After(codec, pool, log), chunks, k, Delivered(log))
  {
    if log == [] {
      k := 0;
      assert chunks[..0] == [];
    } else {
      var last := |log| - 1;
      var before, c := log[..last], log[last];
      EndMonotone(log);
      DeliveredLast(log);
      PrefixTrans(Delivered(before), Delivered(log), Packets(codec, chunks));
      LastIsWhole(codec, pool, log);
      hide CutInBody, EndIsFinal, Aligned, Near, Packets, Faithful, OnResult;
      k := WholeChunks(codec, pool, before, chunks);
      if EndSeen(before) {
        HaltsOn(codec, pool(last), After(codec, pool, before), c.result);
        assert Delivered(before) + [] == Delivered(before);
      } else {
        k := OneRead(codec, pool(last), After(codec, pool, before), chunks, k, Delivered(before), c);
      }
    }
  }

  lemma HaltsOn(codec: Codec, stale: nat -> byte, u: Unframer, r: ReadResult)
    requires !r.Got?
    ensures OnResult(codec, stale, u, r).out == u.out
  {
  }

  lemma LastIsWhole(codec: Codec, pool: nat -> (nat -> byte), log: seq<Completion>)
    requires log != [] && !CutInBody(codec, pool, log)
    ensures !CutInBody(codec, pool, log[..|log| - 1])
    ensures After(codec, pool, log[..|log| - 1]).phase.AwaitBody? && log[|log| - 1].result.Got? ==>
              !SaysEnd(log[|log| - 1])
  {
    if CutInBody(codec, pool, log[..|log| - 1]) {
      CutMonotone(codec, pool, log);
    }
    assert !CutAt(codec, pool, log, |log| - 1);
  }

  // ---------- where a cut can be ----------

  /** The first `n` bytes of the packets end strictly inside some body, behind its first byte. */
  predicate InsideBody(codec: Codec, chunks: seq<bytes>, n: int)
    requires Chunks(chunks)
  {
    exists k :: 0 <= k < |chunks|
                && |Packets(codec, chunks[..k])| + 4 < n < |Packets(codec, chunks[..k])| + |Packet(codec, chunks[k])|
  }

  /** After the end nothing more is delivered. */
  lemma {:induction false} NothingAfterEnd(log: seq<Completion>, i: nat)
    requires i < |log| && SaysEnd(log[i]) && EndIsFinal(log)
    ensures Delivered(log) == Delivered(log[..i + 1])
    decreases |log|
  {
    if i + 1 == |log| {
      assert log[..i + 1] == log;
    } else {
      EndMonotone(log);
      DeliveredLast(log);
      NothingAfterEnd(log[..|log| - 1], i);
      assert log[..|log| - 1][..i + 1] == log[..i + 1];
      assert Delivered(log[..|log| - 1]) + [] == Delivered(log[..|log| - 1]);
    }
  }

  lemma {:induction false} ObeysPrefix(codec: Codec, pool: nat -> (nat -> byte), log: seq<Completion>, i: nat)
    requires i <= |log| && Obeys(codec, pool, log)
    ensures Obeys(codec, pool, log[..i])
    ensures i < |log| ==>
              var u := After(codec, pool, log[..i]); !u.phase.Halted? && log[i].req == Request(u.phase)
    decreases |log|
  {
    if i == |log| {
      assert log[..i] == log;
    } else {
      var before := log[..|log| - 1];
      assert i < |log| - 1 ==> before[i] == log[i];
      ObeysPrefix(codec, pool, before, i);
      assert before[..i] == log[..i];
    }
  }

  lemma BeforeTheEnd(log: seq<Completion>, i: nat)
    requires i < |log| && log[i].result.Got? && EndIsFinal(log)
    ensures EndIsFinal(log[..i]) && !EndSeen(log[..i])
  {
    assert forall j :: 0 <= j < i ==> log[..i][j] == log[j] && !SaysEnd(log[j]);
  }

  lemma NoCutYet(codec: Codec, pool: nat -> (nat -> byte), log: seq<Completion>, i: nat)
    requires i <= |log| && !EndSeen(log[..i]) && Obeys(codec, pool, log[..i])
    ensures !CutInBody(codec, pool, log[..i])
  {
    var before := log[..i];
    if CutInBody(codec, pool, before) {
      var j: nat :| CutAt(codec, pool, before, j);
      ObeysPrefix(codec, pool, before, j);
      assert false;
    }
  }

  lemma PacketLength(codec: Codec, chunk: bytes)
    requires |chunk| <= CHUNK_SIZE
    ensures |Packet(codec, chunk)| == 4 + |Body(codec, chunk)|
  {
  }

  /** A body is cut only where the delivered bytes themselves end inside a body. */
  lemma CutPosition(codec: Codec, pool: nat -> (nat -> byte), log: seq<Completion>, chunks: seq<bytes>)
    requires Faithful(codec) && Chunks(chunks) && Obeys(codec, pool, log) && EndIsFinal(log)
    requires Delivered(log) <= Packets(codec, chunks) && CutInBody(codec, pool, log)
    requires SaneLog(log)
    ensures EndSeen(log) && InsideBody(codec, chunks, |Delivered(log)|)
  {
    hide Obeys, After, Packets, Packet, Delivered, EndIsFinal;
    var i: nat :| CutAt(codec, pool, log, i);
    ObeysPrefix(codec, pool, log, i);
    BeforeTheEnd(log, i);
    NoCutYet(codec, pool, log, i);
    assert SaysEnd(log[i]);
    NothingAfterEnd(log, i);
    DeliveredLast(log[..i + 1]);
    assert log[..i + 1][..i] == log[..i];
    PrefixTrans(Delivered(log[..i]), Delivered(log), Packets(codec, chunks));
    var k := WholeChunks(codec, pool, log[..i], chunks);
    PacketLength(codec, chunks[k]);
    assert |Packets(codec, chunks[..k])| + 4 < |Delivered(log)|
        < |Packets(codec, chunks[..k])| + |Packet(codec, chunks[k])|;
  }

  // ---------- the tunnel ----------

  /** What the two users of one stream are doing: the writing bridge has written `preamble` (the ticket of
      a work connection, or nothing) and the packets of `chunks`; the reader has read the preamble first
      and then left the stream to the far bridge. */
  predicate Tunnel(w: MuxNet.Object, r: MuxNet.Object, codec: Codec, pool: nat -> (nat -> byte),
                   chunks: seq<bytes>, preamble: bytes, first: seq<Completion>, log: seq<Completion>)
  {
    && Chunks(chunks) && w.written == preamble + Packets(codec, chunks)
    && r.log == first + log && Delivered(first) == preamble
    && Obeys(codec, pool, log)
  }

  function Writer(st: Stack.Stack, id: u32, fromLeft: bool): MuxNet.Object {
    MuxNet.ObjectOf(if fromLeft then st.a else st.b, id)
  }

  function Reader(st: Stack.Stack, id: u32, fromLeft: bool): MuxNet.Object {
    MuxNet.ObjectOf(if fromLeft then st.b else st.a, id)
  }

  predicate ReaderStopped(st: Stack.Stack, fromLeft: bool) {
    (if fromLeft then st.b else st.a).session.stopped
  }

  lemma LogTail(first: seq<Completion>, log: seq<Completion>)
    requires SaneLog(first + log) && EndIsFinal(first + log)
    ensures SaneLog(log) && EndIsFinal(log) && (EndSeen(log) ==> EndSeen(first + log))
  {
    var all := first + log;
    assert forall i :: 0 <= i < |log| ==> log[i] == all[|first| + i];
    if EndSeen(log) {
      var i :| 0 <= i < |log| && SaysEnd(log[i]);
      assert SaysEnd(all[|first| + i]);
    }
  }

  /** The far bridge's reads: a prefix of the packets, complete once the end is seen. */
  lemma TunnelReads(webSocket: bool, steps: seq<Stack.StackStep>, id: u32, fromLeft: bool, codec: Codec,
                    pool: nat -> (nat -> byte), chunks: seq<bytes>, preamble: bytes,
                    first: seq<Completion>, log: seq<Completion>)
    requires var st := Stack.StackRun(webSocket, steps);
             Tunnel(Writer(st, id, fromLeft), Reader(st, id, fromLeft), codec, pool, chunks, preamble, first, log)
    ensures SaneLog(log) && EndIsFinal(log) && Delivered(log) <= Packets(codec, chunks)
    ensures var st := Stack.StackRun(webSocket, steps);
            var w := Writer(st, id, fromLeft);
            EndSeen(log) && !ReaderStopped(st, fromLeft) ==> preamble + Delivered(log) == w.sent && w.s.localClosed
  {
    hide Stack.StackRun, MuxNet.Run, Stack.Carries, Packets, Obeys;
    var run := Stack.StackRefinesNet(webSocket, steps);
    MuxTheorems.BytePipe(run, id, fromLeft);
    MuxTheorems.EndIsComplete(run, id, fromLeft);
    DeliveredAppend(first, log);
    LogTail(first, log);
    PrefixCancel(preamble, Delivered(log), Packets(codec, chunks));
  }

  /** Composition of all layers, with compression on: at every step of every run, for every chunking,
      compressor, mask and interleaving, the far bridge has written a prefix of what the near bridge has
      read, unless the stream ended (by a close or a stop) inside the body of a packet. */
  lemma TunnelPrefix(webSocket: bool, steps: seq<Stack.StackStep>, id: u32, fromLeft: bool, codec: Codec,
                     pool: nat -> (nat -> byte), chunks: seq<bytes>, preamble: bytes,
                     first: seq<Completion>, log: seq<Completion>)
    requires Faithful(codec)
    requires var st := Stack.StackRun(webSocket, steps);
             && Tunnel(Writer(st, id, fromLeft), Reader(st, id, fromLeft), codec, pool, chunks, preamble, first, log)
             && !(EndSeen(log) && InsideBody(codec, chunks, |Delivered(log)|))
    ensures After(codec, pool, log).out <= Flatten(chunks)
  {
    hide Stack.StackRun, Packets, Obeys, After, InsideBody, CutInBody, Faithful, EndIsFinal, SaneLog;
    TunnelReads(webSocket, steps, id, fromLeft, codec, pool, chunks, preamble, first, log);
    if CutInBody(codec, pool, log) {
      CutPosition(codec, pool, log, chunks);
      assert false;
    }
    var k := WholeChunks(codec, pool, log, chunks);
    FlattenAppend(chunks[..k], chunks[k..]);
    assert chunks == chunks[..k] + chunks[k..];
  }

  /** The cut the far bridge would not notice: the near side closed the stream when what it had sent ended
      inside the body of a packet. It can look at this before it closes. */
  predicate ClosedInsideBody(w: MuxNet.Object, codec: Codec, chunks: seq<bytes>, preamble: bytes)
    requires Chunks(chunks)
  {
    w.s.localClosed && InsideBody(codec, chunks, |w.sent| - |preamble|)
  }

  /** The same, by what the near side did, while the far session runs. */
  lemma TunnelPrefixUnlessCut(webSocket: bool, steps: seq<Stack.StackStep>, id: u32, fromLeft: bool, codec: Codec,
                              pool: nat -> (nat -> byte), chunks: seq<bytes>, preamble: bytes,
                              first: seq<Completion>, log: seq<Completion>)
    requires Faithful(codec)
    requires var st := Stack.StackRun(webSocket, steps);
             && Tunnel(Writer(st, id, fromLeft), Reader(st, id, fromLeft), codec, pool, chunks, preamble, first, log)
             && !ReaderStopped(st, fromLeft)
             && !ClosedInsideBody(Writer(st, id, fromLeft), codec, chunks, preamble)
    ensures After(codec, pool, log).out <= Flatten(chunks)
  {
    hide Stack.StackRun, Packets, Obeys, After, InsideBody, Faithful, EndIsFinal, SaneLog, EndSeen;
    TunnelReads(webSocket, steps, id, fromLeft, codec, pool, chunks, preamble, first, log);
    TunnelPrefix(webSocket, steps, id, fromLeft, codec, pool, chunks, preamble, first, log);
  }

  /** With compression off the far bridge writes what it reads, as it reads it. */
  lemma PassthroughPrefix(webSocket: bool, steps: seq<Stack.StackStep>, id: u32, fromLeft: bool,
                          chunks: seq<bytes>, preamble: bytes, first: seq<Completion>, log: seq<Completion>)
    requires var st := Stack.StackRun(webSocket, steps);
             && Writer(st, id, fromLeft).written == preamble + Flatten(chunks)
             && Reader(st, id, fromLeft).log == first + log && Delivered(first) == preamble
    ensures Delivered(log) <= Flatten(chunks)
  {
    hide Stack.StackRun;
    Stack.StackBytePipe(webSocket, steps, id, fromLeft);
    DeliveredAppend(first, log);
    PrefixCancel(preamble, Delivered(log), Flatten(chunks));
  }

  lemma WholeIsNotInside(codec: Codec, chunks: seq<bytes>)
    requires Chunks(chunks)
    ensures !InsideBody(codec, chunks, |Packets(codec, chunks)|)
  {
    hide Packets, Packet;
    forall k | 0 <= k < |chunks|
      ensures |Packets(codec, chunks)| >= |Packets(codec, chunks[..k])| + |Packet(codec, chunks[k])|
    {
      PacketsSnoc(codec, chunks, k);
      PacketsSplit(codec, chunks, k + 1);
    }
  }

  /** All packets delivered means all chunks written out. */
  lemma AllChunksOut(codec: Codec, chunks: seq<bytes>, k: nat)
    requires Faithful(codec) && Chunks(chunks) && Near(codec, chunks, k, |Packets(codec, chunks)|)
    ensures Flatten(chunks[..k]) == Flatten(chunks)
  {
    hide Packets;
    if k == |chunks| {
      assert chunks[..k] == chunks;
    } else {
      PacketsSnoc(codec, chunks, k);
      PacketsSplit(codec, chunks, k + 1);
      assert Body(codec, chunks[k]) == [] && chunks[k] == [];
      assert Packets(codec, chunks[k + 1..]) == [];
      assert k + 1 == |chunks| by {
        if k + 1 < |chunks| {
          PacketsPositive(codec, chunks[k + 1..]);
        }
      }
      assert chunks[..k + 1] == chunks;
    }
  }

  lemma PacketsPositive(codec: Codec, chunks: seq<bytes>)
    requires Chunks(chunks) && chunks != []
    ensures |Packets(codec, chunks)| >= 4
  {
  }

  /** Completeness: when the near side closes with nothing left to send and the far bridge has met the
      end, the far bridge has written everything. */
  lemma TunnelComplete(webSocket: bool, steps: seq<Stack.StackStep>, id: u32, fromLeft: bool, codec: Codec,
                       pool: nat -> (nat -> byte), chunks: seq<bytes>, preamble: bytes,
                       first: seq<Completion>, log: seq<Completion>)
    requires Faithful(codec)
    requires var st := Stack.StackRun(webSocket, steps);
             var w := Writer(st, id, fromLeft);
             && Tunnel(w, Reader(st, id, fromLeft), codec, pool, chunks, preamble, first, log)
             && !ReaderStopped(st, fromLeft) && w.sent == w.written && EndSeen(log)
    ensures After(codec, pool, log).out == Flatten(chunks)
  {
    hide Stack.StackRun, Packets, Obeys, After, InsideBody, CutInBody, Faithful, EndIsFinal, SaneLog, EndSeen, Near;
    TunnelReads(webSocket, steps, id, fromLeft, codec, pool, chunks, preamble, first, log);
    assert |Delivered(log)| == |Packets(codec, chunks)|;
    WholeIsNotInside(codec, chunks);
    if CutInBody(codec, pool, log) {
      CutPosition(codec, pool, log, chunks);
      assert false;
    }
    var k := WholeChunks(codec, pool, log, chunks);
    AllChunksOut(codec, chunks, k);
  }

  // ---------- no stall ----------

  /** The bridge asks for a header or for a body, which is never longer than a chunk. */
  lemma SmallRequests(codec: Codec, pool: nat -> (nat -> byte), log: seq<Completion>, chunks: seq<bytes>)
    requires Faithful(codec) && Chunks(chunks) && Obeys(codec, pool, log) && EndIsFinal(log) && SaneLog(log)
    requires Delivered(log) <= Packets(codec, chunks) && !EndSeen(log)
    ensures Request(After(codec, pool, log).phase).size <= CHUNK_SIZE
  {
    assert log[..|log|] == log;
    NoCutYet(codec, pool, log, |log|);
    hide Packets, After, Obeys, CutInBody, Faithful, EndIsFinal, SaneLog, Delivered, EndSeen;
    var k := WholeChunks(codec, pool, log, chunks);
  }

  /** A stream between two bridges never stalls: while the far bridge waits for its next header or body, and no end has
      been met, it is not the case that everything is quiet with bytes still pending at the near side. */
  lemma TunnelNeverStuck(webSocket: bool, steps: seq<Stack.StackStep>, id: u32, fromLeft: bool, codec: Codec,
                         pool: nat -> (nat -> byte), chunks: seq<bytes>, preamble: bytes,
                         first: seq<Completion>, log: seq<Completion>) returns (run: seq<MuxNet.Step>)
    requires Faithful(codec) && !EndSeen(log)
    requires var st := Stack.StackRun(webSocket, steps);
             && Tunnel(Writer(st, id, fromLeft), Reader(st, id, fromLeft), codec, pool, chunks, preamble, first, log)
             && Reader(st, id, fromLeft).s.pendingReads == [Request(After(codec, pool, log).phase)]
    ensures Stack.Refines(Stack.StackRun(webSocket, steps), MuxNet.Run(run))
    ensures !MuxTheorems.Stuck(MuxTheorems.Stream(run, id, fromLeft))
  {
    hide Stack.StackRun, MuxNet.Run, Stack.Carries, Packets, Obeys, After, Faithful, EndIsFinal, SaneLog, EndSeen;
    run := Stack.StackRefinesNet(webSocket, steps);
    TunnelReads(webSocket, steps, id, fromLeft, codec, pool, chunks, preamble, first, log);
    SmallRequests(codec, pool, log, chunks);
    MuxTheorems.NoStall(run, id, fromLeft);
    hide MuxTheorems.Stuck;
  }
}
