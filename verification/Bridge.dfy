/** `Bridge` as the program runs it: shared buffers, the header kept between reads, and counters.
    Proved against `BridgeSpec`. */
module Bridge {
  import opened Bytes
  import opened MuxStreamSpec
  import Spec = BridgeSpec

  /** Copies `src` into `a` from `offset` on. */
  method CopyInto(a: array<byte>, offset: nat, src: bytes)
    requires offset + |src| <= a.Length
    modifies a
    ensures a[..] == old(a[..offset]) + src + old(a[offset + |src|..])
  {
    forall i | 0 <= i < |src| {
      a[offset + i] := src[i];
    }
  }

  class Bridge {
    const useCompression: bool
    const codec: Spec.Codec
    var header2: array<byte>
    var phase: Spec.Phase        // what the pending read of direction 2 is for
    var toUser: bytes            // written to s1
    var toWork: bytes            // written to s2
    var bytesReceived: nat
    var bytesSent: nat

    ghost predicate Valid()
      reads this
    {
      header2.Length == 4
    }

    ghost function State(): Spec.Unframer
      reads this, header2
      requires Valid()
    {
      Spec.Unframer(phase, header2[..], toUser)
    }

    constructor (useCompression: bool, codec: Spec.Codec)
      ensures Valid() && State() == Spec.Fresh() && toWork == [] && bytesReceived == 0 && bytesSent == 0
      ensures this.useCompression == useCompression && this.codec == codec && fresh(header2)
    {
      this.useCompression, this.codec := useCompression, codec;
      header2 := new byte[4](i => 0);
      phase, toUser, toWork, bytesReceived, bytesSent := Spec.AwaitHeader, [], [], 0, 0;
      new;
      assert header2[..] == [0, 0, 0, 0];
    }

    /** Direction 1, compression on: one chunk read from the user becomes one packet. */
    method FrameChunk(chunk: bytes)
      requires useCompression && |chunk| <= Spec.CHUNK_SIZE
      modifies `toWork, `bytesReceived
      ensures toWork == old(toWork) + Spec.Packet(codec, chunk)
      ensures bytesReceived == old(bytesReceived) + |chunk|
    {
      var compressed := codec.compress(chunk);
      var finalHeader: u32, writeBuf;
      if compressed.Some? && |compressed.value| < |chunk| {
        finalHeader := Spec.WithFlag(|compressed.value|);
        writeBuf := compressed.value;
      } else {
        finalHeader := |chunk|;
        writeBuf := chunk;
      }
      var packet := new byte[4 + |writeBuf|];
      CopyInto(packet, 0, ToBE(finalHeader, 4));
      CopyInto(packet, 4, writeBuf);
      assert packet[..] == ToBE(finalHeader, 4) + writeBuf;
      bytesReceived := bytesReceived + |chunk|;
      toWork := toWork + packet[..];
    }

    /** Direction 2, handler of the header read: `data` is what the read put into `header2_`. */
    method OnHeader(data: bytes, ghost stale: nat -> byte)
      requires Valid() && phase == Spec.AwaitHeader && |data| <= 4
      modifies `phase, header2
      ensures Valid() && State() == Spec.OnResult(codec, stale, old(State()), Got(data))
    {
      ghost var before := header2[..];
      CopyInto(header2, 0, data);
      assert header2[..] == data + before[|data|..];
      assert header2[..4] == header2[..];
      var h := FromBE(header2[..4]);
      var len := h % Spec.FLAG;
      if len > Spec.MAX_MESSAGE_SIZE {
        phase := Spec.Halted;
        return;
      }
      phase := Spec.AwaitBody(len, h >= Spec.FLAG);
    }

    /** Direction 2, handler of the body read: `data` is what the read put into the pool buffer `body`,
        which held `stale` before. */
    method OnBody(data: bytes, stale: nat -> byte)
      requires Valid() && phase.AwaitBody? && |data| <= phase.len
      modifies `phase, `toUser, `bytesSent
      ensures Valid() && State() == Spec.OnResult(codec, stale, old(State()), Got(data))
      ensures bytesSent + |old(toUser)| == old(bytesSent) + |toUser|
    {
      var len, compressed := phase.len, phase.compressed;
      var body := new byte[len](i requires 0 <= i < len => stale(i));
      CopyInto(body, 0, data);
      assert body[..] == Spec.Overlay(data, len, stale);
      var received := body[..];
      if compressed {
        var decodedSize := codec.contentSize(received);
        if decodedSize.None? || decodedSize.value > Spec.MAX_DECOMPRESSED_SIZE {
          phase := Spec.Halted;
          return;
        }
        var decompressed := codec.decompress(received);
        if decompressed.None? {
          phase := Spec.Halted;
          return;
        }
        bytesSent := bytesSent + |decompressed.value|;
        toUser := toUser + decompressed.value;
      } else {
        bytesSent := bytesSent + len;
        toUser := toUser + received;
      }
      phase := Spec.AwaitHeader;
    }

    /** Either direction, compression off: bytes pass as they come. */
    method Relay(fromUser: bool, data: bytes)
      requires !useCompression
      modifies `toUser, `toWork, `bytesReceived, `bytesSent
      ensures toWork == if fromUser then old(toWork) + data else old(toWork)
      ensures toUser == if fromUser then old(toUser) else old(toUser) + data
      ensures bytesReceived + |old(toWork)| == old(bytesReceived) + |toWork|
      ensures bytesSent + |old(toUser)| == old(bytesSent) + |toUser|
    {
      if fromUser {
        bytesReceived := bytesReceived + |data|;
        toWork := toWork + data;
      } else {
        bytesSent := bytesSent + |data|;
        toUser := toUser + data;
      }
    }
  }
}
