/** `WebsocketStream` as the program runs it: headers built byte by byte, payload masked in place, a
    write queue, and a read buffer with an offset. Proved against `WebSocketSpec`. */
module WebSocket {
  import opened Bytes
  import Spec = WebSocketSpec

  // ---------- headers and masking ----------

  /** Masks `len` bytes from `offset` on, in place. */
  method MaskInPlace(a: array<byte>, offset: nat, len: nat, mask: Spec.Mask)
    requires offset + len <= a.Length
    modifies a
    ensures a[..offset] == old(a[..offset])
    ensures a[offset..offset + len] == Spec.Masked(old(a[offset..offset + len]), mask)
  {
    ghost var before := a[..];
    for i := 0 to len
      invariant forall j :: offset <= j < offset + i ==> a[j] == Xor(before[j], mask[(j - offset) % 4])
      invariant forall j :: offset + i <= j < offset + len ==> a[j] == before[j]
      invariant forall j :: 0 <= j < offset ==> a[j] == before[j]
    {
      a[offset + i] := Xor(a[offset + i], mask[i % 4]);
    }
    ghost var plain := before[offset..offset + len];
    forall k | 0 <= k < len
      ensures a[offset..offset + len][k] == Spec.Masked(plain, mask)[k]
    {
      assert a[offset + k] == Xor(before[offset + k], mask[k % 4]);
    }
  }

  /** Copies a scatter list into one fresh buffer. */
  method Gather(buffers: seq<bytes>) returns (a: array<byte>)
    requires |Flatten(buffers)| < 0x8000_0000_0000_0000
    ensures fresh(a) && a[..] == Flatten(buffers)
  {
    var total: nat := 0;
    for i := 0 to |buffers|
      invariant total + |Flatten(buffers[i..])| == |Flatten(buffers)|
    {
      assert buffers[i..][1..] == buffers[i + 1..];
      total := total + |buffers[i]|;
    }
    a := new byte[total];
    ghost var all := Flatten(buffers);
    var offset: nat := 0;
    for i := 0 to |buffers|
      invariant offset + |Flatten(buffers[i..])| == total == |all|
      invariant a[..offset] + Flatten(buffers[i..]) == all
    {
      assert buffers[i..][1..] == buffers[i + 1..];
      var b := buffers[i];
      ghost var done := a[..offset];
      forall k | 0 <= k < |b| {
        a[offset + k] := b[k];
      }
      assert a[..offset + |b|] == done + b;
      Assoc(done, b, Flatten(buffers[i + 1..]));
      offset := offset + |b|;
    }
  }

  lemma {:induction false} ShiftOneMore(v: nat, k: nat)
    ensures Shift(v, k) / 256 == Shift(v, k + 1)
  {
    if k > 0 {
      ShiftOneMore(v / 256, k - 1);
    }
  }

  /** The eight length bytes, most significant first. */
  method PushLength64(header: bytes, len: nat) returns (h: bytes)
    ensures h == header + ToBE(len, 8)
  {
    h := header;
    var i := 7;
    while i >= 0
      invariant -1 <= i <= 7
      invariant h == header + ToBE(Shift(len, i + 1), 7 - i)
    {
      ShiftOneMore(len, i);
      var b := Shift(len, i) % 256;
      Assoc(header, ToBE(Shift(len, i + 1), 7 - i), [b]);
      h := h + [b];
      i := i - 1;
    }
  }

  /** FIN and opcode, mask bit and length, and the mask itself when there is one. */
  method BuildHeader(opcode: byte, len: nat, mask: Option<Spec.Mask>) returns (h: bytes)
    requires opcode < 16 && len < 0x8000_0000_0000_0000
    ensures h == [Spec.WithTopBit(true, opcode)] + Spec.LengthField(len, mask.Some?)
                 + (match mask case None => [] case Some(m) => m)
  {
    h := [0x80 + opcode];
    var maskBit := if mask.Some? then 0x80 else 0;
    if len <= 125 {
      h := h + [maskBit + len];
    } else if len <= 65535 {
      h := h + [maskBit + 126];
      h := h + [len / 256 % 256];
      h := h + [len % 256];
      assert ToBE(len, 2) == ToBE(len / 256, 1) + [len % 256];
      assert ToBE(len / 256, 1) == ToBE(len / 256 / 256, 0) + [len / 256 % 256];
    } else {
      h := h + [maskBit + 127];
      h := PushLength64(h, len);
    }
    assert h == [Spec.WithTopBit(true, opcode)] + Spec.LengthField(len, mask.Some?);
    if mask.Some? {
      h := h + mask.value;
    }
  }

  /** Reads the eight length bytes, most significant first. */
  method PullLength(ext: bytes) returns (len: nat)
    ensures len == FromBE(ext)
  {
    len := 0;
    for i := 0 to |ext|
      invariant len == FromBE(ext[..i])
    {
      assert ext[..i + 1][..i] == ext[..i];
      len := len * 256 + ext[i];
    }
    assert ext[..|ext|] == ext;
  }

  /** Result of parsing one frame: its payload sits in `buffer` from `offset` on. */
  datatype FrameRead = NeedMore | Refused | FrameRead(opcode: byte, buffer: array<byte>, offset: nat, len: nat, rest: bytes)

  /** What a frame read means for the specification. */
  ghost predicate Reads(r: FrameRead, p: Spec.Parsed)
    reads if r.FrameRead? then {r.buffer} else {}
  {
    match r
    case NeedMore => p.NeedMore?
    case Refused => p.Refused?
    case FrameRead(opcode, buffer, offset, len, rest) =>
      offset + len <= buffer.Length && p == Spec.Parsed(opcode, buffer[offset..offset + len], rest)
  }

  /** Payload and mask arrive in one buffer; the payload is unmasked where it lies. */
  method ReadPayload(opcode: byte, masked: bool, len: nat, input: bytes) returns (r: FrameRead)
    ensures Reads(r, Spec.ReadPayload(opcode, masked, len, input))
    ensures r.FrameRead? ==> fresh(r.buffer)
  {
    if len > Spec.MAX_MESSAGE_SIZE {
      return Refused;
    }
    var extra := if masked then 4 else 0;
    if |input| < len + extra {
      return NeedMore;
    }
    var payload := new byte[len + extra](i requires 0 <= i < len + extra => input[i]);
    assert payload[..] == input[..len + extra];
    assert payload[extra..extra + len] == input[extra..len + extra];
    if masked {
      MaskInPlace(payload, 4, len, input[..4]);
    }
    r := FrameRead(opcode, payload, extra, len, input[len + extra..]);
  }

  method ReadFrame(input: bytes) returns (r: FrameRead)
    ensures Reads(r, Spec.ReadFrame(input))
    ensures r.FrameRead? ==> fresh(r.buffer)
  {
    if |input| < 2 {
      return NeedMore;
    }
    var opcode, fin := Spec.Low4(input[0]), Spec.TopBit(input[0]);
    var masked, len := Spec.TopBit(input[1]), Spec.Low7(input[1]);
    if opcode >= 8 && (!fin || len > 125) {
      return Refused;
    }
    hide Spec.ReadPayload, Spec.Low4, Spec.TopBit, Spec.Low7;
    if len == 126 {
      if |input| < 4 {
        return NeedMore;
      }
      assert input[1..][1..3] == input[2..4] && input[1..][3..] == input[4..];
      var extended := PullLength(input[2..4]);
      r := ReadPayload(opcode, masked, extended, input[4..]);
    } else if len == 127 {
      if |input| < 10 {
        return NeedMore;
      }
      assert input[1..][1..9] == input[2..10] && input[1..][9..] == input[10..];
      var extended := PullLength(input[2..10]);
      r := ReadPayload(opcode, masked, extended, input[10..]);
    } else {
      assert input[1..][1..] == input[2..];
      r := ReadPayload(opcode, masked, len, input[2..]);
    }
  }

  /** What became of a call of `ReadWsFrame`. */
  datatype Arrival = Waiting | Broken(eof: bool) | Arrived

  class WebsocketStream {
    const isClient: bool
    // What the underlying stream still holds to be read, and what has been handed to it to be written.
    var input: bytes
    var output: bytes
    var readBuffer: array<byte>
    var readOffset: nat
    var readRemaining: nat
    var pongs: seq<bytes>       // payloads posted to SendPong, in order
    var writeQueue: seq<bytes>
    var isWriting: bool

    ghost predicate Valid()
      reads this
    {
      && readOffset + readRemaining <= readBuffer.Length
      && (isWriting <==> writeQueue != [])
    }

    ghost function State(): Spec.Incoming
      reads this, readBuffer
      requires Valid()
    {
      Spec.Incoming(readBuffer[readOffset..readOffset + readRemaining], input, pongs)
    }

    /** Everything ever queued for writing; the head of the queue has already been handed down. */
    ghost function Enqueued(): bytes
      reads this
      requires Valid()
    {
      if writeQueue == [] then output else output + Flatten(writeQueue[1..])
    }

    constructor (isClient: bool, input: bytes)
      ensures Valid() && State() == Spec.Incoming([], input, []) && Enqueued() == []
      ensures this.isClient == isClient
    {
      this.isClient, this.input := isClient, input;
      readBuffer, readOffset, readRemaining := new byte[0], 0, 0;
      output, pongs, writeQueue, isWriting := [], [], [], false;
    }

    // ---------- writing ----------

    method DoWrite()
      modifies `isWriting, `output
      ensures writeQueue == [] ==> isWriting == old(isWriting) && output == old(output)
      ensures writeQueue != [] ==> isWriting && output == old(output) + writeQueue[0]
    {
      if writeQueue == [] {
        return;
      }
      isWriting := true;
      output := output + writeQueue[0];
    }

    method Enqueue(message: bytes)
      requires Valid()
      modifies `writeQueue, `isWriting, `output
      ensures Valid() && Enqueued() == old(Enqueued()) + message
    {
      writeQueue := writeQueue + [message];
      if !isWriting {
        DoWrite();
        assert writeQueue[1..] == [];
      } else {
        assert writeQueue[1..] == old(writeQueue)[1..] + [message];
        FlattenSnoc(old(writeQueue)[1..], message);
        Assoc(output, Flatten(old(writeQueue)[1..]), message);
      }
    }

    /** The underlying stream has written the head of the queue. */
    method WriteCompleted()
      requires Valid() && isWriting
      modifies `writeQueue, `isWriting, `output
      ensures Valid() && Enqueued() == old(Enqueued())
    {
      ghost var rest := writeQueue[1..];
      writeQueue := writeQueue[1..];
      if writeQueue != [] {
        DoWrite();
        Assoc(old(output), rest[0], Flatten(rest[1..]));
      } else {
        isWriting := false;
      }
    }

    /** One binary frame for the whole scatter list; a client masks it with a fresh `mask`. */
    method AsyncWrite(buffers: seq<bytes>, mask: Spec.Mask)
      requires Valid() && |Flatten(buffers)| < 0x8000_0000_0000_0000
      modifies `writeQueue, `isWriting, `output
      ensures var item := Spec.Item(true, Spec.BINARY, if isClient then Some(mask) else None, Flatten(buffers));
              Valid() && Enqueued() == old(Enqueued()) + Spec.Encode(item)
    {
      hide Spec.Encode;
      var payload := Gather(buffers);
      var message := BuildFrame(Spec.BINARY, payload, KeyFor(isClient, mask));
      Enqueue(message);
    }

    /** A pong carrying the payload of the ping it answers. */
    method SendPong(payload: bytes, mask: Spec.Mask)
      requires Valid() && |payload| <= 125
      modifies `writeQueue, `isWriting, `output
      ensures var item := Spec.Item(true, Spec.PONG, if isClient then Some(mask) else None, payload);
              Valid() && Enqueued() == old(Enqueued()) + Spec.Encode(item)
    {
      hide Spec.Encode;
      var saved := new byte[|payload|](i requires 0 <= i < |payload| => payload[i]);
      assert saved[..] == payload;
      var message := BuildFrame(Spec.PONG, saved, KeyFor(isClient, mask));
      Enqueue(message);
    }

    // ---------- reading ----------

    /** `ReadWsFrame` up to the next data frame, which becomes the read buffer. Pings on the way are answered at once,
        also when the read has to wait for more or fails. */
    method ReadWsFrame() returns (r: Arrival)
      requires Valid() && readRemaining == 0
      modifies `input, `readBuffer, `readOffset, `readRemaining, `pongs
      ensures Valid()
      ensures match Spec.NextData(old(input))
              case Blocked(rest, owed) => r == Waiting && State() == Spec.Incoming([], rest, old(pongs) + owed)
              case Ended(eof, rest, owed) => r == Broken(eof) && State() == Spec.Incoming([], rest, old(pongs) + owed)
              case Data(payload, rest, owed) =>
                r == Arrived && State() == Spec.Incoming(payload, rest, old(pongs) + owed)
    {
      hide Spec.NextData;
      var buffer, offset, len, rest, owed;
      r, buffer, offset, len, rest, owed := AwaitData(input);
      input, pongs := rest, pongs + owed;
      if r == Arrived {
        readBuffer, readOffset, readRemaining := buffer, offset, len;
      }
    }

    /** Copies from the read buffer into a caller's buffer of `size` bytes. */
    method TakeBuffered(size: nat) returns (data: bytes)
      requires Valid()
      modifies `readOffset, `readRemaining
      ensures Valid()
      ensures var c := old(State());
              var k := Min(|c.leftover|, size);
              data == c.leftover[..k] && State() == c.(leftover := c.leftover[k..])
    {
      var toCopy := Min(readRemaining, size);
      data := readBuffer[readOffset..readOffset + toCopy];
      readOffset := readOffset + toCopy;
      readRemaining := readRemaining - toCopy;
    }

    method AsyncReadSome(size: nat) returns (r: Outcome)
      requires Valid()
      modifies `input, `readBuffer, `readOffset, `readRemaining, `pongs
      ensures Valid()
      ensures match Spec.ReadSome(old(State()), size)
              case Wait(_, after) => r == Pending && State() == after
              case Failed(eof, after) => r == Error(eof) && State() == after
              case Done(data, after) => r == Read(data) && State() == after
    {
      hide Spec.NextData;
      if size == 0 {
        return Read([]);
      }
      if readRemaining == 0 {
        var arrival := ReadWsFrame();
        match arrival {
          case Waiting => return Pending;
          case Broken(eof) => return Error(eof);
          case Arrived =>
        }
      }
      var data := TakeBuffered(size);
      r := Read(data);
    }

    /** Fills a buffer of `size` bytes, frame by frame; `got` is what is in the buffer when it has to wait. */
    method AsyncRead(size: nat) returns (r: Outcome, ghost got: bytes)
      requires Valid()
      modifies `input, `readBuffer, `readOffset, `readRemaining, `pongs
      ensures Valid()
      ensures match Spec.ReadAll(old(State()), size)
              case Wait(data, after) => r == Pending && got == data && State() == after
              case Failed(eof, after) => r == Error(eof) && State() == after
              case Done(data, after) => r == Read(data) && State() == after
    {
      hide Spec.ReadSome;
      var data: bytes := [];
      got := [];
      StartPiece(Spec.ReadAll(State(), size));
      while |data| < size
        invariant Valid() && |data| <= size && got == data
        invariant Spec.ReadAll(old(State()), size) == Spec.Behind(data, Spec.ReadAll(State(), size - |data|))
        decreases |input|, |State().leftover|
      {
        ghost var before := State();
        Spec.WaitsEmpty(before, size - |data|);
        var piece := AsyncReadSome(size - |data|);
        match piece {
          case Pending =>
            assert data + [] == data;
            return Pending, got;
          case Error(eof) => return Error(eof), got;
          case Read(more) =>
            OnePiece(before, State(), data, more, size);
            Spec.ReadSomeShortens(before, size - |data|);
            data := data + more;
            got := data;
        }
      }
      assert data + [] == data;
      r := Read(data);
    }
  }

  lemma StartPiece(r: Spec.ReadOutcome)
    ensures Spec.Behind([], r) == r
  {
    if !r.Failed? {
      assert [] + r.data == r.data;
    }
  }

  /** One more piece of an `async_read` of `size` bytes. */
  lemma OnePiece(c: Spec.Incoming, c': Spec.Incoming, got: bytes, data: bytes, size: nat)
    requires |got| < size && Spec.ReadSome(c, size - |got|) == Spec.Done(data, c')
    ensures |data| <= size - |got|
    ensures Spec.Behind(got, Spec.ReadAll(c, size - |got|)) == Spec.Behind(got + data, Spec.ReadAll(c', size - |got + data|))
  {
    hide Spec.ReadSome, Spec.ReadAll;
    Spec.ReadSomeShortens(c, size - |got|);
    var left := size - |got| - |data|;
    ReadAllUnfolds(c, size - |got|);
    ReadNothing(c');
    if left == 0 {
      assert got + data + [] == got + data;
    } else if !Spec.ReadAll(c', left).Failed? {
      Assoc(got, data, Spec.ReadAll(c', left).data);
    }
  }

  lemma ReadNothing(c: Spec.Incoming)
    ensures Spec.ReadAll(c, 0) == Spec.Done([], c)
  {
  }

  lemma ReadAllUnfolds(c: Spec.Incoming, n: nat)
    requires n > 0 && Spec.ReadSome(c, n).Done? && |Spec.ReadSome(c, n).data| <= n
    ensures var data, after := Spec.ReadSome(c, n).data, Spec.ReadSome(c, n).after;
            Spec.ReadAll(c, n)
            == if |data| == n then Spec.Done(data, after) else Spec.Behind(data, Spec.ReadAll(after, n - |data|))
  {
    hide Spec.ReadSome;
  }

  /** What a read handler is called with, if it is called at all. */
  datatype Outcome = Pending | Error(eof: bool) | Read(data: bytes)

  function KeyFor(isClient: bool, mask: Spec.Mask): Option<Spec.Mask> {
    if isClient then Some(mask) else None
  }

  /** Header and payload of one frame; `payload` is masked in place when there is a mask. */
  method BuildFrame(opcode: byte, payload: array<byte>, mask: Option<Spec.Mask>) returns (message: bytes)
    requires opcode < 16 && payload.Length < 0x8000_0000_0000_0000
    modifies payload
    ensures message == Spec.Encode(Spec.Item(true, opcode, mask, old(payload[..])))
  {
    var header := BuildHeader(opcode, payload.Length, mask);
    assert payload[0..payload.Length] == payload[..];
    hide Spec.LengthField;
    if mask.Some? {
      MaskInPlace(payload, 0, payload.Length, mask.value);
      assert payload[..] == payload[0..payload.Length];
      Assoc([Spec.WithTopBit(true, opcode)] + Spec.LengthField(payload.Length, true), mask.value, payload[..]);
    } else {
      var prefix := [Spec.WithTopBit(true, opcode)] + Spec.LengthField(payload.Length, false);
      assert prefix + [] == prefix;
    }
    message := header + payload[..];
  }

  /** Reads frames until one carries data; collects the pings met on the way. */
  method AwaitData(input: bytes)
    returns (r: Arrival, buffer: array<byte>, offset: nat, len: nat, rest: bytes, owed: seq<bytes>)
    ensures r == Arrived ==> fresh(buffer) && offset + len <= buffer.Length
    ensures Spec.NextData(input) ==
            match r
            case Waiting => Spec.Blocked(rest, owed)
            case Broken(eof) => Spec.Ended(eof, rest, owed)
            case Arrived => Spec.Data(buffer[offset..offset + len], rest, owed)
  {
    hide Spec.NextData, Spec.ReadFrame, Spec.Owing;
    buffer, offset, len, rest, owed := new byte[0], 0, 0, input, [];
    OwedNothing(Spec.NextData(input));
    while true
      invariant Owed(owed, Spec.NextData(rest)) == Spec.NextData(input)
      decreases |rest|
    {
      NextDataUnfolds(rest);
      assert owed + [] == owed;
      var f := ReadFrame(rest);
      match f {
        case NeedMore => return Waiting, buffer, offset, len, rest, owed;
        case Refused => return Broken(false), buffer, offset, len, rest, owed;
        case FrameRead(opcode, payload, start, length, after) =>
          var body := payload[start..start + length];
          if opcode == Spec.CLOSE {
            return Broken(true), buffer, offset, len, rest, owed;
          } else if opcode == Spec.PING {
            OwedMore(owed, body, Spec.NextData(after));
            owed := owed + [body];
          } else if opcode != Spec.PONG {
            return Arrived, payload, start, length, after, owed;
          }
          rest := after;
      }
    }
  }

  /** Pings answered earlier come first. */
  ghost function Owed(owed: seq<bytes>, next: Spec.Next): Spec.Next {
    next.(pongs := owed + next.pongs)
  }

  lemma NextDataUnfolds(at: bytes)
    ensures Spec.NextData(at) ==
            match Spec.ReadFrame(at)
            case NeedMore => Spec.Blocked(at, [])
            case Refused => Spec.Ended(false, at, [])
            case Parsed(opcode, payload, rest) =>
              if opcode == Spec.CLOSE then Spec.Ended(true, at, [])
              else if opcode == Spec.PING then Spec.Owing(payload, Spec.NextData(rest))
              else if opcode == Spec.PONG then Spec.NextData(rest)
              else Spec.Data(payload, rest, [])
  {
  }

  lemma OwedNothing(next: Spec.Next)
    ensures Owed([], next) == next
  {
    assert [] + next.pongs == next.pongs;
  }

  lemma OwedMore(owed: seq<bytes>, payload: bytes, next: Spec.Next)
    ensures Owed(owed, Spec.Owing(payload, next)) == Owed(owed + [payload], next)
  {
    Assoc(owed, [payload], next.pongs);
  }
}
