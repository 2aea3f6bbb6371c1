/** The WebSocket framing layer (src/common/websocket_stream.cpp; sections 5.2, 5.3 and 5.5 of
    RFC 6455), as functions on byte sequences. */
module WebSocketSpec {
  import opened Bytes

  const MAX_MESSAGE_SIZE: nat := 1024 * 1024

  const BINARY: byte := 0x2
  const CLOSE: byte := 0x8
  const PING: byte := 0x9
  const PONG: byte := 0xA

  type Mask = m: bytes | |m| == 4 witness [0, 0, 0, 0]

  /** One frame as a peer sends it: `mask` is present exactly for frames from a client. */
  datatype Item = Item(fin: bool, opcode: byte, mask: Option<Mask>, payload: bytes)

  // ---------- masking ----------

  function Masked(data: bytes, mask: Mask): (r: bytes)
    ensures |r| == |data|
  {
    seq(|data|, i requires 0 <= i < |data| => Xor(data[i], mask[i % 4]))
  }

  lemma MaskedTwice(data: bytes, mask: Mask)
    ensures Masked(Masked(data, mask), mask) == data
  {
    forall i | 0 <= i < |data| ensures Masked(Masked(data, mask), mask)[i] == data[i] {
      XorTwice(data[i], mask[i % 4]);
    }
  }

  // ---------- fields of the first two bytes ----------

  predicate TopBit(b: byte) { b / 128 == 1 }

  function Low7(b: byte): byte { b % 128 }

  function Low4(b: byte): byte { b % 16 }

  function WithTopBit(top: bool, low: byte): byte
    requires low < 128
  {
    (if top then 0x80 else 0) + low
  }

  lemma TopBitFields(top: bool, low: byte)
    requires low < 128
    ensures TopBit(WithTopBit(top, low)) == top && Low7(WithTopBit(top, low)) == low
    ensures low < 16 ==> Low4(WithTopBit(top, low)) == low
  {
  }

  // ---------- sending ----------

  /** The length field in its shortest form: 7 bits, or 16 bits after 126, or 64 bits after 127. */
  function LengthField(len: nat, masked: bool): (r: bytes)
    requires len < 0x8000_0000_0000_0000
    ensures |r| == (if len <= 125 then 1 else if len <= 0xFFFF then 3 else 9)
  {
    if len <= 125 then [WithTopBit(masked, len)]
    else if len <= 0xFFFF then [WithTopBit(masked, 126)] + ToBE(len, 2)
    else [WithTopBit(masked, 127)] + ToBE(len, 8)
  }

  predicate ValidItem(item: Item) {
    && item.opcode < 16 && |item.payload| <= MAX_MESSAGE_SIZE
    && (item.opcode >= 8 ==> item.fin && |item.payload| <= 125)
  }

  function MaskPart(item: Item): bytes {
    match item.mask
    case None => item.payload
    case Some(mask) => mask + Masked(item.payload, mask)
  }

  /** The bytes of a frame. The program itself sends with FIN set and one of two opcodes. */
  function Encode(item: Item): bytes
    requires item.opcode < 16 && |item.payload| < 0x8000_0000_0000_0000
  {
    [WithTopBit(item.fin, item.opcode)] + LengthField(|item.payload|, item.mask.Some?) + MaskPart(item)
  }

  // ---------- receiving one frame ----------

  /** Result of `ReadWsFrame` before its opcode is looked at. */
  datatype Parsed = NeedMore | Refused | Parsed(opcode: byte, payload: bytes, rest: bytes)

  /** The payload part, once its length and whether it is masked are known. */
  function ReadPayload(opcode: byte, masked: bool, len: nat, input: bytes): (r: Parsed)
    ensures r.Parsed? ==> |r.rest| <= |input|
  {
    var extra := if masked then 4 else 0;
    if len > MAX_MESSAGE_SIZE then Refused
    else if |input| < len + extra then NeedMore
    else
      var body := input[extra..len + extra];
      Parsed(opcode, if masked then Masked(body, input[..4]) else body, input[len + extra..])
  }

  datatype LengthResult = NoLength | Length(masked: bool, len: nat, rest: bytes)

  /** The mask bit and the length, with the 16-bit or 64-bit extension when the 7 bits say so. */
  function ReadLength(input: bytes): LengthResult
    requires input != []
  {
    var masked, len := TopBit(input[0]), Low7(input[0]);
    if len == 126 then
      if |input| < 3 then NoLength else Length(masked, FromBE(input[1..3]), input[3..])
    else if len == 127 then
      if |input| < 9 then NoLength else Length(masked, FromBE(input[1..9]), input[9..])
    else
      Length(masked, len, input[1..])
  }

  function ReadFrame(input: bytes): (r: Parsed)
    ensures r.Parsed? ==> |r.rest| < |input|
  {
    if |input| < 2 then NeedMore
    else
      var opcode, fin := Low4(input[0]), TopBit(input[0]);
      if opcode >= 8 && (!fin || Low7(input[1]) > 125) then Refused
      else
        match ReadLength(input[1..])
        case NoLength => NeedMore
        case Length(masked, len, rest) => ReadPayload(opcode, masked, len, rest)
  }

  lemma LengthRoundTrip(len: nat, masked: bool, rest: bytes)
    requires len < 0x8000_0000_0000_0000
    ensures var field := LengthField(len, masked);
            && ReadLength(field + rest) == Length(masked, len, rest)
            && (Low7(field[0]) <= 125 <==> len <= 125)
  {
    var low := if len <= 125 then len else if len <= 0xFFFF then 126 else 127;
    var ext := if len <= 125 then [] else if len <= 0xFFFF then ToBE(len, 2) else ToBE(len, 8);
    Pow256Values();
    if len > 125 {
      FromToBE(len, |ext|);
    }
    TopBitFields(masked, low);
    Framed(WithTopBit(masked, low), ext, rest);
    hide ToBE, FromBE, Pow256, TopBit, Low7, WithTopBit;
    assert LengthField(len, masked) == [WithTopBit(masked, low)] + ext;
  }

  lemma PayloadRoundTrip(item: Item, rest: bytes)
    requires |item.payload| <= MAX_MESSAGE_SIZE
    ensures ReadPayload(item.opcode, item.mask.Some?, |item.payload|, MaskPart(item) + rest)
            == Parsed(item.opcode, item.payload, rest)
  {
    var input := MaskPart(item) + rest;
    match item.mask
    case None =>
      assert input[0..|item.payload|] == item.payload && input[|item.payload|..] == rest;
    case Some(mask) =>
      MaskedTwice(item.payload, mask);
      var body := Masked(item.payload, mask);
      assert input == mask + (body + rest);
      assert input[..4] == mask && input[4..|body| + 4] == body && input[|body| + 4..] == rest;
  }

  /** Reading undoes sending, whatever the mask and the role, and stops exactly at the frame's end. A frame that is
      not valid (a control frame that is long or a fragment, or a payload beyond 1 MiB) is refused, and no other. */
  lemma FrameRoundTrip(item: Item, rest: bytes)
    requires item.opcode < 16 && |item.payload| < 0x8000_0000_0000_0000
    ensures ReadFrame(Encode(item) + rest)
            == if ValidItem(item) then Parsed(item.opcode, item.payload, rest) else Refused
  {
    var b0 := WithTopBit(item.fin, item.opcode);
    var field := LengthField(|item.payload|, item.mask.Some?);
    var tail := MaskPart(item) + rest;
    TopBitFields(item.fin, item.opcode);
    LengthRoundTrip(|item.payload|, item.mask.Some?, tail);
    if |item.payload| <= MAX_MESSAGE_SIZE {
      PayloadRoundTrip(item, rest);
    } else {
      assert ReadPayload(item.opcode, item.mask.Some?, |item.payload|, tail) == Refused;
    }
    hide ReadLength, ReadPayload, MaskPart, LengthField, TopBit, Low7, Low4, WithTopBit;
    Assoc([b0] + field, MaskPart(item), rest);
    Framed(b0, field, tail);
    assert Encode(item) + rest == [b0] + field + tail;
    assert (field + tail)[0] == field[0];
  }

  // ---------- reading a byte stream out of frames ----------

  /** `leftover` is the read buffer from `read_offset_` on, `input` the bytes the underlying stream still
      holds, and `pongs` the payloads handed to `SendPong` so far. */
  datatype Incoming = Incoming(leftover: bytes, input: bytes, pongs: seq<bytes>)

  /** `rest` is the input from the frame on that the search stopped at, or from behind it if that carries data; the
      `pongs` on the way are answered in any case. */
  datatype Next =
    | Blocked(rest: bytes, pongs: seq<bytes>)
    | Ended(eof: bool, rest: bytes, pongs: seq<bytes>)
    | Data(payload: bytes, rest: bytes, pongs: seq<bytes>)

  /** `payload` answered before the result of looking further. */
  function Owing(payload: bytes, next: Next): Next {
    next.(pongs := [payload] + next.pongs)
  }

  /** `ReadWsFrame`: the next data frame, answering pings and skipping pongs on the way. */
  function NextData(input: bytes): Next
    decreases |input|
  {
    match ReadFrame(input)
    case NeedMore => Blocked(input, [])
    case Refused => Ended(false, input, [])
    case Parsed(opcode, payload, rest) =>
      if opcode == CLOSE then Ended(true, input, [])
      else if opcode == PING then Owing(payload, NextData(rest))
      else if opcode == PONG then NextData(rest)
      else Data(payload, rest, [])
  }

  lemma {:induction false} NextDataShortens(input: bytes)
    ensures NextData(input).Data? ==> |NextData(input).rest| < |input|
    decreases |input|
  {
    match ReadFrame(input)
    case Parsed(_, _, rest) => NextDataShortens(rest);
    case _ =>
  }

  /** A read that cannot complete yet waits, with `data` already in the caller's buffer; one that meets a close frame
      or a bad frame fails. */
  datatype ReadOutcome =
    | Wait(data: bytes, after: Incoming)
    | Failed(eof: bool, after: Incoming)
    | Done(data: bytes, after: Incoming)

  /** `async_read_some` into a buffer of `n` bytes. */
  function ReadSome(c: Incoming, n: nat): ReadOutcome {
    if n == 0 then Done([], c)
    else if c.leftover != [] then
      var k := Min(|c.leftover|, n);
      Done(c.leftover[..k], c.(leftover := c.leftover[k..]))
    else
      match NextData(c.input)
      case Blocked(rest, pongs) => Wait([], Incoming([], rest, c.pongs + pongs))
      case Ended(eof, rest, pongs) => Failed(eof, Incoming([], rest, c.pongs + pongs))
      case Data(payload, rest, pongs) =>
        var k := Min(|payload|, n);
        Done(payload[..k], Incoming(payload[k..], rest, c.pongs + pongs))
  }

  lemma WaitsEmpty(c: Incoming, n: nat)
    ensures ReadSome(c, n).Wait? ==> ReadSome(c, n).data == []
  {
  }

  lemma ReadSomeShortens(c: Incoming, n: nat)
    requires n > 0 && ReadSome(c, n).Done?
    ensures var r := ReadSome(c, n);
            && |r.data| <= n
            && (|r.after.input| < |c.input| || (r.after.input == c.input && |r.after.leftover| < |c.leftover|))
  {
    NextDataShortens(c.input);
  }

  /** `async_read` into a buffer of `n` bytes: as many frames as it takes to fill it. */
  function ReadAll(c: Incoming, n: nat): ReadOutcome
    decreases |c.input|, |c.leftover|
  {
    if n == 0 then Done([], c)
    else
      match ReadSome(c, n)
      case Done(data, after) =>
        ReadSomeShortens(c, n);
        if |data| == n then Done(data, after) else Behind(data, ReadAll(after, n - |data|))
      case other => other
  }

  /** The outcome of a read that has got `data` already and goes on from there. */
  function Behind(data: bytes, r: ReadOutcome): ReadOutcome {
    match r
    case Wait(more, after) => Wait(data + more, after)
    case Failed(eof, after) => Failed(eof, after)
    case Done(more, after) => Done(data + more, after)
  }

  // ---------- reading takes bytes off the front ----------

  predicate Suffix(a: bytes, b: bytes) {
    |a| <= |b| && a == b[|b| - |a|..]
  }

  lemma SuffixTrans(a: bytes, b: bytes, c: bytes)
    requires Suffix(a, b) && Suffix(b, c)
    ensures Suffix(a, c)
  {
  }

  lemma DropSuffix(b: bytes, n: nat)
    requires n <= |b|
    ensures Suffix(b[n..], b)
  {
  }

  lemma ReadFrameSuffix(input: bytes)
    ensures ReadFrame(input).Parsed? ==> Suffix(ReadFrame(input).rest, input)
  {
    if |input| >= 2 && ReadLength(input[1..]).Length? {
      var rest := ReadLength(input[1..]).rest;
      ReadLengthSuffix(input[1..]);
      DropSuffix(input, 1);
      SuffixTrans(rest, input[1..], input);
      if ReadFrame(input).Parsed? {
        ReadPayloadSuffix(Low4(input[0]), ReadLength(input[1..]).masked, ReadLength(input[1..]).len, rest);
        SuffixTrans(ReadFrame(input).rest, rest, input);
      }
    }
  }

  lemma ReadLengthSuffix(input: bytes)
    requires input != []
    ensures ReadLength(input).Length? ==> Suffix(ReadLength(input).rest, input)
  {
  }

  lemma ReadPayloadSuffix(opcode: byte, masked: bool, len: nat, input: bytes)
    ensures ReadPayload(opcode, masked, len, input).Parsed? ==> Suffix(ReadPayload(opcode, masked, len, input).rest, input)
  {
  }

  lemma {:induction false} NextDataSuffix(input: bytes)
    ensures Suffix(NextData(input).rest, input)
    decreases |input|
  {
    ReadFrameSuffix(input);
    hide Suffix, ReadFrame;
    match ReadFrame(input)
    case Parsed(opcode, payload, rest) =>
      if opcode == PING || opcode == PONG {
        NextDataSuffix(rest);
        SuffixTrans(NextData(rest).rest, rest, input);
      } else {
        DropSuffix(input, 0);
        assert input[0..] == input;
      }
    case _ =>
      DropSuffix(input, 0);
      assert input[0..] == input;
  }

  lemma ReadSomeSuffix(c: Incoming, n: nat)
    ensures Suffix(ReadSome(c, n).after.input, c.input)
  {
    hide NextData, Suffix;
    NextDataSuffix(c.input);
    DropSuffix(c.input, 0);
    assert c.input[0..] == c.input;
  }

  lemma {:induction false} ReadAllSuffix(c: Incoming, n: nat)
    ensures Suffix(ReadAll(c, n).after.input, c.input)
    decreases |c.input|, |c.leftover|
  {
    ReadSomeSuffix(c, n);
    hide ReadSome, Suffix;
    if n == 0 {
      DropSuffix(c.input, 0);
      assert c.input[0..] == c.input;
    } else if ReadSome(c, n).Done? && |ReadSome(c, n).data| != n {
      ReadSomeShortens(c, n);
      var data, after := ReadSome(c, n).data, ReadSome(c, n).after;
      ReadAllSuffix(after, n - |data|);
      SuffixTrans(ReadAll(after, n - |data|).after.input, after.input, c.input);
    }
  }

  // ---------- the byte pipe ----------

  predicate IsData(item: Item) {
    item.opcode !in {CLOSE, PING, PONG}
  }

  /** Frames a peer that has not closed may send. */
  predicate Flowing(items: seq<Item>) {
    forall i :: 0 <= i < |items| ==> ValidItem(items[i]) && items[i].opcode != CLOSE
  }

  function Encodes(items: seq<Item>): bytes
    requires Flowing(items)
  {
    if items == [] then [] else Encode(items[0]) + Encodes(items[1..])
  }

  /** The bytes the frames carry for the user. */
  function Payloads(items: seq<Item>): bytes {
    if items == [] then [] else (if IsData(items[0]) then items[0].payload else []) + Payloads(items[1..])
  }

  /** The ping payloads, each owed one pong. */
  function Pings(items: seq<Item>): seq<bytes> {
    if items == [] then [] else (if items[0].opcode == PING then [items[0].payload] else []) + Pings(items[1..])
  }

  lemma {:induction false} EncodesAppend(items: seq<Item>, item: Item)
    requires Flowing(items) && ValidItem(item) && item.opcode != CLOSE
    ensures Flowing(items + [item])
    ensures Encodes(items + [item]) == Encodes(items) + Encode(item)
    ensures Payloads(items + [item]) == Payloads(items) + (if IsData(item) then item.payload else [])
    ensures Pings(items + [item]) == Pings(items) + (if item.opcode == PING then [item.payload] else [])
    decreases |items|
  {
    hide Encode;
    if items == [] {
      OneItem(item);
      assert [] + [item] == [item];
    } else {
      EncodesAppend(items[1..], item);
      assert (items + [item])[1..] == items[1..] + [item];
      Assoc(Encode(items[0]), Encodes(items[1..]), Encode(item));
      Assoc(if IsData(items[0]) then items[0].payload else [], Payloads(items[1..]),
            if IsData(item) then item.payload else []);
      Assoc(if items[0].opcode == PING then [items[0].payload] else [], Pings(items[1..]),
            if item.opcode == PING then [item.payload] else []);
    }
  }

  lemma OneItem(item: Item)
    requires ValidItem(item) && item.opcode != CLOSE
    ensures Flowing([item]) && Encodes([item]) == [] + Encode(item)
    ensures Payloads([item]) == [] + (if IsData(item) then item.payload else [])
    ensures Pings([item]) == [] + (if item.opcode == PING then [item.payload] else [])
  {
    hide Encode;
    assert [item][1..] == [];
    assert Encode(item) + [] == Encode(item);
  }

  lemma NextDataStep(items: seq<Item>)
    requires Flowing(items) && items != []
    ensures var next := NextData(Encodes(items[1..]));
            NextData(Encodes(items))
            == if IsData(items[0]) then Data(items[0].payload, Encodes(items[1..]), [])
               else if items[0].opcode == PING then Owing(items[0].payload, next)
               else next
  {
    FrameRoundTrip(items[0], Encodes(items[1..]));
    hide ReadFrame, Encode;
  }

  /** `ReadWsFrame` finds the next data frame and owes exactly the pongs of the pings before it; if there is no data
      frame it owes the pongs of all pings. */
  lemma {:induction false} NextDataOf(items: seq<Item>) returns (rest: seq<Item>)
    requires Flowing(items)
    ensures Flowing(rest) && !NextData(Encodes(items)).Ended?
    ensures var next := NextData(Encodes(items));
            && next.rest == Encodes(rest) && next.pongs + Pings(rest) == Pings(items)
            && (if next.Data? then next.payload else []) + Payloads(rest) == Payloads(items)
            && (next.Blocked? ==> rest == [])
  {
    if items == [] {
      rest := [];
      assert NextData([]) == Blocked([], []);
    } else {
      NextDataStep(items);
      hide NextData, Encodes;
      if IsData(items[0]) {
        rest := items[1..];
        assert [] + Pings(rest) == Pings(rest);
      } else {
        rest := NextDataOf(items[1..]);
        SkipControl(items);
        if items[0].opcode == PING {
          Assoc([items[0].payload], NextData(Encodes(items[1..])).pongs, Pings(rest));
        }
      }
    }
  }

  lemma SkipControl(items: seq<Item>)
    requires items != [] && !IsData(items[0])
    ensures Payloads(items) == Payloads(items[1..])
    ensures Pings(items) == if items[0].opcode == PING then [items[0].payload] + Pings(items[1..]) else Pings(items[1..])
  {
    assert [] + Payloads(items[1..]) == Payloads(items[1..]);
    assert [] + Pings(items[1..]) == Pings(items[1..]);
  }

  /** The bytes not yet read: what is left in the buffer, then what the frames carry. */
  function Unread(c: Incoming, items: seq<Item>): bytes {
    c.leftover + Payloads(items)
  }

  /** `c` has exactly the frames `items` in front of it. */
  predicate Holds(c: Incoming, items: seq<Item>) {
    Flowing(items) && c.input == Encodes(items)
  }

  /** A read takes bytes off the front and answers pings in order. */
  predicate Reads(c: Incoming, items: seq<Item>, data: bytes, c': Incoming, items': seq<Item>) {
    && Holds(c', items')
    && data + Unread(c', items') == Unread(c, items)
    && c'.pongs + Pings(items') == c.pongs + Pings(items)
  }

  /** `async_read_some` takes the next bytes; it waits only when there are none, and then all pings are answered. */
  lemma ReadSomePipe(c: Incoming, items: seq<Item>, n: nat) returns (items': seq<Item>)
    requires Holds(c, items)
    ensures !ReadSome(c, n).Failed?
    ensures var r := ReadSome(c, n);
            && |r.data| <= n && Reads(c, items, r.data, r.after, items')
            && (r.Wait? ==> r.data == [] && Unread(c, items) == [] && items' == [] && r.after.leftover == [])
  {
    hide NextData, Encodes, Flowing;
    items' := items;
    if n == 0 {
      assert [] + Unread(c, items) == Unread(c, items);
    } else if c.leftover != [] {
      var k := Min(|c.leftover|, n);
      assert c.leftover == c.leftover[..k] + c.leftover[k..];
      Assoc(c.leftover[..k], c.leftover[k..], Payloads(items));
    } else {
      items' := NextDataOf(items);
      var next := NextData(c.input);
      Assoc(c.pongs, next.pongs, Pings(items'));
      assert Unread(c, items) == Payloads(items);
      if next.Data? {
        var k := Min(|next.payload|, n);
        assert next.payload == next.payload[..k] + next.payload[k..];
        Assoc(next.payload[..k], next.payload[k..], Payloads(items'));
      } else {
        assert [] + ([] + Payloads(items')) == [] + Payloads(items');
      }
    }
  }

  lemma ReadsNothing(c: Incoming, items: seq<Item>)
    requires Holds(c, items)
    ensures Reads(c, items, [], c, items)
  {
    assert [] + Unread(c, items) == Unread(c, items);
  }

  lemma ReadsHolds(c: Incoming, items: seq<Item>, data: bytes, c': Incoming, items': seq<Item>)
    requires Reads(c, items, data, c', items')
    ensures Holds(c', items') && Unread(c, items) == data + Unread(c', items')
  {
  }

  lemma ReadsTrans(c: Incoming, items: seq<Item>, data: bytes, c': Incoming, items': seq<Item>,
                   more: bytes, c'': Incoming, items'': seq<Item>)
    requires Reads(c, items, data, c', items') && Reads(c', items', more, c'', items'')
    ensures Reads(c, items, data + more, c'', items'')
  {
    Assoc(data, more, Unread(c'', items''));
  }

  /** `async_read` completes exactly when that many bytes have been sent, and returns the next ones; while it waits all
      that has been sent is in its buffer. */
  lemma {:induction false} ReadAllPipe(c: Incoming, items: seq<Item>, n: nat) returns (items': seq<Item>)
    requires Holds(c, items)
    ensures !ReadAll(c, n).Failed?
    ensures var r := ReadAll(c, n);
            && Reads(c, items, r.data, r.after, items')
            && (if r.Done? then |r.data| == n
                else |r.data| < n && r.data == Unread(c, items) && items' == [] && r.after.leftover == [])
    decreases |c.input|, |c.leftover|
  {
    hide ReadSome, Holds, Reads, Unread;
    items' := ReadSomePipe(c, items, n);
    if n == 0 {
      ReadsNothing(c, items);
      items' := items;
    } else if ReadSome(c, n).Done? && |ReadSome(c, n).data| < n {
      var data, after := ReadSome(c, n).data, ReadSome(c, n).after;
      ReadSomeShortens(c, n);
      var middle := items';
      ReadsHolds(c, items, data, after, middle);
      items' := ReadAllPipe(after, middle, n - |data|);
      var r := ReadAll(after, n - |data|);
      ReadsTrans(c, items, data, after, middle, r.data, r.after, items');
    }
  }
}
