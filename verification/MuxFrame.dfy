/** The multiplexer's wire format (src/common/mux.cpp, `Header`, `do_read_header`,
    `do_read_body`) and the kinds of frame a session sends. */
module MuxFrame {
  import opened Bytes

  const HEADER_SIZE: nat := 12
  const MAX_MESSAGE_SIZE: nat := 1024 * 1024

  const DATA: byte := 0
  const WINDOW_UPDATE: byte := 1
  const PING: byte := 2
  const GO_AWAY: byte := 3

  const SYN: u16 := 1
  const ACK: u16 := 2
  const FIN: u16 := 4

  datatype Header = Header(version: byte, kind: byte, flags: u16, streamId: u32, length: u32)

  datatype Frame = Frame(h: Header, body: bytes)

  /** `flags & bit`, for a single-bit mask. */
  predicate Has(flags: u16, bit: u16)
    requires bit in {SYN, ACK, FIN}
  {
    flags / bit % 2 == 1
  }

  // ---------- header codec ----------

  function Encode(h: Header): (s: bytes)
    ensures |s| == HEADER_SIZE
  {
    [h.version, h.kind] + ToBE(h.flags, 2) + ToBE(h.streamId, 4) + ToBE(h.length, 4)
  }

  function Decode(s: bytes): Header
    requires |s| == HEADER_SIZE
  {
    Pow256Values();
    Header(s[0], s[1], FromBE(s[2..4]), FromBE(s[4..8]), FromBE(s[8..12]))
  }

  lemma DecodeEncode(h: Header)
    ensures Decode(Encode(h)) == h
  {
    Pow256Values();
    FromToBE(h.flags, 2);
    FromToBE(h.streamId, 4);
    FromToBE(h.length, 4);
    hide ToBE, FromBE, Pow256;
    var s := Encode(h);
    assert s[2..4] == ToBE(h.flags, 2);
    assert s[4..8] == ToBE(h.streamId, 4);
    assert s[8..12] == ToBE(h.length, 4);
  }

  lemma EncodeDecode(s: bytes)
    requires |s| == HEADER_SIZE
    ensures Encode(Decode(s)) == s
  {
    ToFromBE(s[2..4]);
    ToFromBE(s[4..8]);
    ToFromBE(s[8..12]);
    assert s == [s[0], s[1]] + s[2..4] + s[4..8] + s[8..12];
  }

  /** The twelve bytes: version, type, then flags, id and length, most significant byte first. */
  lemma HeaderOnWire(h: Header)
    ensures Encode(h)
            == [h.version, h.kind] + [h.flags / 0x100, h.flags % 0x100]
               + [h.streamId / 0x100_0000, h.streamId / 0x1_0000 % 0x100, h.streamId / 0x100 % 0x100, h.streamId % 0x100]
               + [h.length / 0x100_0000, h.length / 0x1_0000 % 0x100, h.length / 0x100 % 0x100, h.length % 0x100]
  {
    BytesOfU16(h.flags);
    BytesOfU32(h.streamId);
    BytesOfU32(h.length);
    hide ToBE;
  }

  // ---------- frames a session sends ----------

  function Syn(id: u32): Frame { Frame(Header(0, DATA, SYN, id, 0), []) }

  function Ack(id: u32): Frame { Frame(Header(0, DATA, ACK, id, 0), []) }

  function Fin(id: u32): Frame { Frame(Header(0, DATA, FIN, id, 0), []) }

  function Payload(id: u32, body: bytes): Frame
    requires |body| < 0x1_0000_0000
  {
    Frame(Header(0, DATA, 0, id, |body|), body)
  }

  function WindowUpdate(id: u32, delta: u32): Frame { Frame(Header(0, WINDOW_UPDATE, 0, id, delta), []) }

  function Ping(flags: u16): Frame { Frame(Header(0, PING, flags, 0, 0), []) }

  /** The headers of all frames that a session sends: type 0 with flag words 1, 2, 4 or 0, type 1, and type 2 with flag
      words 1 or 2. */
  lemma FramesOnWire(id: u32, delta: u32, body: bytes)
    requires |body| < 0x1_0000_0000
    ensures Wire(Syn(id)) == [0, 0] + [0, 1] + ToBE(id, 4) + [0, 0, 0, 0] + []
    ensures Wire(Ack(id)) == [0, 0] + [0, 2] + ToBE(id, 4) + [0, 0, 0, 0] + []
    ensures Wire(Fin(id)) == [0, 0] + [0, 4] + ToBE(id, 4) + [0, 0, 0, 0] + []
    ensures Wire(Payload(id, body)) == [0, 0] + [0, 0] + ToBE(id, 4) + ToBE(|body|, 4) + body
    ensures Wire(WindowUpdate(id, delta)) == [0, 1] + [0, 0] + ToBE(id, 4) + ToBE(delta, 4) + []
    ensures Wire(Ping(1)) == [0, 2] + [0, 1] + [0, 0, 0, 0] + [0, 0, 0, 0] + []
    ensures Wire(Ping(2)) == [0, 2] + [0, 2] + [0, 0, 0, 0] + [0, 0, 0, 0] + []
  {
    hide ToBE, Wire;
    SmallWords();
    WireParts(Syn(id));
    WireParts(Ack(id));
    WireParts(Fin(id));
    WireParts(Payload(id, body));
    WireParts(WindowUpdate(id, delta));
    WireParts(Ping(1));
    WireParts(Ping(2));
  }

  lemma SmallWords()
    ensures ToBE(0, 2) == [0, 0] && ToBE(1, 2) == [0, 1] && ToBE(2, 2) == [0, 2] && ToBE(4, 2) == [0, 4]
    ensures ToBE(0, 4) == [0, 0, 0, 0]
  {
    BigEndian2(0);
    BigEndian2(1);
    BigEndian2(2);
    BigEndian2(4);
    BigEndian4(0);
  }

  lemma WireParts(f: Frame)
    ensures Wire(f) == [f.h.version, f.h.kind] + ToBE(f.h.flags, 2) + ToBE(f.h.streamId, 4) + ToBE(f.h.length, 4) + f.body
  {
  }

  /** The body a receiver reads after the header is exactly the body that was sent. */
  predicate WellFormed(f: Frame) {
    if f.h.kind == DATA && f.h.length > 0 then |f.body| == f.h.length <= MAX_MESSAGE_SIZE else f.body == []
  }

  predicate IsPayload(f: Frame) { f.h.kind == DATA && f.h.flags == 0 && f.body != [] }

  predicate IsUpdate(f: Frame) { f.h.kind == WINDOW_UPDATE && f.h.flags == 0 }

  predicate IsSyn(f: Frame) { f.h.kind == DATA && f.h.flags == SYN && f.body == [] }

  predicate IsAck(f: Frame) { f.h.kind == DATA && f.h.flags == ACK && f.body == [] }

  predicate IsFin(f: Frame) { f.h.kind == DATA && f.h.flags == FIN && f.body == [] }

  predicate IsPing(f: Frame) { f.h.kind == PING && f.h.flags in {SYN, ACK} }

  /** What a session of this program ever sends. */
  predicate Conforming(f: Frame) {
    && WellFormed(f)
    && (IsPayload(f) || IsUpdate(f) || IsSyn(f) || IsAck(f) || IsFin(f) || IsPing(f))
  }

  // ---------- the read loop ----------

  datatype Reader = AwaitHeader | AwaitBody(h: Header)

  /** What completing one exact read leads to: nothing yet, one frame, or `stop()`. */
  datatype ReadStep = Continue(next: Reader) | Deliver(next: Reader, f: Frame) | Halt

  function Needs(r: Reader): nat {
    match r
    case AwaitHeader => HEADER_SIZE
    case AwaitBody(h) => h.length
  }

  function OnRead(r: Reader, data: bytes): ReadStep
    requires |data| == Needs(r)
  {
    match r
    case AwaitHeader =>
      var h := Decode(data);
      if h.kind == DATA && h.length > 0 then
        if h.length > MAX_MESSAGE_SIZE then Halt else Continue(AwaitBody(h))
      else
        Deliver(AwaitHeader, Frame(h, []))
    case AwaitBody(h) => Deliver(AwaitHeader, Frame(h, data))
  }

  /** The session stops at a data frame that announces more than 1 MiB, and at no other header. */
  lemma HaltsIff(data: bytes)
    requires |data| == HEADER_SIZE
    ensures OnRead(AwaitHeader, data).Halt? <==> data[1] == 0 && FromBE(data[8..]) > 0x10_0000
    ensures OnRead(AwaitHeader, data).Continue? <==> data[1] == 0 && 0 < FromBE(data[8..]) <= 0x10_0000
  {
    assert data[8..12] == data[8..];
  }

  // ---------- bytes on the wire ----------

  function Wire(f: Frame): bytes {
    Encode(f.h) + f.body
  }

  function Wires(fs: seq<Frame>): bytes {
    if fs == [] then [] else Wire(fs[0]) + Wires(fs[1..])
  }

  lemma {:induction false} WiresAppend(a: seq<Frame>, b: seq<Frame>)
    ensures Wires(a + b) == Wires(a) + Wires(b)
  {
    if a == [] {
      assert a + b == b;
    } else {
      WiresAppend(a[1..], b);
      assert (a + b)[1..] == a[1..] + b;
      Assoc(Wire(a[0]), Wires(a[1..]), Wires(b));
    }
  }

  /** `fs` is the sequence of frames still to come out of a reader in state `r` with `wire` in front of it. */
  predicate Pending(r: Reader, wire: bytes, fs: seq<Frame>) {
    && (forall i :: 0 <= i < |fs| ==> WellFormed(fs[i]))
    && match r
       case AwaitHeader => wire == Wires(fs)
       case AwaitBody(h) =>
         fs != [] && fs[0].h == h && h.kind == DATA && h.length > 0 && wire == fs[0].body + Wires(fs[1..])
  }

  /** The first pending frame, split into header, body and the rest. */
  lemma FirstFrame(wire: bytes, fs: seq<Frame>)
    requires wire == Wires(fs) && fs != []
    ensures |wire| >= HEADER_SIZE && Decode(wire[..HEADER_SIZE]) == fs[0].h
    ensures wire[HEADER_SIZE..] == fs[0].body + Wires(fs[1..])
  {
    var header := Encode(fs[0].h);
    Assoc(header, fs[0].body, Wires(fs[1..]));
    assert wire == header + (fs[0].body + Wires(fs[1..]));
    assert wire[..HEADER_SIZE] == header;
    DecodeEncode(fs[0].h);
  }

  lemma ReadsHeader(wire: bytes, fs: seq<Frame>)
    requires Pending(AwaitHeader, wire, fs) && fs != [] && |wire| >= HEADER_SIZE
    ensures match OnRead(AwaitHeader, wire[..HEADER_SIZE])
            case Continue(next) => Pending(next, wire[HEADER_SIZE..], fs)
            case Deliver(next, f) => f == fs[0] && Pending(next, wire[HEADER_SIZE..], fs[1..])
            case Halt => false
  {
    FirstFrame(wire, fs);
    assert WellFormed(fs[0]);
    assert fs[0].body == [] ==> fs[0].body + Wires(fs[1..]) == Wires(fs[1..]);
  }

  /** One exact read never halts on well-formed frames, and either keeps the pending frames or
      delivers precisely the first of them. */
  lemma ReaderRecovers(r: Reader, wire: bytes, fs: seq<Frame>)
    requires Pending(r, wire, fs) && fs != [] && |wire| >= Needs(r)
    ensures match OnRead(r, wire[..Needs(r)])
            case Continue(next) => Pending(next, wire[Needs(r)..], fs)
            case Deliver(next, f) => f == fs[0] && Pending(next, wire[Needs(r)..], fs[1..])
            case Halt => false
  {
    match r
    case AwaitHeader => ReadsHeader(wire, fs);
    case AwaitBody(h) =>
      assert WellFormed(fs[0]);
      assert wire[..h.length] == fs[0].body && wire[h.length..] == Wires(fs[1..]);
  }

  lemma PendingAppend(r: Reader, wire: bytes, fs: seq<Frame>, f: Frame)
    requires Pending(r, wire, fs) && WellFormed(f)
    ensures Pending(r, wire + Wire(f), fs + [f])
  {
    assert Wires([f]) == Wire(f) + Wires([]);
    match r
    case AwaitHeader => WiresAppend(fs, [f]);
    case AwaitBody(h) =>
      WiresAppend(fs[1..], [f]);
      assert (fs + [f])[1..] == fs[1..] + [f];
      Assoc(fs[0].body, Wires(fs[1..]), Wire(f));
  }
}
