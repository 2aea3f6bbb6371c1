/** How `Bridge` frames user bytes with compression on (src/common/async_bridge.cpp). The compressor is a
    parameter: any pair of functions of which decompression undoes compression. */
module BridgeSpec {
  import opened Bytes
  import opened MuxStreamSpec
  import opened MuxPair

  const CHUNK_SIZE: nat := 32768
  const MAX_MESSAGE_SIZE: nat := 1024 * 1024
  const MAX_DECOMPRESSED_SIZE: nat := 16 * 1024 * 1024
  const FLAG: u32 := 0x8000_0000

  /** `compress` may fail or expand, but never yields nothing; `contentSize` is what the frame header claims. */
  datatype Codec = Codec(
    compress: bytes -> Option<bytes>,
    contentSize: bytes -> Option<nat>,
    decompress: bytes -> Option<bytes>)

  ghost predicate Faithful(codec: Codec) {
    forall x: bytes :: codec.compress(x).Some? ==>
      var c := codec.compress(x).value;
      c != [] && codec.decompress(c) == Some(x) && codec.contentSize(c) == Some(|x|)
  }

  // ---------- framing ----------

  /** The compressed form is used only when it is smaller. */
  predicate Shrinks(codec: Codec, chunk: bytes) {
    codec.compress(chunk).Some? && |codec.compress(chunk).value| < |chunk|
  }

  function Body(codec: Codec, chunk: bytes): (b: bytes)
    ensures |b| <= |chunk|
  {
    if Shrinks(codec, chunk) then codec.compress(chunk).value else chunk
  }

  /** `n | COMPRESSION_FLAG`. */
  function WithFlag(n: u32): u32 {
    if n >= FLAG then n else n + FLAG
  }

  function HeaderWord(codec: Codec, chunk: bytes): u32
    requires |chunk| <= CHUNK_SIZE
  {
    var len: u32 := |Body(codec, chunk)|;
    if Shrinks(codec, chunk) then WithFlag(len) else len
  }

  function Packet(codec: Codec, chunk: bytes): bytes
    requires |chunk| <= CHUNK_SIZE
  {
    ToBE(HeaderWord(codec, chunk), 4) + Body(codec, chunk)
  }

  predicate Chunks(chunks: seq<bytes>) {
    forall i :: 0 <= i < |chunks| ==> |chunks[i]| <= CHUNK_SIZE
  }

  function Packets(codec: Codec, chunks: seq<bytes>): bytes
    requires Chunks(chunks)
  {
    if chunks == [] then [] else Packet(codec, chunks[0]) + Packets(codec, chunks[1..])
  }

  // ---------- unframing ----------

  datatype Phase = AwaitHeader | AwaitBody(len: u32, compressed: bool) | Halted

  type Word = w: bytes | |w| == 4 witness [0, 0, 0, 0]

  /** `header` is `header2_`, which keeps its old bytes where a read does not overwrite them; `out` is
      what has been written to the far service. */
  datatype Unframer = Unframer(phase: Phase, header: Word, out: bytes)

  function Fresh(): Unframer {
    Unframer(AwaitHeader, [0, 0, 0, 0], [])
  }

  function Request(phase: Phase): ReadReq {
    match phase
    case AwaitHeader => ReadReq(4, true)
    case AwaitBody(len, _) => ReadReq(len, true)
    case Halted => ReadReq(0, true)
  }

  /** A buffer of `len` bytes from the pool after a read that filled only its beginning. */
  function Overlay(data: bytes, len: nat, stale: nat -> byte): (b: bytes)
    requires |data| <= len
    ensures |b| == len
    ensures |data| == len ==> b == data
  {
    data + seq(len - |data|, k requires 0 <= k < len - |data| => stale(|data| + k))
  }

  function ParseHeader(u: Unframer, word: Word): Unframer {
    var h := FromBE(word);
    var len := h % FLAG;
    if len > MAX_MESSAGE_SIZE then Unframer(Halted, word, u.out)
    else Unframer(AwaitBody(len, h >= FLAG), word, u.out)
  }

  function Emit(codec: Codec, u: Unframer, body: bytes, compressed: bool): Unframer {
    if !compressed then u.(phase := AwaitHeader, out := u.out + body)
    else
      match codec.contentSize(body)
      case None => u.(phase := Halted)
      case Some(size) =>
        if size > MAX_DECOMPRESSED_SIZE then u.(phase := Halted)
        else
          match codec.decompress(body)
          case None => u.(phase := Halted)
          case Some(x) => u.(phase := AwaitHeader, out := u.out + x)
  }

  /** The handler of the pending `async_read`: it looks at the error code but not at the length. */
  function OnResult(codec: Codec, stale: nat -> byte, u: Unframer, r: ReadResult): Unframer {
    match r
    case Got(data) =>
      (match u.phase
       case AwaitHeader =>
         if |data| > 4 then u.(phase := Halted)
         else ParseHeader(u, data + u.header[|data|..])
       case AwaitBody(len, compressed) =>
         if |data| > len then u.(phase := Halted)
         else Emit(codec, u, Overlay(data, len, stale), compressed)
       case Halted => u)
    case _ => u.(phase := Halted)
  }

  /** The bridge after the reads of `log`, the `i`-th of them into a pool buffer holding `pool(i)`. */
  function After(codec: Codec, pool: nat -> (nat -> byte), log: seq<Completion>): Unframer {
    if log == [] then Fresh()
    else
      var last := |log| - 1;
      OnResult(codec, pool(last), After(codec, pool, log[..last]), log[last].result)
  }

  /** The reads of `log` are those the bridge issues, one at a time. */
  predicate Obeys(codec: Codec, pool: nat -> (nat -> byte), log: seq<Completion>) {
    log == [] ||
    var last := |log| - 1;
    var u := After(codec, pool, log[..last]);
    Obeys(codec, pool, log[..last]) && !u.phase.Halted? && log[last].req == Request(u.phase)
  }

  // ---------- packets on the wire ----------

  /** A chunk whose compressed form is smaller is sent in that form, with the top bit of the header set, and any other chunk
      as it is: four bytes of length, most significant first, then that many bytes. */
  lemma PacketBytes(codec: Codec, chunk: bytes)
    requires |chunk| <= 0x8000
    ensures match codec.compress(chunk)
            case Some(c) =>
              if |c| < |chunk| then Packet(codec, chunk) == [0x80, 0, |c| / 0x100, |c| % 0x100] + c
              else Packet(codec, chunk) == [0, 0, |chunk| / 0x100, |chunk| % 0x100] + chunk
            case None => Packet(codec, chunk) == [0, 0, |chunk| / 0x100, |chunk| % 0x100] + chunk
  {
    var body := Body(codec, chunk);
    ShortWord(|body|);
    hide ToBE;
  }

  lemma ShortWord(n: nat)
    requires n <= 0x8000
    ensures ToBE(n, 4) == [0, 0, n / 0x100, n % 0x100]
    ensures n < FLAG && ToBE(WithFlag(n), 4) == [0x80, 0, n / 0x100, n % 0x100]
  {
    assert n / 0x100_0000 == 0 && n / 0x1_0000 == 0 && n / 0x100 <= 0x80;
    WordOf(n, 0, 0, n / 0x100, n % 0x100);
    FlaggedDigits(n, n + FLAG);
    WordOf(n + FLAG, 0x80, 0, n / 0x100, n % 0x100);
  }

  lemma WordOf(v: u32, a: byte, b: byte, c: byte, d: byte)
    requires v / 0x100_0000 == a && v / 0x1_0000 % 0x100 == b && v / 0x100 % 0x100 == c && v % 0x100 == d
    ensures ToBE(v, 4) == [a, b, c, d]
  {
    BytesOfU32(v);
  }

  lemma FlaggedDigits(n: nat, v: nat)
    requires n <= 0x8000 && v == n + 0x8000_0000
    ensures v / 0x100_0000 == 0x80 && v / 0x1_0000 % 0x100 == 0
    ensures v / 0x100 % 0x100 == n / 0x100 && v % 0x100 == n % 0x100
  {
    var q := n / 0x100;
    assert v / 0x1_0000 == 0x8000;
    assert v / 0x100 == 0x80_0000 + q && q <= 0x80;
  }

  /** A header stops unframing exactly if it announces more than 1 MiB; a read cut short leaves the end of the old header in
      place. */
  lemma HeaderHaltsIff(codec: Codec, stale: nat -> byte, u: Unframer, data: bytes)
    requires u.phase.AwaitHeader? && |data| <= 4
    ensures OnResult(codec, stale, u, Got(data)).phase.Halted? <==> FromBE(data + u.header[|data|..]) % 0x8000_0000 > 0x10_0000
  {
  }

  /** A body stops it exactly if it is compressed and does not tell its size, tells more than 16 MiB, or cannot be
      decompressed. What `data` does not cover of the buffer is as it was. */
  lemma BodyHaltsIff(codec: Codec, stale: nat -> byte, u: Unframer, data: bytes, body: bytes)
    requires u.phase.AwaitBody? && |body| == u.phase.len && data <= body
    requires forall k :: |data| <= k < |body| ==> body[k] == stale(k)
    ensures OnResult(codec, stale, u, Got(data)).phase.Halted? <==>
              u.phase.compressed &&
              (codec.contentSize(body).None? || codec.contentSize(body).value > 0x100_0000 || codec.decompress(body).None?)
  {
    assert Overlay(data, u.phase.len, stale) == body;
  }

  // ---------- one packet there and back ----------

  /** The flag never collides with the length. */
  lemma HeaderRoundTrip(codec: Codec, chunk: bytes)
    requires |chunk| <= CHUNK_SIZE
    ensures var h := HeaderWord(codec, chunk);
            h % FLAG == |Body(codec, chunk)| <= MAX_MESSAGE_SIZE && (h >= FLAG <==> Shrinks(codec, chunk))
    ensures FromBE(ToBE(HeaderWord(codec, chunk), 4)) == HeaderWord(codec, chunk)
  {
    Pow256Values();
    FromToBE(HeaderWord(codec, chunk), 4);
  }

  /** Whatever the compressor does, reading a packet back yields the chunk. */
  lemma PacketRoundTrip(codec: Codec, u: Unframer, chunk: bytes, s1: nat -> byte, s2: nat -> byte)
    requires Faithful(codec) && |chunk| <= CHUNK_SIZE && u.phase == AwaitHeader
    ensures var word := ToBE(HeaderWord(codec, chunk), 4);
            var body := Body(codec, chunk);
            var u1 := OnResult(codec, s1, u, Got(word));
            && u1 == Unframer(AwaitBody(|body|, Shrinks(codec, chunk)), word, u.out)
            && OnResult(codec, s2, u1, Got(body)) == Unframer(AwaitHeader, word, u.out + chunk)
  {
    HeaderRoundTrip(codec, chunk);
    var word := ToBE(HeaderWord(codec, chunk), 4);
    assert word + u.header[4..] == word;
  }
}
