/** The server-name parser in `DoVhostAccept` of src/server/server.cpp, against an encoder written from sections 4.1.2
    and 4.2 of RFC 8446 (ClientHello, extensions), section 5.1 of RFC 8446 (records) and section 3 of RFC 6066
    (server_name). */
module Sni {
  import opened Bytes

  // ---------- what the parser computes ----------

  /** `(hi << 8) | lo` */
  function Word(hi: byte, lo: byte): u16 {
    hi as int * 256 + lo
  }

  function U16At(data: bytes, pos: nat): u16
    requires pos + 2 <= |data|
  {
    Word(data[pos], data[pos + 1])
  }

  /** The name in a server_name extension whose body starts at `pos`. */
  function NameAt(data: bytes, pos: nat): bytes {
    if pos + 5 <= |data| && data[pos + 2] == 0 && pos + 5 + U16At(data, pos + 3) <= |data| then
      data[pos + 5..pos + 5 + U16At(data, pos + 3)]
    else []
  }

  /** Goes over the extensions from `pos` to `end`. */
  function Scan(data: bytes, pos: nat, end: nat): bytes
    decreases |data| - pos
  {
    if pos + 4 <= |data| && pos + 4 <= end then
      if U16At(data, pos) == 0 then NameAt(data, pos + 4)
      else Scan(data, pos + 4 + U16At(data, pos + 2), end)
    else []
  }

  function BlockAt(data: bytes, pos: nat): bytes {
    if pos + 2 <= |data| then Scan(data, pos + 2, pos + 2 + U16At(data, pos)) else []
  }

  function CompressionAt(data: bytes, pos: nat): bytes {
    if pos + 1 <= |data| then BlockAt(data, pos + 1 + data[pos]) else []
  }

  function CiphersAt(data: bytes, pos: nat): bytes {
    if pos + 2 <= |data| then CompressionAt(data, pos + 2 + U16At(data, pos)) else []
  }

  function SessionAt(data: bytes, pos: nat): bytes {
    if pos < |data| then CiphersAt(data, pos + 1 + data[pos]) else []
  }

  function ServerName(data: bytes): bytes {
    if |data| > 5 && data[0] == 0x16 && U16At(data, 3) + 5 <= |data| && data[5] == 1 then SessionAt(data, 43) else []
  }

  /** The parser itself. All its accesses are in bounds, on every buffer. */
  method ParseServerName(data: array<byte>) returns (domain: bytes)
    ensures domain == ServerName(data[..])
  {
    domain := [];
    var size := data.Length;
    if size > 5 && data[0] == 0x16 {
      var len := Word(data[3], data[4]);
      if len + 5 <= size && data[5] == 1 {
        var pos := 5 + 4;
        pos := pos + 2;
        pos := pos + 32;
        if pos < size {
          var sessIdLen := data[pos];
          pos := pos + 1 + sessIdLen;
          if pos + 2 <= size {
            var cipherLen := Word(data[pos], data[pos + 1]);
            pos := pos + 2 + cipherLen;
            if pos + 1 <= size {
              var compLen := data[pos];
              pos := pos + 1 + compLen;
              if pos + 2 <= size {
                domain := ScanExtensions(data, pos);
              }
            }
          }
        }
      }
    }
  }

  method ScanExtensions(data: array<byte>, start: nat) returns (domain: bytes)
    requires start + 2 <= data.Length
    ensures domain == BlockAt(data[..], start)
  {
    hide NameAt;
    domain := [];
    var pos, size := start, data.Length;
    var extLen := Word(data[pos], data[pos + 1]);
    pos := pos + 2;
    var endExt := pos + extLen;
    while pos + 4 <= size && pos + 4 <= endExt
      invariant Scan(data[..], pos, endExt) == BlockAt(data[..], start)
      invariant domain == []
      decreases size - pos
    {
      var etype := Word(data[pos], data[pos + 1]);
      var elen := Word(data[pos + 2], data[pos + 3]);
      pos := pos + 4;
      if etype == 0 {
        domain := ReadName(data, pos);
        return;
      }
      pos := pos + elen;
    }
  }

  method ReadName(data: array<byte>, start: nat) returns (domain: bytes)
    ensures domain == NameAt(data[..], start)
  {
    domain := [];
    var pos, size := start, data.Length;
    if pos + 2 <= size {
      pos := pos + 2;
      if pos + 3 <= size && data[pos] == 0 {
        var nameLen := Word(data[pos + 1], data[pos + 2]);
        pos := pos + 3;
        if pos + nameLen <= size {
          domain := data[pos..pos + nameLen];
        }
      }
    }
  }

  // ---------- what a ClientHello looks like ----------

  datatype Extension = Extension(kind: u16, body: bytes)

  datatype Name = Name(kind: byte, name: bytes)

  /** `extensions` is None when the hello has no extensions field at all. */
  datatype ClientHello = ClientHello(
    version: bytes,
    random: bytes,
    sessionId: bytes,
    ciphers: bytes,
    compression: bytes,
    extensions: Option<seq<Extension>>)

  function EncodeExtension(e: Extension): bytes {
    ToBE(e.kind, 2) + ToBE(|e.body|, 2) + e.body
  }

  function EncodeExtensions(es: seq<Extension>): bytes {
    if es == [] then [] else EncodeExtension(es[0]) + EncodeExtensions(es[1..])
  }

  function EncodeName(n: Name): bytes {
    [n.kind] + ToBE(|n.name|, 2) + n.name
  }

  function EncodeNames(ns: seq<Name>): bytes {
    if ns == [] then [] else EncodeName(ns[0]) + EncodeNames(ns[1..])
  }

  /** A server_name extension with a list of names. */
  function ServerNameExtension(ns: seq<Name>): Extension {
    Extension(0, ToBE(|EncodeNames(ns)|, 2) + EncodeNames(ns))
  }

  function EncodeBlock(block: Option<seq<Extension>>): bytes {
    if block.None? then [] else ToBE(|EncodeExtensions(block.value)|, 2) + EncodeExtensions(block.value)
  }

  function EncodeBody(h: ClientHello): bytes
    requires |h.sessionId| < 256 && |h.compression| < 256
  {
    h.version + h.random + ([|h.sessionId|] + h.sessionId) + (ToBE(|h.ciphers|, 2) + h.ciphers)
      + ([|h.compression|] + h.compression) + EncodeBlock(h.extensions)
  }

  /** The handshake message. */
  function EncodeHello(h: ClientHello): bytes
    requires |h.sessionId| < 256 && |h.compression| < 256
  {
    [1] + ToBE(|EncodeBody(h)|, 3) + EncodeBody(h)
  }

  /** Every length fits its field. */
  ghost predicate WellFormed(h: ClientHello) {
    && |h.version| == 2 && |h.random| == 32
    && |h.sessionId| <= 32 && |h.ciphers| < 0x1_0000 && |h.compression| < 256
    && (h.extensions.Some? ==>
          && |EncodeExtensions(h.extensions.value)| < 0x1_0000
          && forall i :: 0 <= i < |h.extensions.value| ==> |h.extensions.value[i].body| < 0x1_0000)
  }

  /** What the server has read: a handshake record of version `version` and length `len` that holds the hello, and
      whatever follows the hello in this record or after it. */
  function Received(h: ClientHello, version: bytes, len: u16, rest: bytes): bytes
    requires WellFormed(h)
  {
    [0x16] + version + ToBE(len, 2) + EncodeHello(h) + rest
  }

  // ---------- positions ----------

  /** `part` stands at `pos` in `data`. */
  predicate At(data: bytes, pos: nat, part: bytes) {
    pos + |part| <= |data| && data[pos..pos + |part|] == part
  }

  lemma AtSplit(data: bytes, pos: nat, a: bytes, b: bytes)
    requires At(data, pos, a + b)
    ensures At(data, pos, a) && At(data, pos + |a|, b)
  {
    assert (a + b)[..|a|] == a && (a + b)[|a|..] == b;
    assert data[pos..pos + |a|] == data[pos..pos + |a + b|][..|a|];
    assert data[pos + |a|..pos + |a + b|] == data[pos..pos + |a + b|][|a|..];
  }

  lemma AtU16(data: bytes, pos: nat, v: u16)
    requires At(data, pos, ToBE(v, 2))
    ensures pos + 2 <= |data| && U16At(data, pos) == v
  {
    assert ToBE(v, 2) == [v / 256, v % 256];
    assert data[pos..pos + 2][0] == data[pos] && data[pos..pos + 2][1] == data[pos + 1];
  }

  lemma AtByte(data: bytes, pos: nat, b: byte)
    requires At(data, pos, [b])
    ensures pos < |data| && data[pos] == b
  {
    assert data[pos..pos + 1][0] == data[pos];
  }

  // ---------- extensions ----------

  ghost predicate NoServerName(es: seq<Extension>) {
    forall i :: 0 <= i < |es| ==> es[i].kind != 0
  }

  /** The header of an extension that stands at `pos`. */
  lemma HeaderAt(data: bytes, pos: nat, e: Extension)
    requires At(data, pos, EncodeExtension(e)) && |e.body| < 0x1_0000
    ensures pos + 4 + |e.body| <= |data|
    ensures U16At(data, pos) == e.kind && U16At(data, pos + 2) == |e.body|
    ensures At(data, pos + 4, e.body)
  {
    AtSplit(data, pos, ToBE(e.kind, 2) + ToBE(|e.body|, 2), e.body);
    AtSplit(data, pos, ToBE(e.kind, 2), ToBE(|e.body|, 2));
    AtU16(data, pos, e.kind);
    AtU16(data, pos + 2, |e.body|);
  }

  /** The scan goes past extensions that are not server_name. */
  lemma {:induction false} ScanSkips(data: bytes, pos: nat, end: nat, es: seq<Extension>)
    requires At(data, pos, EncodeExtensions(es)) && pos + |EncodeExtensions(es)| <= end
    requires NoServerName(es) && forall i :: 0 <= i < |es| ==> |es[i].body| < 0x1_0000
    ensures Scan(data, pos, end) == Scan(data, pos + |EncodeExtensions(es)|, end)
    decreases |es|
  {
    hide At, EncodeExtension, U16At, NameAt;
    if es != [] {
      var e := es[0];
      AtSplit(data, pos, EncodeExtension(e), EncodeExtensions(es[1..]));
      HeaderAt(data, pos, e);
      ExtensionLength(e);
      ScanSkips(data, pos + |EncodeExtension(e)|, end, es[1..]);
    }
  }

  lemma ExtensionLength(e: Extension)
    ensures |EncodeExtension(e)| == 4 + |e.body|
  {
  }

  lemma {:induction false} EncodeAppend(a: seq<Extension>, b: seq<Extension>)
    ensures EncodeExtensions(a + b) == EncodeExtensions(a) + EncodeExtensions(b)
    decreases |a|
  {
    hide EncodeExtension;
    if a == [] {
      assert a + b == b;
    } else {
      assert (a + b)[0] == a[0] && (a + b)[1..] == a[1..] + b;
      EncodeAppend(a[1..], b);
      Assoc(EncodeExtension(a[0]), EncodeExtensions(a[1..]), EncodeExtensions(b));
    }
  }

  /** The first name of a list that stands at `pos`, or nothing if that is not a host name. */
  lemma FirstName(data: bytes, pos: nat, ns: seq<Name>)
    requires ns != [] && At(data, pos, ServerNameExtension(ns).body) && |ns[0].name| < 0x1_0000
    ensures NameAt(data, pos) == if ns[0].kind == 0 then ns[0].name else []
  {
    var n := ns[0];
    AtSplit(data, pos, ToBE(|EncodeNames(ns)|, 2), EncodeNames(ns));
    AtSplit(data, pos + 2, EncodeName(n), EncodeNames(ns[1..]));
    AtSplit(data, pos + 2, [n.kind] + ToBE(|n.name|, 2), n.name);
    AtSplit(data, pos + 2, [n.kind], ToBE(|n.name|, 2));
    AtByte(data, pos + 2, n.kind);
    AtU16(data, pos + 3, |n.name|);
    assert At(data, pos + 5, n.name);
  }

  lemma OneExtension(e: Extension)
    ensures EncodeExtensions([e]) == EncodeExtension(e)
  {
    assert [e][1..] == [];
    assert EncodeExtension(e) + [] == EncodeExtension(e);
  }

  lemma {:induction false} ScanFinds(data: bytes, pos: nat, end: nat, before: seq<Extension>, ns: seq<Name>, after: seq<Extension>)
    requires var es := before + [ServerNameExtension(ns)] + after;
             && At(data, pos, EncodeExtensions(es)) && pos + |EncodeExtensions(es)| == end
             && forall i :: 0 <= i < |es| ==> |es[i].body| < 0x1_0000
    requires NoServerName(before) && ns != []
    ensures Scan(data, pos, end) == if ns[0].kind == 0 then ns[0].name else []
  {
    hide At, NameAt, EncodeExtension, EncodeExtensions, U16At;
    var e := ServerNameExtension(ns);
    var es := before + [e] + after;
    assert e == es[|before|];
    EncodeAppend(before + [e], after);
    EncodeAppend(before, [e]);
    OneExtension(e);
    AtSplit(data, pos, EncodeExtensions(before + [e]), EncodeExtensions(after));
    AtSplit(data, pos, EncodeExtensions(before), EncodeExtension(e));
    assert forall i :: 0 <= i < |before| ==> before[i] == es[i];
    ScanSkips(data, pos, end, before);
    var at := pos + |EncodeExtensions(before)|;
    HeaderAt(data, at, e);
    ExtensionLength(e);
    NameShort(ns);
    FirstName(data, at + 4, ns);
  }

  lemma NameShort(ns: seq<Name>)
    requires ns != [] && |ServerNameExtension(ns).body| < 0x1_0000
    ensures |ns[0].name| < 0x1_0000
  {
    assert EncodeNames(ns) == EncodeName(ns[0]) + EncodeNames(ns[1..]);
  }

  // ---------- the whole hello ----------

  /** Where the extensions field starts, or would start, in what was received. */
  function BlockStart(h: ClientHello): nat {
    5 + 4 + 2 + 32 + 1 + |h.sessionId| + 2 + |h.ciphers| + 1 + |h.compression|
  }

  /** The fields of the hello, one by one. */
  lemma {:induction false} FieldsAt(data: bytes, h: ClientHello)
    requires WellFormed(h) && At(data, 9, EncodeBody(h))
    ensures var p := 43;
            && At(data, p, [|h.sessionId|])
            && At(data, p + 1 + |h.sessionId|, ToBE(|h.ciphers|, 2))
            && At(data, p + 1 + |h.sessionId| + 2 + |h.ciphers|, [|h.compression|])
            && At(data, BlockStart(h), EncodeBlock(h.extensions))
    ensures BlockStart(h) + |EncodeBlock(h.extensions)| == 9 + |EncodeBody(h)|
  {
    hide At;
    var a := h.version + h.random;
    var b := [|h.sessionId|] + h.sessionId;
    var c := ToBE(|h.ciphers|, 2) + h.ciphers;
    var d := [|h.compression|] + h.compression;
    AtSplit(data, 9, a + b + c + d, EncodeBlock(h.extensions));
    AtSplit(data, 9, a + b + c, d);
    AtSplit(data, 9, a + b, c);
    AtSplit(data, 9, a, b);
    AtSplit(data, 43, [|h.sessionId|], h.sessionId);
    AtSplit(data, 44 + |h.sessionId|, ToBE(|h.ciphers|, 2), h.ciphers);
    AtSplit(data, 46 + |h.sessionId| + |h.ciphers|, [|h.compression|], h.compression);
  }

  /** The record holds the hello, and the record has been read whole. */
  ghost predicate InOneRecord(h: ClientHello, version: bytes, len: u16, rest: bytes)
    requires WellFormed(h)
  {
    && |version| == 2
    && |EncodeHello(h)| <= len <= |EncodeHello(h)| + |rest|
  }

  lemma {:induction false} ReceivedAt(h: ClientHello, version: bytes, len: u16, rest: bytes)
    requires WellFormed(h) && InOneRecord(h, version, len, rest)
    ensures var data := Received(h, version, len, rest);
            && |data| == 9 + |EncodeBody(h)| + |rest|
            && data[0] == 0x16 && U16At(data, 3) == len && data[5] == 1
            && At(data, 9, EncodeBody(h))
  {
    var data := Received(h, version, len, rest);
    var body := EncodeBody(h);
    hide EncodeBody, At, U16At, WellFormed;
    assert At(data, 0, data) by { assert data[0..|data|] == data; AtWhole(data); }
    AtSplit(data, 0, [0x16] + version + ToBE(len, 2) + EncodeHello(h), rest);
    AtSplit(data, 0, [0x16] + version + ToBE(len, 2), EncodeHello(h));
    AtSplit(data, 0, [0x16] + version, ToBE(len, 2));
    AtSplit(data, 0, [0x16], version);
    AtByte(data, 0, 0x16);
    AtU16(data, 3, len);
    AtSplit(data, 5, [1] + ToBE(|body|, 3), body);
    AtSplit(data, 5, [1], ToBE(|body|, 3));
    AtByte(data, 5, 1);
  }

  lemma AtWhole(data: bytes)
    ensures At(data, 0, data)
  {
  }

  /** Whatever the lengths of the fields before it, the parser arrives at the extensions. */
  lemma {:induction false} ReachesBlock(h: ClientHello, version: bytes, len: u16, rest: bytes)
    requires WellFormed(h) && InOneRecord(h, version, len, rest)
    ensures var data := Received(h, version, len, rest);
            ServerName(data) == BlockAt(data, BlockStart(h)) && At(data, BlockStart(h), EncodeBlock(h.extensions))
    ensures BlockStart(h) + |EncodeBlock(h.extensions)| + |rest| == |Received(h, version, len, rest)|
  {
    hide At, U16At, Received, EncodeBody, EncodeHello, EncodeBlock, BlockAt, ServerName;
    var data := Received(h, version, len, rest);
    ReceivedAt(h, version, len, rest);
    FieldsAt(data, h);
    HelloLength(h);
    FollowsFields(data, |h.sessionId|, |h.ciphers|, |h.compression|);
  }

  lemma HelloLength(h: ClientHello)
    requires WellFormed(h)
    ensures |EncodeHello(h)| == 4 + |EncodeBody(h)|
  {
  }

  lemma FollowsFields(data: bytes, sessionId: byte, ciphers: u16, compression: byte)
    requires |data| > 43 && data[0] == 0x16 && U16At(data, 3) + 5 <= |data| && data[5] == 1
    requires At(data, 43, [sessionId])
    requires At(data, 44 + sessionId, ToBE(ciphers, 2))
    requires At(data, 46 + sessionId + ciphers, [compression])
    ensures ServerName(data) == BlockAt(data, 47 + sessionId + ciphers + compression)
  {
    hide At, U16At, BlockAt, ToBE;
    AtByte(data, 43, sessionId);
    AtU16(data, 44 + sessionId, ciphers);
    AtByte(data, 46 + sessionId + ciphers, compression);
  }

  lemma ScanDone(data: bytes, end: nat)
    ensures Scan(data, end, end) == []
  {
  }

  lemma {:induction false} BlockScanned(data: bytes, p: nat, h: ClientHello)
    requires WellFormed(h) && h.extensions.Some? && At(data, p, EncodeBlock(h.extensions))
    ensures var es := h.extensions.value;
            && (forall i :: 0 <= i < |es| ==> |es[i].body| < 0x1_0000)
            && At(data, p + 2, EncodeExtensions(es))
            && BlockAt(data, p) == Scan(data, p + 2, p + 2 + |EncodeExtensions(es)|)
  {
    hide At, U16At, EncodeExtensions, Scan, ToBE;
    var es := h.extensions.value;
    AtSplit(data, p, ToBE(|EncodeExtensions(es)|, 2), EncodeExtensions(es));
    AtU16(data, p, |EncodeExtensions(es)|);
  }

  /** The first name of the first server_name extension is found if it is a host name, whatever extensions stand
      before it and after it, and whatever follows the hello. */
  lemma {:induction false} FindsHostName(h: ClientHello, version: bytes, len: u16, rest: bytes,
                      before: seq<Extension>, ns: seq<Name>, after: seq<Extension>)
    requires WellFormed(h) && InOneRecord(h, version, len, rest)
    requires h.extensions == Some(before + [ServerNameExtension(ns)] + after) && NoServerName(before) && ns != []
    ensures ServerName(Received(h, version, len, rest)) == if ns[0].kind == 0 then ns[0].name else []
  {
    hide WellFormed, At, BlockAt, Received, ServerName, InOneRecord, EncodeBlock, EncodeExtensions, Scan, BlockStart;
    hide NoServerName, ServerNameExtension;
    var data, p, es := Received(h, version, len, rest), BlockStart(h), h.extensions.value;
    ReachesBlock(h, version, len, rest);
    BlockScanned(data, p, h);
    ScanFinds(data, p + 2, p + 2 + |EncodeExtensions(es)|, before, ns, after);
  }

  /** Without a server_name extension there is no name. */
  lemma {:induction false} FindsNothing(h: ClientHello, version: bytes, len: u16, rest: bytes)
    requires WellFormed(h) && InOneRecord(h, version, len, rest)
    requires h.extensions.Some? && NoServerName(h.extensions.value)
    ensures ServerName(Received(h, version, len, rest)) == []
  {
    hide WellFormed, At, BlockAt, Received, ServerName, InOneRecord, EncodeBlock, EncodeExtensions, Scan, BlockStart;
    hide NoServerName, ServerNameExtension;
    var data, p, es := Received(h, version, len, rest), BlockStart(h), h.extensions.value;
    ReachesBlock(h, version, len, rest);
    BlockScanned(data, p, h);
    ScanSkips(data, p + 2, p + 2 + |EncodeExtensions(es)|, es);
    ScanDone(data, p + 2 + |EncodeExtensions(es)|);
  }

  /** A hello without an extensions field: the parser, which does not use the length of the hello, takes what follows
      the hello for one. */
  lemma {:induction false} NoExtensionsField(h: ClientHello, version: bytes, len: u16, rest: bytes)
    requires WellFormed(h) && InOneRecord(h, version, len, rest) && h.extensions.None?
    ensures ServerName(Received(h, version, len, rest)) == BlockAt(rest, 0)
  {
    hide At, Received, ServerName, WellFormed, InOneRecord, U16At, BlockAt;
    var data := Received(h, version, len, rest);
    ReachesBlock(h, version, len, rest);
    var before := data[..BlockStart(h)];
    assert data == before + rest by { ReceivedEnds(h, version, len, rest); }
    BlockShifted(before, rest);
  }

  lemma ReceivedEnds(h: ClientHello, version: bytes, len: u16, rest: bytes)
    requires WellFormed(h)
    ensures var data := Received(h, version, len, rest);
            |data| >= |rest| && data == data[..|data| - |rest|] + rest
  {
  }

  lemma {:induction false} ScanShifted(before: bytes, rest: bytes, pos: nat, end: nat)
    ensures Scan(before + rest, |before| + pos, |before| + end) == Scan(rest, pos, end)
    decreases |rest| - pos
  {
    var data := before + rest;
    if pos + 4 <= |rest| && pos + 4 <= end {
      WordShifted(before, rest, pos);
      WordShifted(before, rest, pos + 2);
      if U16At(rest, pos) == 0 {
        NameShifted(before, rest, pos + 4);
      } else {
        ScanShifted(before, rest, pos + 4 + U16At(rest, pos + 2), end);
      }
    }
  }

  lemma WordShifted(before: bytes, rest: bytes, pos: nat)
    requires pos + 2 <= |rest|
    ensures U16At(before + rest, |before| + pos) == U16At(rest, pos)
  {
    assert (before + rest)[|before| + pos] == rest[pos] && (before + rest)[|before| + pos + 1] == rest[pos + 1];
  }

  lemma NameShifted(before: bytes, rest: bytes, pos: nat)
    ensures NameAt(before + rest, |before| + pos) == NameAt(rest, pos)
  {
    var data := before + rest;
    if pos + 5 <= |rest| {
      WordShifted(before, rest, pos + 3);
      assert data[|before| + pos + 2] == rest[pos + 2];
      var n := U16At(rest, pos + 3);
      if pos + 5 + n <= |rest| {
        assert data[|before| + pos + 5..|before| + pos + 5 + n] == rest[pos + 5..pos + 5 + n];
      }
    }
  }

  lemma BlockShifted(before: bytes, rest: bytes)
    ensures BlockAt(before + rest, |before|) == BlockAt(rest, 0)
  {
    if 2 <= |rest| {
      WordShifted(before, rest, 0);
      ScanShifted(before, rest, 2, 2 + U16At(rest, 0));
    }
  }

  /** Twelve bytes that read as a server_name extension with the name `x`, and `n` more. */
  function Misread(x: byte, n: nat): bytes {
    [0, 10, 0, 0, 0, 6, 0, 4, 0, 0, 1, x] + seq(n, _ => 0)
  }

  lemma MisreadName(x: byte, n: nat)
    ensures BlockAt(Misread(x, n), 0) == [x]
  {
    var rest := Misread(x, n);
    assert U16At(rest, 0) == 10 && U16At(rest, 2) == 0 && U16At(rest, 9) == 1;
    assert NameAt(rest, 6) == rest[11..12] == [x];
  }

  /** The input that shows it: behind a hello that names no server, these bytes make the parser return a name. */
  lemma NoFieldExample(h: ClientHello, version: bytes, len: u16, x: byte)
    requires WellFormed(h) && h.extensions.None? && InOneRecord(h, version, len, Misread(x, 0))
    ensures ServerName(Received(h, version, len, Misread(x, 0))) == [x]
  {
    NoExtensionsField(h, version, len, Misread(x, 0));
    MisreadName(x, 0);
  }

  lemma {:induction false} ScanShort(data: bytes, pos: nat, end: nat)
    requires |data| <= pos + 9
    ensures Scan(data, pos, end) == []
    decreases |data| - pos
  {
    if pos + 4 <= |data| && pos + 4 <= end && U16At(data, pos) != 0 {
      ScanShort(data, pos + 4 + U16At(data, pos + 2), end);
    }
  }

  /** Without an extensions field the promise of an empty result is kept for every `n` bytes behind the hello if and
      only if `n` is below 12. */
  lemma NoFieldBound(h: ClientHello, version: bytes, len: u16, n: nat)
    requires WellFormed(h) && h.extensions.None? && |version| == 2 && |EncodeHello(h)| <= len <= |EncodeHello(h)| + n
    ensures (forall rest: bytes :: |rest| == n ==> ServerName(Received(h, version, len, rest)) == []) <==> n < 12
  {
    hide Received, ServerName, WellFormed, EncodeHello, Scan, U16At;
    if n >= 12 {
      var rest := Misread(0, n - 12);
      NoExtensionsField(h, version, len, rest);
      MisreadName(0, n - 12);
      assert ServerName(Received(h, version, len, rest)) == [0] && |rest| == n;
    } else {
      forall rest: bytes | |rest| == n ensures ServerName(Received(h, version, len, rest)) == [] {
        NoExtensionsField(h, version, len, rest);
        if 2 <= n {
          ScanShort(rest, 2, 2 + U16At(rest, 0));
        }
      }
    }
  }

  // ---------- on any bytes ----------

  /** Nothing is found in what is no handshake record, or a record that has not come in whole, or no ClientHello. */
  lemma NotAHello(data: bytes)
    requires |data| <= 5 || data[0] != 22 || |data| < 5 + data[3] as int * 256 + data[4] || data[5] != 1
    ensures ServerName(data) == []
  {
  }

  /** `name` stands in `data` from `k` on, behind type 0 and its own length. */
  predicate NameFrom(data: bytes, k: nat, name: bytes) {
    && 3 <= k && k + |name| <= |data| && data[k..k + |name|] == name
    && data[k - 3] == 0 && data[k - 2] as int * 256 + data[k - 1] == |name|
  }

  lemma {:induction false} ScanSound(data: bytes, pos: nat, end: nat)
    ensures Scan(data, pos, end) != [] ==>
              exists k :: pos + 9 <= k && NameFrom(data, k, Scan(data, pos, end)) && pos + 4 <= end
    decreases |data| - pos
  {
    if pos + 4 <= |data| && pos + 4 <= end {
      if U16At(data, pos) == 0 {
        if NameAt(data, pos + 4) != [] {
          assert NameFrom(data, pos + 9, NameAt(data, pos + 4));
        }
      } else {
        ScanSound(data, pos + 4 + U16At(data, pos + 2), end);
      }
    }
  }

  /** Whatever bytes come in, a name that is returned stands among them, behind the fixed part of a hello, as a host name with
      its own length in front. */
  lemma NameStandsThere(data: bytes)
    ensures ServerName(data) != [] ==> exists k :: 58 <= k && NameFrom(data, k, ServerName(data))
  {
    hide Scan, NameFrom;
    if ServerName(data) != [] {
      var c: nat := 44 + data[43] as int;
      var m: nat := c + 2 + U16At(data, c);
      var b: nat := m + 1 + data[m];
      ScanSound(data, b + 2, b + 2 + U16At(data, b));
      var k :| b + 11 <= k && NameFrom(data, k, ServerName(data));
    }
  }
}
