/** The control messages of src/common/protocol.h: what is written for them, what is read back, and that the two agree. */
module MessageSpec {
  import opened Bytes

  type int64 = x: int | -0x8000_0000_0000_0000 <= x < 0x8000_0000_0000_0000

  // ---------- fields ----------

  datatype Kind = AString | AWord | AStringVector | AnInt64

  datatype Field = FString(s: bytes) | FWord(w: u16) | FStrings(ss: seq<bytes>) | FInt64(v: int64)

  function KindOf(f: Field): Kind {
    match f
    case FString(_) => AString
    case FWord(_) => AWord
    case FStrings(_) => AStringVector
    case FInt64(_) => AnInt64
  }

  /** `static_cast<uint64_t>` */
  function Unsigned(v: int64): nat {
    if v < 0 then v + 0x1_0000_0000_0000_0000 else v
  }

  /** Back to 64-bit two's complement. */
  function Signed(u: nat): int64
    requires u < 0x1_0000_0000_0000_0000
  {
    if u >= 0x8000_0000_0000_0000 then u - 0x1_0000_0000_0000_0000 else u
  }

  /** `WriteString`: the length is cut to 16 bits, the bytes are not. */
  function EncodeString(s: bytes): bytes {
    ToBE(|s| % 0x1_0000, 2) + s
  }

  function EncodeStrings(ss: seq<bytes>): bytes {
    if ss == [] then [] else EncodeString(ss[0]) + EncodeStrings(ss[1..])
  }

  function Encode(f: Field): bytes {
    match f
    case FString(s) => EncodeString(s)
    case FWord(w) => ToBE(w, 2)
    case FStrings(ss) => ToBE(|ss| % 0x1_0000, 2) + EncodeStrings(ss)
    case FInt64(v) => ToBE(Unsigned(v) / 0x1_0000_0000, 4) + ToBE(Unsigned(v) % 0x1_0000_0000, 4)
  }

  function EncodeAll(fs: seq<Field>): bytes {
    if fs == [] then [] else Encode(fs[0]) + EncodeAll(fs[1..])
  }

  // ---------- reading ----------

  /** A value and the bytes after it. */
  datatype Read<T> = Read(value: T, rest: bytes)

  function ParseNumber(data: bytes, n: nat): Option<Read<nat>> {
    if n > |data| then None else Some(Read(FromBE(data[..n]), data[n..]))
  }

  function ParseString(data: bytes): Option<Read<bytes>> {
    var len := ParseNumber(data, 2);
    if len.None? || len.value.value > |len.value.rest| then None
    else Some(Read(len.value.rest[..len.value.value], len.value.rest[len.value.value..]))
  }

  function ParseStrings(count: nat, data: bytes): Option<Read<seq<bytes>>> {
    if count == 0 then Some(Read([], data))
    else
      var first := ParseString(data);
      if first.None? then None
      else
        var others := ParseStrings(count - 1, first.value.rest);
        if others.None? then None else Some(Read([first.value.value] + others.value.value, others.value.rest))
  }

  function Parse(k: Kind, data: bytes): Option<Read<Field>> {
    match k
    case AString =>
      var s := ParseString(data);
      if s.None? then None else Some(Read(FString(s.value.value), s.value.rest))
    case AWord =>
      var w := ParseNumber(data, 2);
      if w.None? then None
      else
        Pow256Values();
        Some(Read(FWord(w.value.value), w.value.rest))
    case AStringVector =>
      var count := ParseNumber(data, 2);
      if count.None? then None
      else
        var ss := ParseStrings(count.value.value, count.value.rest);
        if ss.None? then None else Some(Read(FStrings(ss.value.value), ss.value.rest))
    case AnInt64 =>
      var high := ParseNumber(data, 4);
      if high.None? then None
      else
        var low := ParseNumber(high.value.rest, 4);
        if low.None? then None
        else
          Pow256Values();
          Some(Read(FInt64(Signed(high.value.value * 0x1_0000_0000 + low.value.value)), low.value.rest))
  }

  function ParseAll(ks: seq<Kind>, data: bytes): Option<Read<seq<Field>>> {
    if ks == [] then Some(Read([], data))
    else
      var first := Parse(ks[0], data);
      if first.None? then None
      else
        var others := ParseAll(ks[1..], first.value.rest);
        if others.None? then None else Some(Read([first.value.value] + others.value.value, others.value.rest))
  }

  function Kinds(fs: seq<Field>): (ks: seq<Kind>)
    ensures |ks| == |fs|
  {
    if fs == [] then [] else [KindOf(fs[0])] + Kinds(fs[1..])
  }

  // ---------- one field ----------

  /** Every length fits its 16 bits. */
  ghost predicate Fits(f: Field) {
    match f
    case FString(s) => |s| < 0x1_0000
    case FWord(_) => true
    case FStrings(ss) => |ss| < 0x1_0000 && forall i :: 0 <= i < |ss| ==> |ss[i]| < 0x1_0000
    case FInt64(_) => true
  }

  /** A number comes back, whatever follows it. */
  lemma NumberBack(v: nat, n: nat, rest: bytes)
    requires v < Pow256(n)
    ensures ParseNumber(ToBE(v, n) + rest, n) == Some(Read(v, rest))
  {
    FromToBE(v, n);
    assert (ToBE(v, n) + rest)[..n] == ToBE(v, n) && (ToBE(v, n) + rest)[n..] == rest;
  }

  /** Only the bytes written for a number read as it. */
  lemma NumberOnly(data: bytes, n: nat)
    requires n <= |data|
    ensures var r := ParseNumber(data, n).value; r.value < Pow256(n) && data == ToBE(r.value, n) + r.rest
  {
    hide ToBE, FromBE;
    ToFromBE(data[..n]);
    assert |data[..n]| == n;
    assert data == data[..n] + data[n..];
  }

  lemma StringBack(s: bytes, rest: bytes)
    requires |s| < 0x1_0000
    ensures ParseString(EncodeString(s) + rest) == Some(Read(s, rest))
  {
    Pow256Values();
    NumberBack(|s|, 2, s + rest);
    hide ToBE, FromBE, Pow256, ParseNumber;
    Assoc(ToBE(|s|, 2), s, rest);
    assert (s + rest)[..|s|] == s && (s + rest)[|s|..] == rest;
  }

  lemma {:induction false} StringsBack(ss: seq<bytes>, rest: bytes)
    requires forall i :: 0 <= i < |ss| ==> |ss[i]| < 0x1_0000
    ensures ParseStrings(|ss|, EncodeStrings(ss) + rest) == Some(Read(ss, rest))
    decreases |ss|
  {
    hide EncodeString, ParseString;
    if ss == [] {
      assert [] + rest == rest;
    } else {
      Assoc(EncodeString(ss[0]), EncodeStrings(ss[1..]), rest);
      StringBack(ss[0], EncodeStrings(ss[1..]) + rest);
      StringsBack(ss[1..], rest);
      assert ss == [ss[0]] + ss[1..];
    }
  }

  lemma Int64Back(v: int64, rest: bytes)
    ensures Parse(AnInt64, Encode(FInt64(v)) + rest) == Some(Read(FInt64(v), rest))
  {
    Pow256Values();
    var high, low := Unsigned(v) / 0x1_0000_0000, Unsigned(v) % 0x1_0000_0000;
    Assoc(ToBE(high, 4), ToBE(low, 4), rest);
    NumberBack(high, 4, ToBE(low, 4) + rest);
    NumberBack(low, 4, rest);
    hide ParseNumber, ToBE;
    assert high * 0x1_0000_0000 + low == Unsigned(v);
  }

  lemma FieldBack(f: Field, rest: bytes)
    requires Fits(f)
    ensures Parse(KindOf(f), Encode(f) + rest) == Some(Read(f, rest))
  {
    hide ParseNumber, ToBE, ParseString, ParseStrings, EncodeStrings;
    match f
    case FString(s) => StringBack(s, rest);
    case FWord(w) =>
      Pow256Values();
      NumberBack(w, 2, rest);
    case FStrings(ss) =>
      Pow256Values();
      Assoc(ToBE(|ss|, 2), EncodeStrings(ss), rest);
      NumberBack(|ss|, 2, EncodeStrings(ss) + rest);
      StringsBack(ss, rest);
    case FInt64(v) => Int64Back(v, rest);
  }

  lemma StringOnly(data: bytes)
    requires ParseString(data).Some?
    ensures var r := ParseString(data).value; |r.value| < 0x1_0000 && data == EncodeString(r.value) + r.rest
  {
    NumberOnly(data, 2);
    Pow256Values();
    hide ToBE, FromBE, Pow256, ParseNumber;
    var len, r := ParseNumber(data, 2).value, ParseString(data).value;
    assert len.rest == r.value + r.rest;
    Assoc(ToBE(|r.value|, 2), r.value, r.rest);
  }

  lemma {:induction false} StringsOnly(count: nat, data: bytes)
    requires ParseStrings(count, data).Some?
    ensures var r := ParseStrings(count, data).value;
            && |r.value| == count && (forall i :: 0 <= i < |r.value| ==> |r.value[i]| < 0x1_0000)
            && data == EncodeStrings(r.value) + r.rest
    decreases count
  {
    hide ParseString, EncodeString;
    if count == 0 {
      assert [] + data == data;
    } else {
      var first, r := ParseString(data).value, ParseStrings(count, data).value;
      StringOnly(data);
      StringsOnly(count - 1, first.rest);
      assert r.value[0] == first.value && r.value[1..] == ParseStrings(count - 1, first.rest).value.value;
      Assoc(EncodeString(first.value), EncodeStrings(r.value[1..]), r.rest);
    }
  }

  lemma Int64Only(data: bytes)
    requires Parse(AnInt64, data).Some?
    ensures var r := Parse(AnInt64, data).value; data == Encode(r.value) + r.rest
  {
    Pow256Values();
    NumberOnly(data, 4);
    var high := ParseNumber(data, 4).value;
    NumberOnly(high.rest, 4);
    var low := ParseNumber(high.rest, 4).value;
    hide ParseNumber, ToBE;
    var u := high.value * 0x1_0000_0000 + low.value;
    assert Unsigned(Signed(u)) == u && u / 0x1_0000_0000 == high.value && u % 0x1_0000_0000 == low.value;
    Assoc(ToBE(high.value, 4), ToBE(low.value, 4), low.rest);
  }

  /** What is read fits, has the kind asked for, and stands there as it would be written. */
  lemma FieldOnly(k: Kind, data: bytes)
    requires Parse(k, data).Some?
    ensures var r := Parse(k, data).value;
            Fits(r.value) && KindOf(r.value) == k && data == Encode(r.value) + r.rest
  {
    hide ToBE, ParseString, ParseStrings, EncodeStrings;
    match k
    case AString => StringOnly(data);
    case AWord => NumberOnly(data, 2);
    case AStringVector =>
      NumberOnly(data, 2);
      Pow256Values();
      var count, r := ParseNumber(data, 2).value, Parse(k, data).value;
      StringsOnly(count.value, count.rest);
      Assoc(ToBE(count.value, 2), EncodeStrings(r.value.ss), r.rest);
    case AnInt64 => Int64Only(data);
  }

  // ---------- lists of fields ----------

  ghost predicate AllFit(fs: seq<Field>) {
    forall i :: 0 <= i < |fs| ==> Fits(fs[i])
  }

  lemma {:induction false} FieldsBack(fs: seq<Field>, rest: bytes)
    requires AllFit(fs)
    ensures ParseAll(Kinds(fs), EncodeAll(fs) + rest) == Some(Read(fs, rest))
    decreases |fs|
  {
    hide Parse, Encode, Fits, KindOf;
    if fs == [] {
      assert [] + rest == rest;
    } else {
      Assoc(Encode(fs[0]), EncodeAll(fs[1..]), rest);
      FieldBack(fs[0], EncodeAll(fs[1..]) + rest);
      FieldsBack(fs[1..], rest);
      assert fs == [fs[0]] + fs[1..];
    }
  }

  lemma {:induction false} FieldsOnly(ks: seq<Kind>, data: bytes)
    requires ParseAll(ks, data).Some?
    ensures var r := ParseAll(ks, data).value;
            AllFit(r.value) && Kinds(r.value) == ks && data == EncodeAll(r.value) + r.rest
    decreases |ks|
  {
    hide Parse, Encode, Fits, KindOf;
    if ks == [] {
      assert [] + data == data;
    } else {
      var first, r := Parse(ks[0], data).value, ParseAll(ks, data).value;
      FieldOnly(ks[0], data);
      FieldsOnly(ks[1..], first.rest);
      assert r.value[0] == first.value && r.value[1..] == ParseAll(ks[1..], first.rest).value.value;
      Assoc(Encode(first.value), EncodeAll(r.value[1..]), r.rest);
    }
  }

  /** A cut encoding is rejected: were it read as something, that would stand at the start of the whole encoding as
      well, and nothing but the fields themselves does. */
  lemma CutRejected(fs: seq<Field>, k: nat)
    requires AllFit(fs) && k < |EncodeAll(fs)|
    ensures ParseAll(Kinds(fs), EncodeAll(fs)[..k]) == None
  {
    hide Parse, Encode, Fits, KindOf, ParseAll, EncodeAll, Kinds;
    var all := EncodeAll(fs);
    var cut, rest := all[..k], all[k..];
    assert all + [] == all && cut + rest == all;
    FieldsBack(fs, []);
    if ParseAll(Kinds(fs), cut).Some? {
      var r := ParseAll(Kinds(fs), cut).value;
      FieldsOnly(Kinds(fs), cut);
      Assoc(EncodeAll(r.value), r.rest, rest);
      FieldsBack(r.value, r.rest + rest);
      assert false;
    }
  }

  // ---------- messages ----------

  datatype Body =
    | Login(token: bytes, name: bytes)
    | LoginResp(status: bytes, name: bytes, message: bytes)
    | RegisterProxy(name: bytes, kind: bytes, remotePort: u16, customDomains: seq<bytes>, bandwidthLimit: int64)
    | RegisterProxyResp(status: bytes, name: bytes, message: bytes)
    | NewUserConn(proxyName: bytes, ticket: bytes)
    | UnregisterProxy(name: bytes)

  /** `MessageType` */
  function TypeOf(b: Body): byte {
    match b
    case Login(_, _) => 0
    case LoginResp(_, _, _) => 1
    case RegisterProxy(_, _, _, _, _) => 2
    case RegisterProxyResp(_, _, _) => 3
    case NewUserConn(_, _) => 4
    case UnregisterProxy(_) => 7
  }

  function Fields(b: Body): seq<Field> {
    match b
    case Login(token, name) => [FString(token), FString(name)]
    case LoginResp(status, name, message) => [FString(status), FString(name), FString(message)]
    case RegisterProxy(name, kind, remotePort, customDomains, bandwidthLimit) =>
      [FString(name), FString(kind), FWord(remotePort), FStrings(customDomains), FInt64(bandwidthLimit)]
    case RegisterProxyResp(status, name, message) => [FString(status), FString(name), FString(message)]
    case NewUserConn(proxyName, ticket) => [FString(proxyName), FString(ticket)]
    case UnregisterProxy(name) => [FString(name)]
  }

  /** The fields each type of message is read as; types without a body are not read. */
  function Schema(t: byte): Option<seq<Kind>> {
    if t == 0 || t == 4 then Some([AString, AString])
    else if t == 1 || t == 3 then Some([AString, AString, AString])
    else if t == 2 then Some([AString, AString, AWord, AStringVector, AnInt64])
    else if t == 7 then Some([AString])
    else None
  }

  function FromFields(t: byte, fs: seq<Field>): Body
    requires Schema(t).Some? && Kinds(fs) == Schema(t).value
  {
    KindsAt(fs);
    if t == 0 then Login(fs[0].s, fs[1].s)
    else if t == 1 then LoginResp(fs[0].s, fs[1].s, fs[2].s)
    else if t == 2 then RegisterProxy(fs[0].s, fs[1].s, fs[2].w, fs[3].ss, fs[4].v)
    else if t == 3 then RegisterProxyResp(fs[0].s, fs[1].s, fs[2].s)
    else if t == 4 then NewUserConn(fs[0].s, fs[1].s)
    else UnregisterProxy(fs[0].s)
  }

  lemma {:induction false} KindsAt(fs: seq<Field>)
    ensures forall i :: 0 <= i < |fs| ==> Kinds(fs)[i] == KindOf(fs[i])
    decreases |fs|
  {
    if fs != [] {
      KindsAt(fs[1..]);
    }
  }

  function Serialize(b: Body): bytes {
    EncodeAll(Fields(b))
  }

  /** None when the source throws. What follows the last field is not looked at. */
  function Deserialize(t: byte, data: bytes): Option<Body>
    requires Schema(t).Some?
  {
    var r := ParseAll(Schema(t).value, data);
    if r.None? then None
    else
      FieldsOnly(Schema(t).value, data);
      Some(FromFields(t, r.value.value))
  }

  ghost predicate BodyFits(b: Body) {
    AllFit(Fields(b))
  }

  lemma {:induction false} FieldsKinds(b: Body)
    ensures Schema(TypeOf(b)) == Some(Kinds(Fields(b)))
  {
    var fs := Fields(b);
    KindsAt(fs);
    assert Schema(TypeOf(b)).value == Kinds(fs);
  }

  lemma FieldsInverse(b: Body)
    ensures Schema(TypeOf(b)) == Some(Kinds(Fields(b))) && FromFields(TypeOf(b), Fields(b)) == b
  {
    FieldsKinds(b);
  }

  lemma FromInverse(t: byte, fs: seq<Field>)
    requires Schema(t).Some? && Kinds(fs) == Schema(t).value
    ensures Fields(FromFields(t, fs)) == fs
  {
    KindsAt(fs);
  }

  /** A message comes back from its encoding, whatever follows, exactly when its strings and lists of strings are at
      most 65535 long. */
  lemma RoundTripIff(b: Body, rest: bytes)
    ensures Schema(TypeOf(b)).Some?
    ensures Deserialize(TypeOf(b), Serialize(b) + rest) == Some(b) <==> BodyFits(b)
  {
    hide Parse, Fields, FromFields, ParseAll, EncodeAll, Kinds, Schema, AllFit;
    FieldsInverse(b);
    var ks, data := Kinds(Fields(b)), Serialize(b) + rest;
    if BodyFits(b) {
      FieldsBack(Fields(b), rest);
    }
    if ParseAll(ks, data).Some? {
      FieldsOnly(ks, data);
      FromInverse(TypeOf(b), ParseAll(ks, data).value.value);
    }
  }

  /** Every cut encoding is rejected. */
  lemma PrefixRejected(b: Body, k: nat)
    requires BodyFits(b) && k < |Serialize(b)|
    ensures Schema(TypeOf(b)).Some? && Deserialize(TypeOf(b), Serialize(b)[..k]) == None
  {
    FieldsKinds(b);
    hide Fields, ParseAll, EncodeAll, Kinds, Schema, AllFit;
    CutRejected(Fields(b), k);
  }

  // ---------- the bytes ----------

  /** A string on the wire: two bytes of length, the higher first, and its bytes. */
  function Text(s: bytes): bytes
    requires |s| < 0x1_0000
  {
    [|s| / 0x100, |s| % 0x100] + s
  }

  ghost predicate Short(ss: seq<bytes>) {
    forall i :: 0 <= i < |ss| ==> |ss[i]| < 0x1_0000
  }

  lemma TextBytes(s: bytes)
    requires |s| < 0x1_0000
    ensures Encode(FString(s)) == Text(s)
  {
    BytesOfU16(|s|);
  }

  lemma {:induction false} TextsBytes(ss: seq<bytes>)
    requires Short(ss)
    ensures EncodeStrings(ss) == Flatten(seq(|ss|, i requires 0 <= i < |ss| => Text(ss[i])))
    decreases |ss|
  {
    var texts := seq(|ss|, i requires 0 <= i < |ss| => Text(ss[i]));
    if ss != [] {
      var rest := ss[1..];
      TextBytes(ss[0]);
      TextsBytes(rest);
      hide EncodeString, Text;
      assert texts[1..] == seq(|rest|, i requires 0 <= i < |rest| => Text(rest[i]));
    }
  }

  /** Each kind of field on the wire; numbers have two or eight bytes, negative ones in two's complement. */
  lemma FieldBytes(f: Field)
    requires Fits(f)
    ensures match f
            case FString(s) => Encode(f) == Text(s)
            case FWord(w) => Encode(f) == [w / 0x100, w % 0x100]
            case FStrings(ss) =>
              Encode(f) == [|ss| / 0x100, |ss| % 0x100] + Flatten(seq(|ss|, i requires 0 <= i < |ss| => Text(ss[i])))
            case FInt64(v) => Encode(f) == ToBE(if v < 0 then v + 0x1_0000_0000_0000_0000 else v, 8)
  {
    match f
    case FString(s) => TextBytes(s);
    case FWord(w) => BytesOfU16(w);
    case FStrings(ss) =>
      BytesOfU16(|ss|);
      TextsBytes(ss);
      hide ToBE;
    case FInt64(v) => Int64Bytes(v);
  }

  lemma Int64Bytes(v: int64)
    ensures Encode(FInt64(v)) == ToBE(if v < 0 then v + 0x1_0000_0000_0000_0000 else v, 8)
  {
    var u := Unsigned(v);
    var high, low := u / 0x1_0000_0000, u % 0x1_0000_0000;
    BigEndian8(u);
    Pow256Values();
    assert high * Pow256(4) + low == u;
    LowBytes(low, high, 4);
    hide ToBE, Pow256;
  }

  /** Only the low bytes of a number are written. */
  lemma {:induction false} LowBytes(v: nat, q: nat, n: nat)
    ensures ToBE(q * Pow256(n) + v, n) == ToBE(v, n)
  {
    if n > 0 {
      var p := q * Pow256(n - 1);
      assert q * Pow256(n) == 256 * p;
      assert (256 * p + v) / 256 == p + v / 256 && (256 * p + v) % 256 == v % 256;
      LowBytes(v / 256, q, n - 1);
    }
  }

  lemma FieldsInOrder(a: Field, b: Field, c: Field)
    ensures EncodeAll([a]) == Encode(a) && EncodeAll([a, b]) == Encode(a) + Encode(b)
    ensures EncodeAll([a, b, c]) == Encode(a) + Encode(b) + Encode(c)
  {
    hide Encode;
    FirstField(a, []);
    FirstField(b, []);
    FirstField(c, []);
    FirstField(a, [b]);
    FirstField(b, [c]);
    FirstField(a, [b, c]);
    Assoc(Encode(a), Encode(b), Encode(c));
  }

  lemma FirstField(f: Field, fs: seq<Field>)
    ensures EncodeAll([f] + fs) == Encode(f) + EncodeAll(fs)
    ensures EncodeAll([f] + []) == Encode(f)
  {
    hide Encode;
    assert ([f] + fs)[0] == f && ([f] + fs)[1..] == fs;
    assert ([f] + [])[0] == f && ([f] + [])[1..] == [];
  }

  /** The messages made of strings, with their type bytes: the order of the strings on the wire. */
  lemma MessageBytes(x: bytes, y: bytes, z: bytes)
    requires |x| < 0x1_0000 && |y| < 0x1_0000 && |z| < 0x1_0000
    ensures TypeOf(Login(x, y)) == 0 && Serialize(Login(x, y)) == Text(x) + Text(y)
    ensures TypeOf(LoginResp(x, y, z)) == 1 && Serialize(LoginResp(x, y, z)) == Text(x) + Text(y) + Text(z)
    ensures TypeOf(RegisterProxyResp(x, y, z)) == 3 && Serialize(RegisterProxyResp(x, y, z)) == Text(x) + Text(y) + Text(z)
    ensures TypeOf(NewUserConn(x, y)) == 4 && Serialize(NewUserConn(x, y)) == Text(x) + Text(y)
    ensures TypeOf(UnregisterProxy(x)) == 7 && Serialize(UnregisterProxy(x)) == Text(x)
  {
    TextBytes(x);
    TextBytes(y);
    TextBytes(z);
    hide Encode, Text, EncodeAll;
    FieldsInOrder(FString(x), FString(y), FString(z));
  }

  /** And the registration of a proxy. */
  lemma RegistrationBytes(name: bytes, kind: bytes, port: u16, domains: seq<bytes>, limit: int64)
    requires |name| < 0x1_0000 && |kind| < 0x1_0000
    ensures var b := RegisterProxy(name, kind, port, domains, limit);
            && TypeOf(b) == 2
            && Serialize(b) == Text(name) + (Text(kind) + ([port / 0x100, port % 0x100]
                               + (Encode(FStrings(domains)) + Encode(FInt64(limit)))))
  {
    var fs := Fields(RegisterProxy(name, kind, port, domains, limit));
    TextBytes(name);
    TextBytes(kind);
    FieldBytes(FWord(port));
    hide Encode, Text;
    var others := [FWord(port), FStrings(domains), FInt64(limit)];
    FirstField(FString(name), [FString(kind)] + others);
    FirstField(FString(kind), others);
    assert fs == [FString(name)] + ([FString(kind)] + others);
    FieldsInOrder(FWord(port), FStrings(domains), FInt64(limit));
    Assoc(Encode(FWord(port)), Encode(FStrings(domains)), Encode(FInt64(limit)));
  }
}
