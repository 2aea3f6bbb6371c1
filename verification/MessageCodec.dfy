/** `BinaryWriter`, `BinaryReader` and the `Serialize` and `Deserialize` of each message (src/common/protocol.h), step by
    step, against MessageSpec. A read that throws returns false. */
module MessageCodec {
  import opened Bytes
  import opened MessageSpec

  class BinaryWriter {
    var data: bytes

    constructor ()
      ensures data == []
    {
      data := [];
    }

    method WriteUint16(v: u16)
      modifies this
      ensures data == old(data) + ToBE(v, 2)
    {
      data := data + ToBE(v, 2);
    }

    /** The high word, then the low word. */
    method WriteInt64(v: int64)
      modifies this
      ensures data == old(data) + Encode(FInt64(v))
    {
      var u := Unsigned(v);
      data := data + ToBE(u / 0x1_0000_0000, 4);
      data := data + ToBE(u % 0x1_0000_0000, 4);
    }

    method WriteString(s: bytes)
      modifies this
      ensures data == old(data) + EncodeString(s)
    {
      WriteUint16(|s| % 0x1_0000);
      data := data + s;
    }

    method WriteStringVector(v: seq<bytes>)
      modifies this
      ensures data == old(data) + Encode(FStrings(v))
    {
      WriteUint16(|v| % 0x1_0000);
      ghost var head := data;
      assert EncodeStrings(v[..0]) == [];
      assert data == head + [];
      var i := 0;
      while i < |v|
        invariant 0 <= i <= |v| && data == head + EncodeStrings(v[..i])
      {
        WriteString(v[i]);
        StringsSnoc(v[..i], v[i]);
        assert v[..i + 1] == v[..i] + [v[i]];
        Assoc(head, EncodeStrings(v[..i]), EncodeString(v[i]));
        i := i + 1;
      }
      assert v[..i] == v;
      Assoc(old(data), ToBE(|v| % 0x1_0000, 2), EncodeStrings(v));
    }
  }

  lemma {:induction false} StringsSnoc(ss: seq<bytes>, s: bytes)
    ensures EncodeStrings(ss + [s]) == EncodeStrings(ss) + EncodeString(s)
    decreases |ss|
  {
    hide EncodeString;
    if ss == [] {
      assert [s][1..] == [];
      assert [] + [s] == [s] && EncodeString(s) + [] == EncodeString(s) == [] + EncodeString(s);
    } else {
      assert (ss + [s])[0] == ss[0] && (ss + [s])[1..] == ss[1..] + [s];
      StringsSnoc(ss[1..], s);
      Assoc(EncodeString(ss[0]), EncodeStrings(ss[1..]), EncodeString(s));
    }
  }

  class BinaryReader {
    const data: bytes
    var pos: nat

    ghost predicate Valid()
      reads this
    {
      pos <= |data|
    }

    /** What is still to be read. */
    ghost function Rest(): bytes
      requires Valid()
      reads this
    {
      data[pos..]
    }

    constructor (data: bytes)
      ensures Valid() && Rest() == data && this.data == data
    {
      this.data := data;
      pos := 0;
    }

    method ReadNumber(len: nat) returns (ok: bool, v: nat)
      requires Valid()
      modifies this
      ensures Valid()
      ensures ok == ParseNumber(old(Rest()), len).Some?
      ensures ok ==> v < Pow256(len) && ParseNumber(old(Rest()), len) == Some(Read(v, Rest()))
    {
      if pos + len > |data| {
        return false, 0;
      }
      ok, v := true, FromBE(data[pos..pos + len]);
      assert data[pos..][..len] == data[pos..pos + len] && data[pos..][len..] == data[pos + len..];
      pos := pos + len;
    }

    method ReadUint16() returns (ok: bool, v: u16)
      requires Valid()
      modifies this
      ensures Valid()
      ensures ok == Parse(AWord, old(Rest())).Some?
      ensures ok ==> ParseNumber(old(Rest()), 2) == Some(Read(v, Rest()))
    {
      Pow256Values();
      var n: nat;
      ok, n := ReadNumber(2);
      v := if ok then n else 0;
    }

    method ReadInt64() returns (ok: bool, v: int64)
      requires Valid()
      modifies this
      ensures Valid()
      ensures ok == Parse(AnInt64, old(Rest())).Some?
      ensures ok ==> Parse(AnInt64, old(Rest())) == Some(Read(FInt64(v), Rest()))
    {
      Pow256Values();
      hide ParseNumber;
      var okHigh, high := ReadNumber(4);
      if !okHigh {
        return false, 0;
      }
      var okLow, low := ReadNumber(4);
      if !okLow {
        return false, 0;
      }
      return true, Signed(high * 0x1_0000_0000 + low);
    }

    method ReadString() returns (ok: bool, s: bytes)
      requires Valid()
      modifies this
      ensures Valid()
      ensures ok == ParseString(old(Rest())).Some?
      ensures ok ==> ParseString(old(Rest())) == Some(Read(s, Rest()))
    {
      var okLen, len := ReadUint16();
      if !okLen {
        return false, [];
      }
      if pos + len > |data| {
        return false, [];
      }
      s := data[pos..pos + len];
      assert data[pos..][..len] == s && data[pos..][len..] == data[pos + len..];
      pos := pos + len;
      ok := true;
    }

    method ReadStringVector() returns (ok: bool, v: seq<bytes>)
      requires Valid()
      modifies this
      ensures Valid()
      ensures ok == Parse(AStringVector, old(Rest())).Some?
      ensures ok ==> Parse(AStringVector, old(Rest())) == Some(Read(FStrings(v), Rest()))
    {
      v := [];
      hide ParseString;
      var okCount, count := ReadUint16();
      if !okCount {
        return false, [];
      }
      ghost var start := Rest();
      PrependNone(ParseStrings(count, start));
      var i := 0;
      while i < count
        invariant Valid() && 0 <= i <= count
        invariant ParseStrings(count, start) == Prepend(v, ParseStrings(count - i, Rest()))
      {
        var okOne, s := ReadString();
        if !okOne {
          return false, [];
        }
        PrependOne(v, s, ParseStrings(count - i - 1, Rest()));
        v := v + [s];
        i := i + 1;
      }
      assert ParseStrings(0, Rest()) == Some(Read([], Rest()));
      assert v + [] == v;
      ok := true;
    }
  }

  /** What is read when `v` has been read before. */
  ghost function Prepend<T>(v: seq<T>, r: Option<Read<seq<T>>>): Option<Read<seq<T>>> {
    if r.None? then None else Some(Read(v + r.value.value, r.value.rest))
  }

  lemma PrependNone<T>(r: Option<Read<seq<T>>>)
    ensures Prepend([], r) == r
  {
    if r.Some? {
      assert [] + r.value.value == r.value.value;
    }
  }

  lemma PrependOne<T>(v: seq<T>, x: T, r: Option<Read<seq<T>>>)
    ensures Prepend(v, Prepend([x], r)) == Prepend(v + [x], r)
  {
    if r.Some? {
      Assoc(v, [x], r.value.value);
    }
  }

  // ---------- messages ----------

  lemma {:induction false} EncodeSnoc(fs: seq<Field>, f: Field)
    ensures EncodeAll(fs + [f]) == EncodeAll(fs) + Encode(f)
    decreases |fs|
  {
    hide Encode;
    if fs == [] {
      assert [f][1..] == [];
      assert [] + [f] == [f] && Encode(f) + [] == Encode(f) == [] + Encode(f);
    } else {
      assert (fs + [f])[0] == fs[0] && (fs + [f])[1..] == fs[1..] + [f];
      EncodeSnoc(fs[1..], f);
      Assoc(Encode(fs[0]), EncodeAll(fs[1..]), Encode(f));
    }
  }

  lemma TwoFields(a: Field, b: Field)
    ensures EncodeAll([a, b]) == Encode(a) + Encode(b)
  {
    hide Encode;
    EncodeSnoc([], a);
    EncodeSnoc([a], b);
    assert [] + [a] == [a] && [a] + [b] == [a, b] && [] + Encode(a) == Encode(a);
  }

  lemma ThreeFields(a: Field, b: Field, c: Field)
    ensures EncodeAll([a, b, c]) == Encode(a) + Encode(b) + Encode(c)
  {
    hide Encode, EncodeAll;
    TwoFields(a, b);
    EncodeSnoc([a, b], c);
    assert [a, b] + [c] == [a, b, c];
  }

  lemma FiveFields(a: Field, b: Field, c: Field, d: Field, e: Field)
    ensures EncodeAll([a, b, c, d, e]) == Encode(a) + Encode(b) + Encode(c) + Encode(d) + Encode(e)
  {
    hide Encode, EncodeAll;
    ThreeFields(a, b, c);
    EncodeSnoc([a, b, c], d);
    EncodeSnoc([a, b, c, d], e);
    assert [a, b, c] + [d] == [a, b, c, d] && [a, b, c, d] + [e] == [a, b, c, d, e];
  }

  method SerializePair(a: bytes, b: bytes) returns (data: bytes)
    ensures data == EncodeAll([FString(a), FString(b)])
  {
    hide EncodeString, EncodeAll;
    var w := new BinaryWriter();
    w.WriteString(a);
    w.WriteString(b);
    data := w.data;
    TwoFields(FString(a), FString(b));
    assert [] + EncodeString(a) == EncodeString(a);
  }

  method SerializeResponse(status: bytes, name: bytes, message: bytes) returns (data: bytes)
    ensures data == EncodeAll([FString(status), FString(name), FString(message)])
  {
    hide EncodeString, EncodeAll;
    var w := new BinaryWriter();
    w.WriteString(status);
    w.WriteString(name);
    w.WriteString(message);
    data := w.data;
    ThreeFields(FString(status), FString(name), FString(message));
    assert [] + EncodeString(status) == EncodeString(status);
  }

  method SerializeRegisterProxy(name: bytes, kind: bytes, remotePort: u16, customDomains: seq<bytes>, bandwidthLimit: int64)
    returns (data: bytes)
    ensures data == Serialize(RegisterProxy(name, kind, remotePort, customDomains, bandwidthLimit))
  {
    var f := Fields(RegisterProxy(name, kind, remotePort, customDomains, bandwidthLimit));
    FiveFields(f[0], f[1], f[2], f[3], f[4]);
    assert f == [f[0], f[1], f[2], f[3], f[4]];
    assert Encode(f[0]) == EncodeString(name) && Encode(f[1]) == EncodeString(kind) && Encode(f[2]) == ToBE(remotePort, 2);
    hide EncodeString, EncodeAll, Encode, ToBE;
    var w := new BinaryWriter();
    w.WriteString(name);
    assert w.data == Encode(f[0]);
    w.WriteString(kind);
    w.WriteUint16(remotePort);
    w.WriteStringVector(customDomains);
    w.WriteInt64(bandwidthLimit);
    data := w.data;
  }

  method SerializeBody(b: Body) returns (data: bytes)
    ensures data == Serialize(b)
  {
    match b
    case Login(token, name) => data := SerializePair(token, name);
    case LoginResp(status, name, message) => data := SerializeResponse(status, name, message);
    case RegisterProxy(name, kind, remotePort, customDomains, bandwidthLimit) =>
      data := SerializeRegisterProxy(name, kind, remotePort, customDomains, bandwidthLimit);
    case RegisterProxyResp(status, name, message) => data := SerializeResponse(status, name, message);
    case NewUserConn(proxyName, ticket) => data := SerializePair(proxyName, ticket);
    case UnregisterProxy(name) =>
      EncodeSnoc([], FString(name));
      assert [] + [FString(name)] == [FString(name)];
      var w := new BinaryWriter();
      w.WriteString(name);
      data := w.data;
  }

  /** The first field, then the others. */
  lemma ParseFirst(k: Kind, ks: seq<Kind>, data: bytes)
    ensures ParseAll([k] + ks, data) ==
            if Parse(k, data).None? then None
            else Prepend([Parse(k, data).value.value], ParseAll(ks, Parse(k, data).value.rest))
  {
    hide Parse;
    assert ([k] + ks)[1..] == ks;
  }

  lemma ParseOne(k: Kind, data: bytes)
    ensures ParseAll([k], data) ==
            if Parse(k, data).None? then None else Some(Read([Parse(k, data).value.value], Parse(k, data).value.rest))
  {
    hide Parse;
    ParseFirst(k, [], data);
    assert [k] + [] == [k];
    if Parse(k, data).Some? {
      assert ParseAll([], Parse(k, data).value.rest) == Some(Read([], Parse(k, data).value.rest));
      assert [Parse(k, data).value.value] + [] == [Parse(k, data).value.value];
    }
  }

  lemma ParseTwo(k: Kind, l: Kind, data: bytes)
    ensures ParseAll([k, l], data) ==
            var x := Parse(k, data);
            if x.None? then None
            else
              var y := Parse(l, x.value.rest);
              if y.None? then None else Some(Read([x.value.value, y.value.value], y.value.rest))
  {
    hide Parse, ParseAll;
    ParseFirst(k, [l], data);
    assert [k] + [l] == [k, l];
    if Parse(k, data).Some? {
      var x := Parse(k, data).value;
      ParseOne(l, x.rest);
      if Parse(l, x.rest).Some? {
        assert [x.value] + [Parse(l, x.rest).value.value] == [x.value, Parse(l, x.rest).value.value];
      }
    }
  }

  lemma ParseThree(k: Kind, l: Kind, m: Kind, data: bytes)
    ensures ParseAll([k, l, m], data) ==
            var x := Parse(k, data);
            if x.None? then None
            else
              var y := Parse(l, x.value.rest);
              if y.None? then None
              else
                var z := Parse(m, y.value.rest);
                if z.None? then None else Some(Read([x.value.value, y.value.value, z.value.value], z.value.rest))
  {
    hide Parse, ParseAll;
    ParseFirst(k, [l, m], data);
    assert [k] + [l, m] == [k, l, m];
    if Parse(k, data).Some? {
      var x := Parse(k, data).value;
      ParseTwo(l, m, x.rest);
      if Parse(l, x.rest).Some? {
        var y := Parse(l, x.rest).value;
        if Parse(m, y.rest).Some? {
          var z := Parse(m, y.rest).value;
          assert [x.value] + [y.value, z.value] == [x.value, y.value, z.value];
        }
      }
    }
  }

  /** The fields of a `RegisterProxyMessage`: two, then three. */
  lemma ParseFive(data: bytes)
    ensures ParseAll([AString, AString, AWord, AStringVector, AnInt64], data) ==
            var a := Parse(AString, data);
            if a.None? then None
            else
              var b := Parse(AString, a.value.rest);
              if b.None? then None
              else Prepend([a.value.value, b.value.value], ParseAll([AWord, AStringVector, AnInt64], b.value.rest))
  {
    hide Parse, ParseAll;
    var three := [AWord, AStringVector, AnInt64];
    ParseFirst(AString, [AString] + three, data);
    assert [AString] + ([AString] + three) == [AString, AString, AWord, AStringVector, AnInt64];
    if Parse(AString, data).Some? {
      var x := Parse(AString, data).value;
      ParseFirst(AString, three, x.rest);
      if Parse(AString, x.rest).Some? {
        var y := Parse(AString, x.rest).value;
        PrependOne([x.value], y.value, ParseAll(three, y.rest));
        assert [x.value] + [y.value] == [x.value, y.value];
      }
    }
  }

  lemma Joined(a: Field, b: Field, c: Field, d: Field, e: Field)
    ensures [a, b] + [c, d, e] == [a, b, c, d, e]
  {
  }

  method DeserializePair(data: bytes) returns (ok: bool, a: bytes, b: bytes)
    ensures ok == ParseAll([AString, AString], data).Some?
    ensures ok ==> ParseAll([AString, AString], data).value.value == [FString(a), FString(b)]
  {
    ParseTwo(AString, AString, data);
    hide ParseString, ParseAll;
    var r := new BinaryReader(data);
    b := [];
    ok, a := r.ReadString();
    if !ok {
      return;
    }
    ok, b := r.ReadString();
  }

  method DeserializeResponse(data: bytes) returns (ok: bool, status: bytes, name: bytes, message: bytes)
    ensures ok == ParseAll([AString, AString, AString], data).Some?
    ensures ok ==> ParseAll([AString, AString, AString], data).value.value == [FString(status), FString(name), FString(message)]
  {
    ParseThree(AString, AString, AString, data);
    hide ParseString, ParseAll;
    var r := new BinaryReader(data);
    name, message := [], [];
    ok, status := r.ReadString();
    if !ok {
      return;
    }
    ok, name := r.ReadString();
    if !ok {
      return;
    }
    ok, message := r.ReadString();
  }

  method DeserializeRegisterProxy(data: bytes)
    returns (ok: bool, name: bytes, kind: bytes, remotePort: u16, customDomains: seq<bytes>, bandwidthLimit: int64)
    ensures ok == ParseAll([AString, AString, AWord, AStringVector, AnInt64], data).Some?
    ensures ok ==> ParseAll([AString, AString, AWord, AStringVector, AnInt64], data).value.value ==
                   [FString(name), FString(kind), FWord(remotePort), FStrings(customDomains), FInt64(bandwidthLimit)]
  {
    ParseFive(data);
    hide ParseString, ParseStrings, ParseAll, ParseNumber;
    var r := new BinaryReader(data);
    kind, remotePort, customDomains, bandwidthLimit := [], 0, [], 0;
    ok, name := r.ReadString();
    if !ok {
      return;
    }
    ok, kind := r.ReadString();
    if !ok {
      return;
    }
    ParseThree(AWord, AStringVector, AnInt64, r.Rest());
    ok, remotePort := r.ReadUint16();
    if !ok {
      return;
    }
    ok, customDomains := r.ReadStringVector();
    if !ok {
      return;
    }
    ok, bandwidthLimit := r.ReadInt64();
    Joined(FString(name), FString(kind), FWord(remotePort), FStrings(customDomains), FInt64(bandwidthLimit));
  }

  /** The `Deserialize` of each type. */
  method DeserializeBody(t: byte, data: bytes) returns (b: Option<Body>)
    requires Schema(t).Some?
    ensures b == Deserialize(t, data)
  {
    hide ParseAll;
    b := None;
    if t == 0 || t == 4 {
      var ok, x, y := DeserializePair(data);
      if ok {
        b := Some(if t == 0 then Login(x, y) else NewUserConn(x, y));
      }
    } else if t == 1 || t == 3 {
      var ok, status, name, message := DeserializeResponse(data);
      if ok {
        b := Some(if t == 1 then LoginResp(status, name, message) else RegisterProxyResp(status, name, message));
      }
    } else if t == 2 {
      var ok, name, kind, remotePort, customDomains, bandwidthLimit := DeserializeRegisterProxy(data);
      if ok {
        b := Some(RegisterProxy(name, kind, remotePort, customDomains, bandwidthLimit));
      }
    } else {
      var r := new BinaryReader(data);
      var ok, name := r.ReadString();
      ParseOne(AString, data);
      if ok {
        b := Some(UnregisterProxy(name));
      }
    }
  }
}
