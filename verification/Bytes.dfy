/** Bytes, big-endian integers, masking and concatenation: the vocabulary shared by
    every layer of the tunnel. */
module Bytes {

  type byte = x: int | 0 <= x < 256
  type u16 = x: int | 0 <= x < 0x1_0000
  type u32 = x: int | 0 <= x < 0x1_0000_0000
  type bytes = seq<byte>

  datatype Option<T> = None | Some(value: T)

  /** Conversion to a 32-bit unsigned integer. */
  function Truncate32(n: nat): u32 {
    n % 0x1_0000_0000
  }

  function Min(a: int, b: int): int {
    if a <= b then a else b
  }

  // ---------- prefixes ----------

  /** Splitting a concatenation inside its first part. */
  lemma SplitConcat<T>(a: seq<T>, b: seq<T>, n: nat)
    requires n <= |a|
    ensures (a + b)[..n] == a[..n]
    ensures (a + b)[n..] == a[n..] + b
  {
  }

  /** One element, then a field, then the rest. */
  lemma Framed<T>(h: T, field: seq<T>, rest: seq<T>)
    ensures var s := [h] + field + rest;
            s[0] == h && s[1..] == field + rest && s[1..1 + |field|] == field && s[1 + |field|..] == rest
  {
  }

  lemma PrefixTrans<T>(a: seq<T>, b: seq<T>, c: seq<T>)
    requires a <= b && b <= c
    ensures a <= c
  {
    assert c[..|a|] == b[..|a|];
  }

  // ---------- big-endian integers ----------

  function Pow256(n: nat): (r: nat)
    ensures r >= 1
  {
    if n == 0 then 1 else 256 * Pow256(n - 1)
  }

  lemma Pow256Values()
    ensures Pow256(1) == 0x100 && Pow256(2) == 0x1_0000 && Pow256(4) == 0x1_0000_0000
    ensures Pow256(8) == 0x1_0000_0000_0000_0000
  {
    assert Pow256(3) == 0x100_0000;
    assert Pow256(5) == 0x100_0000_0000;
    assert Pow256(6) == 0x1_0000_0000_0000;
    assert Pow256(7) == 0x100_0000_0000_0000;
  }

  /** The low `n` bytes of `v`, most significant first (network byte order). */
  function ToBE(v: nat, n: nat): (s: bytes)
    ensures |s| == n
  {
    if n == 0 then [] else ToBE(v / 256, n - 1) + [v % 256]
  }

  function FromBE(s: bytes): (v: nat)
    ensures v < Pow256(|s|)
  {
    if s == [] then 0 else FromBE(s[..|s| - 1]) * 256 + s[|s| - 1]
  }

  lemma {:induction false} FromToBE(v: nat, n: nat)
    requires v < Pow256(n)
    ensures FromBE(ToBE(v, n)) == v
  {
    if n > 0 {
      FromToBE(v / 256, n - 1);
      assert ToBE(v, n)[..n - 1] == ToBE(v / 256, n - 1);
    }
  }

  lemma {:induction false} ToFromBE(s: bytes)
    ensures ToBE(FromBE(s), |s|) == s
  {
    if s != [] {
      var init, last := s[..|s| - 1], s[|s| - 1];
      ToFromBE(init);
      assert FromBE(s) / 256 == FromBE(init) && FromBE(s) % 256 == last;
      assert s == init + [last];
    }
  }

  // Network byte order, spelled out for the widths in use.

  lemma BigEndian2(v: nat)
    ensures ToBE(v, 1) == [v % 256]
    ensures ToBE(v, 2) == [v / 0x100 % 256, v % 256]
  {
    assert ToBE(v, 1) == ToBE(v / 256, 0) + [v % 256];
    assert ToBE(v / 256, 1) == ToBE(v / 256 / 256, 0) + [v / 256 % 256];
  }

  lemma BigEndian4(v: nat)
    ensures ToBE(v, 4) == [v / 0x100_0000 % 256, v / 0x1_0000 % 256, v / 0x100 % 256, v % 256]
  {
    var w := v / 256 / 256;
    BigEndian2(w);
    assert ToBE(v, 4) == ToBE(v / 256, 3) + [v % 256];
    assert ToBE(v / 256, 3) == ToBE(w, 2) + [v / 256 % 256];
    assert w == v / 0x1_0000 && w / 256 == v / 0x100_0000;
  }

  lemma BigEndian8(v: nat)
    ensures ToBE(v, 8) == ToBE(v / 0x1_0000_0000, 4) + ToBE(v, 4)
  {
    ToBESplit(v, 4, 4);
    var w := v / 256 / 256 / 256 / 256;
    assert w == v / 0x1_0000_0000;
    assert Shift(v, 4) == Shift(v / 256, 3) == Shift(v / 256 / 256, 2) == Shift(v / 256 / 256 / 256, 1) == Shift(w, 0);
  }

  lemma BytesOfU16(v: u16)
    ensures ToBE(v, 2) == [v / 0x100, v % 0x100]
  {
    BigEndian2(v);
  }

  lemma BytesOfU32(v: u32)
    ensures ToBE(v, 4) == [v / 0x100_0000, v / 0x1_0000 % 0x100, v / 0x100 % 0x100, v % 0x100]
  {
    BigEndian4(v);
  }

  /** `v >> 8 * k` */
  function Shift(v: nat, k: nat): nat {
    if k == 0 then v else Shift(v / 256, k - 1)
  }

  lemma {:induction false} ToBESplit(v: nat, m: nat, n: nat)
    ensures ToBE(v, m + n) == ToBE(Shift(v, n), m) + ToBE(v, n)
    decreases n
  {
    if n == 0 {
      assert ToBE(v, m) + [] == ToBE(v, m);
    } else {
      ToBESplit(v / 256, m, n - 1);
      Assoc(ToBE(Shift(v, n), m), ToBE(v / 256, n - 1), [v % 256]);
    }
  }

  // ---------- exclusive or ----------

  function Bit(b: bool): nat {
    if b then 1 else 0
  }

  /** Bitwise exclusive or of the low `n` bits. */
  function XorBits(a: nat, b: nat, n: nat): nat {
    if n == 0 then 0 else Bit(a % 2 != b % 2) + 2 * XorBits(a / 2, b / 2, n - 1)
  }

  function Pow2(n: nat): nat {
    if n == 0 then 1 else 2 * Pow2(n - 1)
  }

  lemma {:induction false} XorBitsTwice(a: nat, b: nat, n: nat)
    requires a < Pow2(n)
    ensures XorBits(a, b, n) < Pow2(n)
    ensures XorBits(XorBits(a, b, n), b, n) == a
  {
    if n > 0 {
      XorBitsTwice(a / 2, b / 2, n - 1);
      var low, high := Bit(a % 2 != b % 2), XorBits(a / 2, b / 2, n - 1);
      var x := low + 2 * high;
      assert x / 2 == high && x % 2 == low;
      assert XorBits(x, b, n) == Bit(low != b % 2) + 2 * (a / 2);
    }
  }

  /** Bit `i` of a number, counted from the least significant. */
  predicate BitAt(v: nat, i: nat) {
    if i == 0 then v % 2 == 1 else BitAt(v / 2, i - 1)
  }

  lemma {:induction false} XorBitsAt(a: nat, b: nat, n: nat, i: nat)
    requires i < n
    ensures BitAt(XorBits(a, b, n), i) <==> BitAt(a, i) != BitAt(b, i)
  {
    var low, high := Bit(a % 2 != b % 2), XorBits(a / 2, b / 2, n - 1);
    var x := low + 2 * high;
    assert x / 2 == high && x % 2 == low;
    if i > 0 {
      XorBitsAt(a / 2, b / 2, n - 1, i - 1);
    }
  }

  function Xor(a: byte, b: byte): byte {
    assert Pow2(8) == 256 by { assert Pow2(4) == 16; }
    XorBitsTwice(a, b, 8);
    XorBits(a, b, 8)
  }

  lemma XorTwice(a: byte, b: byte)
    ensures Xor(Xor(a, b), b) == a
  {
    assert Pow2(8) == 256 by { assert Pow2(4) == 16; }
    XorBitsTwice(a, b, 8);
  }

  /** A bit of `Xor(a, b)` is set exactly where `a` and `b` differ. */
  lemma XorAt(a: byte, b: byte, i: nat)
    requires i < 8
    ensures BitAt(Xor(a, b), i) <==> BitAt(a, i) != BitAt(b, i)
  {
    XorBitsAt(a, b, 8, i);
  }

  // ---------- concatenation ----------

  lemma Assoc<T>(a: seq<T>, b: seq<T>, c: seq<T>)
    ensures a + b + c == a + (b + c)
  {
  }

  function Flatten<T>(ss: seq<seq<T>>): seq<T> {
    if ss == [] then [] else ss[0] + Flatten(ss[1..])
  }

  lemma {:induction false} FlattenAppend<T>(a: seq<seq<T>>, b: seq<seq<T>>)
    ensures Flatten(a + b) == Flatten(a) + Flatten(b)
  {
    if a == [] {
      assert a + b == b;
    } else {
      FlattenAppend(a[1..], b);
      assert (a + b)[1..] == a[1..] + b;
      Assoc(a[0], Flatten(a[1..]), Flatten(b));
    }
  }

  lemma FlattenSnoc<T>(a: seq<seq<T>>, x: seq<T>)
    ensures Flatten(a + [x]) == Flatten(a) + x
  {
    FlattenAppend(a, [x]);
    assert Flatten([x]) == x + Flatten<T>([]);
  }
}
