/** WebSocket frames on the wire: masking bit by bit against section 5.3 of RFC 6455, the frames of its section 5.7, and
    the frames that end a link. */
module WebSocketWire {
  import opened Bytes
  import opened WebSocketSpec

  // ---------- masking ----------

  /** Bit `k` of octet `i` is flipped exactly where bit `k` of octet `i` modulo 4 of the key is set. */
  lemma MaskedBits(data: bytes, mask: Mask, i: nat, k: nat)
    requires i < |data| && k < 8
    ensures BitAt(Masked(data, mask)[i], k) <==> BitAt(data[i], k) != BitAt(mask[i % 4], k)
  {
    XorAt(data[i], mask[i % 4], k);
  }

  /** The last `n` bits of `c` are set where those of `a` and `b` differ. */
  predicate Differ(a: byte, b: byte, c: byte, n: nat) {
    n == 0 || (Differ(a / 2, b / 2, c / 2, n - 1) && (c % 2 == 1 <==> a % 2 != b % 2))
  }

  lemma {:induction false} DifferBits(a: byte, b: byte, c: byte, n: nat)
    requires Differ(a, b, c, n) && c < Pow2(n)
    ensures XorBits(a, b, n) == c
  {
    if n > 0 {
      DifferBits(a / 2, b / 2, c / 2, n - 1);
    }
  }

  lemma XorIs(a: byte, b: byte, c: byte)
    requires Differ(a, b, c, 8)
    ensures Xor(a, b) == c
  {
    assert Pow2(8) == 256 by { assert Pow2(4) == 16; }
    DifferBits(a, b, c, 8);
  }

  const HELLO: bytes := [0x48, 0x65, 0x6c, 0x6c, 0x6f]
  const KEY: Mask := [0x37, 0xfa, 0x21, 0x3d]

  lemma MaskedHello()
    ensures Masked(HELLO, KEY) == [0x7f, 0x9f, 0x4d, 0x51, 0x58]
  {
    HelloBits();
    hide Differ, Xor;
    XorIs(0x48, 0x37, 0x7f);
    XorIs(0x65, 0xfa, 0x9f);
    XorIs(0x6c, 0x21, 0x4d);
    XorIs(0x6c, 0x3d, 0x51);
    XorIs(0x6f, 0x37, 0x58);
    var m := Masked(HELLO, KEY);
    assert m[0] == Xor(HELLO[0], KEY[0]) && m[1] == Xor(HELLO[1], KEY[1]) && m[2] == Xor(HELLO[2], KEY[2]);
    assert m[3] == Xor(HELLO[3], KEY[3]) && m[4] == Xor(HELLO[4], KEY[0]);
  }

  lemma HelloBits()
    ensures Differ(0x48, 0x37, 0x7f, 8) && Differ(0x65, 0xfa, 0x9f, 8) && Differ(0x6c, 0x21, 0x4d, 8)
    ensures Differ(0x6c, 0x3d, 0x51, 8) && Differ(0x6f, 0x37, 0x58, 8)
  {
    assert Differ(0x04, 0x03, 0x07, 4);
    assert Differ(0x06, 0x0f, 0x09, 4);
    assert Differ(0x06, 0x02, 0x04, 4);
    assert Differ(0x06, 0x03, 0x05, 4);
    assert Differ(0x12, 0x0d, 0x1f, 6);
    assert Differ(0x19, 0x3e, 0x27, 6);
    assert Differ(0x1b, 0x08, 0x13, 6);
    assert Differ(0x1b, 0x0f, 0x14, 6);
    assert Differ(0x1b, 0x0d, 0x16, 6);
  }

  // ---------- the examples of the RFC ----------

  const TEXT: byte := 0x1

  lemma EncodeShort(item: Item)
    requires item.opcode < 16 && |item.payload| <= 125
    ensures Encode(item) == [(if item.fin then 0x80 else 0) + item.opcode, (if item.mask.Some? then 0x80 else 0) + |item.payload|]
                            + (match item.mask case None => item.payload case Some(m) => m + Masked(item.payload, m))
  {
  }

  /** The short frames of section 5.7: a text in one frame, plain and masked; the same in two fragments; a ping, and its
      pong with the same body, masked. */
  lemma ShortExamples()
    ensures Encode(Item(true, TEXT, None, HELLO)) == [0x81, 0x05, 0x48, 0x65, 0x6c, 0x6c, 0x6f]
    ensures Encode(Item(true, TEXT, Some(KEY), HELLO))
            == [0x81, 0x85, 0x37, 0xfa, 0x21, 0x3d, 0x7f, 0x9f, 0x4d, 0x51, 0x58]
    ensures Encode(Item(false, TEXT, None, [0x48, 0x65, 0x6c])) == [0x01, 0x03, 0x48, 0x65, 0x6c]
    ensures Encode(Item(true, 0x0, None, [0x6c, 0x6f])) == [0x80, 0x02, 0x6c, 0x6f]
    ensures Encode(Item(true, PING, None, HELLO)) == [0x89, 0x05, 0x48, 0x65, 0x6c, 0x6c, 0x6f]
    ensures Encode(Item(true, PONG, Some(KEY), HELLO))
            == [0x8a, 0x85, 0x37, 0xfa, 0x21, 0x3d, 0x7f, 0x9f, 0x4d, 0x51, 0x58]
  {
    hide Masked, Encode;
    EncodeShort(Item(true, TEXT, None, HELLO));
    EncodeShort(Item(true, TEXT, Some(KEY), HELLO));
    EncodeShort(Item(false, TEXT, None, [0x48, 0x65, 0x6c]));
    EncodeShort(Item(true, 0x0, None, [0x6c, 0x6f]));
    EncodeShort(Item(true, PING, None, HELLO));
    EncodeShort(Item(true, PONG, Some(KEY), HELLO));
    MaskedHello();
  }

  /** The length after the first octet, in each of its three forms. */
  lemma LengthOctets(n: nat)
    requires n < 0x1_0000_0000
    ensures LengthField(n, false)
            == if n <= 125 then [n]
               else if n <= 0xFFFF then [0x7e, n / 0x100, n % 0x100]
               else [0x7f, 0, 0, 0, 0, n / 0x100_0000, n / 0x1_0000 % 0x100, n / 0x100 % 0x100, n % 0x100]
  {
    if n > 0xFFFF {
      BigEndian8(n);
      BigEndian4(0);
      BigEndian4(n);
    } else {
      BigEndian2(n);
    }
    hide ToBE;
  }

  /** The header of an unmasked binary message; those of 256 and of 65536 bytes are the long examples of section 5.7. */
  lemma BinaryHeader(data: bytes)
    requires |data| < 0x1_0000_0000
    ensures var n := |data|;
            Encode(Item(true, BINARY, None, data))
            == (if n <= 125 then [0x82, n]
                else if n <= 0xFFFF then [0x82, 0x7e, n / 0x100, n % 0x100]
                else [0x82, 0x7f, 0, 0, 0, 0, n / 0x100_0000, n / 0x1_0000 % 0x100, n / 0x100 % 0x100, n % 0x100]) + data
  {
    LengthOctets(|data|);
    hide LengthField;
    assert WithTopBit(true, BINARY) == 0x82;
  }

  // ---------- short reads ----------

  /** `async_read_some` returns fewer bytes than it has room for only where a frame ends, and looks at no further frame while
      one is left over. */
  lemma ShortOnlyAtFrameEnd(c: Incoming, n: nat)
    requires ReadSome(c, n).Done?
    ensures var r := ReadSome(c, n);
            && (|r.data| < n ==> r.after.leftover == [])
            && (c.leftover != [] || n == 0 ==> r.after.input == c.input && r.after.pongs == c.pongs
                                               && r.data + r.after.leftover == c.leftover)
  {
    assert [] + c.leftover == c.leftover;
  }

  // ---------- the end of the link ----------

  /** What is found where a control frame or a forbidden frame comes next. */
  lemma ControlNext(item: Item, rest: bytes)
    requires item.opcode < 16 && |item.payload| < 0x8000_0000_0000_0000
    requires ValidItem(item) ==> !IsData(item)
    ensures NextData(Encode(item) + rest)
            == if !ValidItem(item) then Ended(false, Encode(item) + rest, [])
               else if item.opcode == CLOSE then Ended(true, Encode(item) + rest, [])
               else if item.opcode == PING then Owing(item.payload, NextData(rest))
               else NextData(rest)
  {
    hide Encode, ReadFrame, ValidItem;
    FrameRoundTrip(item, rest);
  }

  lemma ValidSendable(item: Item)
    ensures ValidItem(item) ==> item.opcode < 16 && |item.payload| < 0x8000_0000_0000_0000
  {
  }

  /** Behind any pings and pongs a close frame ends the stream, and a frame that is not allowed breaks it. The pings before
      it are answered all the same, and no frame behind it is looked at. */
  lemma {:induction false} EndsAt(items: seq<Item>, item: Item, rest: bytes)
    requires Flowing(items) && forall i :: 0 <= i < |items| ==> !IsData(items[i])
    requires item.opcode < 16 && |item.payload| < 0x8000_0000_0000_0000
    requires item.opcode == CLOSE || !ValidItem(item)
    ensures NextData(Encodes(items) + (Encode(item) + rest)) == Ended(ValidItem(item), Encode(item) + rest, Pings(items))
    decreases |items|
  {
    hide Encode, NextData, ValidItem;
    var tail := Encode(item) + rest;
    if items == [] {
      ControlNext(item, rest);
      assert [] + tail == tail;
    } else {
      var others := items[1..];
      ValidSendable(items[0]);
      SkipControl(items);
      EndsAt(others, item, rest);
      Assoc(Encode(items[0]), Encodes(others), tail);
      ControlNext(items[0], Encodes(others) + tail);
    }
  }
}
