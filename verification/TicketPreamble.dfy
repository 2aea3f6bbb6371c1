/** The 65 bytes in front of every work stream: a compression flag and the ticket, padded with spaces. The client
    writes them (src/client/client.cpp), the server reads them (src/server/server.cpp). */
module TicketPreamble {
  import opened Bytes

  const SIZE := 65
  const SPACE: byte := 0x20

  function Spaces(n: nat): (s: bytes)
    ensures |s| == n && forall i :: 0 <= i < n ==> s[i] == SPACE
  {
    if n == 0 then [] else Spaces(n - 1) + [SPACE]
  }

  /** `resize(n, ' ')`: cut, or padded with spaces. */
  function Resized(s: bytes, n: nat): (r: bytes)
    ensures |r| == n
  {
    if |s| >= n then s[..n] else s + Spaces(n - |s|)
  }

  function Encode(compression: bool, ticket: bytes): (r: bytes)
    ensures |r| == SIZE
  {
    Resized([if compression then 1 else 0] + ticket, SIZE)
  }

  /** One of the characters the server strips. */
  predicate IsBlank(b: byte) {
    b == 0x20 || b == 0x0A || b == 0x0D || b == 0x09
  }

  /** `erase(find_last_not_of(" \n\r\t") + 1)` */
  function Trimmed(s: bytes): bytes {
    if s != [] && IsBlank(s[|s| - 1]) then Trimmed(s[..|s| - 1]) else s
  }

  /** The flag and the ticket as the server reads them. */
  function Decode(data: bytes): (bool, bytes)
    requires |data| == SIZE
  {
    (data[0] == 1, Trimmed(data[1..]))
  }

  /** What the client writes: 1 or 0, then the ticket, cut after 64 bytes or filled up with spaces. */
  lemma PreambleBytes(compression: bool, ticket: bytes)
    ensures var r := Encode(compression, ticket);
            && |r| == 65 && r[0] == (if compression then 1 else 0)
            && (|ticket| >= 64 ==> r[1..] == ticket[..64])
            && (|ticket| < 64 ==> r[1..1 + |ticket|] == ticket && forall i :: 1 + |ticket| <= i < 65 ==> r[i] == 0x20)
  {
  }

  lemma {:induction false} TrimSpaces(s: bytes, n: nat)
    ensures Trimmed(s + Spaces(n)) == Trimmed(s)
    decreases n
  {
    if n == 0 {
      assert s + [] == s;
    } else {
      assert (s + Spaces(n))[..|s| + n - 1] == s + Spaces(n - 1);
      TrimSpaces(s, n - 1);
    }
  }

  lemma {:induction false} TrimmedFacts(s: bytes)
    ensures |Trimmed(s)| <= |s| && Trimmed(s) == s[..|Trimmed(s)|]
    ensures Trimmed(s) == s <==> s == [] || !IsBlank(s[|s| - 1])
    decreases |s|
  {
    if s != [] && IsBlank(s[|s| - 1]) {
      var init := s[..|s| - 1];
      TrimmedFacts(init);
      assert init[..|Trimmed(init)|] == s[..|Trimmed(init)|];
    }
  }

  /** The server reads back what the client wrote exactly when the ticket is at most 64 bytes long and does not end
      with a blank. The flag always comes back. */
  lemma PreambleRoundTrip(compression: bool, ticket: bytes)
    ensures Decode(Encode(compression, ticket)).0 == compression
    ensures Decode(Encode(compression, ticket)).1 == ticket
            <==> |ticket| <= 64 && (ticket == [] || !IsBlank(ticket[|ticket| - 1]))
  {
    var data := Encode(compression, ticket);
    TrimmedFacts(data[1..]);
    if |ticket| <= 64 {
      assert data[1..] == ticket + Spaces(64 - |ticket|);
      TrimSpaces(ticket, 64 - |ticket|);
      TrimmedFacts(ticket);
    }
  }
}
