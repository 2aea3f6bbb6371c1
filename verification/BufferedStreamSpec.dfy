/** Bytes that were read too early and pushed back, in front of a stream (src/common/stream.h). */
module BufferedStreamSpec {
  import opened Bytes

  /** `replay` is the buffer of `BufferedStream` from its offset on. */
  datatype Source = Source(replay: bytes, underlying: bytes)

  /** Every byte still to be read, in order. */
  function Content(s: Source): bytes {
    s.replay + s.underlying
  }

  /** The source after `n` bytes have been read: replayed ones first. */
  function After(s: Source, n: nat): Source
    requires n <= |Content(s)|
  {
    if n <= |s.replay| then s.(replay := s.replay[n..]) else Source([], s.underlying[n - |s.replay|..])
  }

  /** More bytes arrive on the underlying stream. */
  function Arrived(s: Source, data: bytes): Source {
    s.(underlying := s.underlying + data)
  }

  lemma AfterContent(s: Source, n: nat)
    requires n <= |Content(s)|
    ensures Content(After(s, n)) == Content(s)[n..]
  {
  }

  lemma ArrivedContent(s: Source, data: bytes)
    ensures Content(Arrived(s, data)) == Content(s) + data
  {
    Assoc(s.replay, s.underlying, data);
  }

  /** The first `n` bytes are read off the underlying stream and pushed back. */
  function PushedBack(s: Source, n: nat): Source {
    if s.replay != [] || n > |s.underlying| then s else Source(s.underlying[..n], s.underlying[n..])
  }

  lemma PushedBackContent(s: Source, n: nat)
    ensures Content(PushedBack(s, n)) == Content(s)
  {
  }
}
