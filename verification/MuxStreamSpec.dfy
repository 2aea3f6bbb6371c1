/** What one `MuxStream` does (src/common/mux.cpp), on flat byte sequences: scatter lists and the
    block queue with its offset are gone, but every branch of the loops is kept.
    `MuxStream.dfy` proves that the loops compute exactly these functions. */
module MuxStreamSpec {
  import opened Bytes
  import opened MuxFrame

  const INITIAL_WINDOW: nat := 128 * 1024
  const UPDATE_THRESHOLD: nat := 32 * 1024
  const MAX_PENDING: nat := 1024

  /** `async_read` asks for `all` of `size` bytes, `async_read_some` for at most `size`. */
  datatype ReadReq = ReadReq(size: nat, all: bool)

  datatype ReadResult = Got(data: bytes) | Eof | Aborted | NoBufferSpace

  /** A read request together with what its handler was called with. */
  datatype Completion = Completion(req: ReadReq, result: ReadResult)

  datatype Stream = Stream(
    id: u32,
    window: nat,              // remote_window_size_
    consumed: nat,            // consumed_since_last_update_
    unread: bytes,            // read_queue_ from read_queue_offset_ on
    pendingReads: seq<ReadReq>,
    pendingWrites: seq<bytes>,  // each scatter list flattened
    localClosed: bool,
    remoteClosed: bool)

  function NewStream(id: u32): Stream {
    Stream(id, INITIAL_WINDOW, 0, [], [], [], false, false)
  }

  /** New state, frames handed to the session, read handlers called, and whether
      `check_cleanup` removed the stream from the session's table. */
  datatype Effect = Effect(s: Stream, frames: seq<Frame>, log: seq<Completion>, removed: bool)

  predicate CleanupDue(s: Stream) {
    s.localClosed && s.remoteClosed && s.unread == []
  }

  // ---------- sending ----------

  function SendSize(s: Stream): (n: nat)
    requires s.pendingWrites != []
    ensures n <= |s.pendingWrites[0]| && n <= s.window && n <= MAX_MESSAGE_SIZE
    ensures s.pendingWrites[0] != [] && s.window > 0 ==> n > 0
  {
    Min(Min(|s.pendingWrites[0]|, s.window), MAX_MESSAGE_SIZE)
  }

  /** What remains of the write list after `n` bytes of its head have been sent. */
  function DropSent(writes: seq<bytes>, n: nat): (rest: seq<bytes>)
    requires writes != [] && n <= |writes[0]|
    ensures writes[0][..n] + Flatten(rest) == Flatten(writes)
  {
    if n == |writes[0]| then writes[1..] else [writes[0][n..]] + writes[1..]
  }

  /** The frame that carries the next piece of the head write. */
  function NextPayload(s: Stream): Frame
    requires s.pendingWrites != []
  {
    Payload(s.id, s.pendingWrites[0][..SendSize(s)])
  }

  function AfterSend(s: Stream): Stream
    requires s.pendingWrites != []
  {
    s.(pendingWrites := DropSent(s.pendingWrites, SendSize(s)), window := s.window - SendSize(s))
  }

  /** One round of the loop of `do_write`: an empty write is retired, any other sends one frame. */
  function SendOne(e: Effect): Effect
    requires e.s.pendingWrites != []
  {
    if e.s.pendingWrites[0] == [] then e.(s := e.s.(pendingWrites := e.s.pendingWrites[1..]))
    else e.(s := AfterSend(e.s), frames := e.frames + [NextPayload(e.s)])
  }

  function WriteLoop(e: Effect): (r: Effect)
    ensures r.log == e.log && r.removed == e.removed
    decreases e.s.window, |e.s.pendingWrites|
  {
    if e.s.pendingWrites == [] || e.s.window == 0 then e else WriteLoop(SendOne(e))
  }

  function DoWrite(s: Stream): Effect {
    WriteLoop(Effect(s, [], [], false))
  }

  // ---------- receiving ----------

  /** The head request cannot be completed yet. */
  predicate MustWait(s: Stream)
    requires s.pendingReads != []
  {
    && !s.remoteClosed
    && (s.unread == [] || (s.pendingReads[0].all && |s.unread| < s.pendingReads[0].size))
  }

  /** The head request takes as much unread data as fits its buffer. */
  function CopyOne(e: Effect): Effect
    requires e.s.pendingReads != []
  {
    var req := e.s.pendingReads[0];
    var n := Min(req.size, |e.s.unread|);
    e.(s := e.s.(unread := e.s.unread[n..], pendingReads := e.s.pendingReads[1..], consumed := e.s.consumed + n),
       log := e.log + [Completion(req, Got(e.s.unread[..n]))])
  }

  /** Consumed bytes are reported to the peer once they reach the threshold. */
  function Report(e: Effect): Effect {
    if e.s.consumed < UPDATE_THRESHOLD then e
    else e.(s := e.s.(consumed := 0),
            frames := e.frames + [WindowUpdate(e.s.id, Truncate32(e.s.consumed))])
  }

  /** One round of the loop of `do_read_from_buffer`: end of stream, or data. */
  function TakeOne(e: Effect): Effect
    requires e.s.pendingReads != []
  {
    if e.s.unread == [] then
      e.(s := e.s.(pendingReads := e.s.pendingReads[1..]),
         log := e.log + [Completion(e.s.pendingReads[0], Eof)])
    else
      Report(CopyOne(e))
  }

  function ReadLoop(e: Effect): (r: Effect)
    ensures r.removed == CleanupDue(r.s)
    decreases |e.s.pendingReads|
  {
    if e.s.pendingReads == [] || MustWait(e.s) then e.(removed := CleanupDue(e.s)) else ReadLoop(TakeOne(e))
  }

  function DoRead(s: Stream): Effect {
    ReadLoop(Effect(s, [], [], false))
  }

  // ---------- operations ----------

  predicate WriteAccepted(s: Stream) {
    |s.pendingWrites| < MAX_PENDING
  }

  function AsyncWrite(s: Stream, data: bytes): Effect {
    if WriteAccepted(s) then DoWrite(s.(pendingWrites := s.pendingWrites + [data])) else Effect(s, [], [], false)
  }

  function AsyncRead(s: Stream, req: ReadReq): Effect {
    if |s.pendingReads| < MAX_PENDING then DoRead(s.(pendingReads := s.pendingReads + [req]))
    else Effect(s, [], [Completion(req, NoBufferSpace)], false)
  }

  function HandleData(s: Stream, data: bytes): Effect {
    DoRead(s.(unread := s.unread + data))
  }

  function HandleWindowUpdate(s: Stream, delta: u32): Effect {
    DoWrite(s.(window := Min(s.window + delta, MAX_MESSAGE_SIZE)))
  }

  function HandleClose(s: Stream): Effect {
    DoRead(s.(remoteClosed := true))
  }

  /** Every pending read aborted, in order. */
  function Aborts(requests: seq<ReadReq>): (log: seq<Completion>)
    ensures |log| == |requests|
  {
    if requests == [] then [] else [Completion(requests[0], Aborted)] + Aborts(requests[1..])
  }

  function Close(s: Stream): Effect {
    if s.localClosed then Effect(s, [], [], false)
    else
      var s' := s.(localClosed := true, pendingReads := [], pendingWrites := [], unread := []);
      Effect(s', [Fin(s.id)], Aborts(s.pendingReads), CleanupDue(s'))
  }
}
