/** Runs in which the far service gets bytes that the user never sent: the near side closes while the window has cut
    the body of its last packet. */
module CutRun {
  import opened Bytes
  import opened MuxFrame
  import opened MuxStreamSpec
  import opened MuxPair
  import opened MuxNet
  import opened MuxLimits
  import opened BridgeSpec
  import opened EndToEnd
  import opened TunnelCut
  import Session = MuxSessionSpec
  import Stack = LinkStack
  import Progress = LinkProgress

  // ---------- the server writes packets, and the client's stream takes them ----------

  function Sending(sent: bytes): Object
    requires |sent| <= INITIAL_WINDOW
  {
    Object(NewStream(1).(window := INITIAL_WINDOW - |sent|), [], sent, sent, [])
  }

  function Holding(unread: bytes): Object {
    Object(NewStream(1).(unread := unread), [], [], [], [])
  }

  /** Everything sent has arrived and is unread. */
  function Passed(sent: bytes): Net
    requires |sent| <= INITIAL_WINDOW
  {
    Net(ClientSide(Holding(sent)), ServerSide(Sending(sent)), [], [])
  }

  lemma WholeWrite(sent: bytes, data: bytes)
    requires data != [] && |sent| + |data| <= INITIAL_WINDOW
    ensures Local(ViewOf(ServerSide(Sending(sent)), 1), Write(data))
            == Move(ViewOf(ServerSide(Sending(sent + data)), 1), [Payload(1, data)])
  {
    var s := Sending(sent).s.(pendingWrites := [data]);
    assert [] + [data] == [data];
    var e := SendOne(Effect(s, [], [], false));
    assert data[..|data|] == data && [data][1..] == [];
    assert e.s == Sending(sent + data).s && e.frames == [Payload(1, data)];
    assert WriteLoop(e) == e && DoWrite(s) == WriteLoop(SendOne(Effect(s, [], [], false)));
    assert Bodies(e.frames) == data + Bodies([]) == data;
  }

  /** The window ends inside the write. */
  function CutOff(sent: bytes, data: bytes): Object
    requires |sent| < INITIAL_WINDOW < |sent| + |data|
  {
    var w := INITIAL_WINDOW - |sent|;
    Object(NewStream(1).(window := 0, pendingWrites := [data[w..]]), [], sent + data, sent + data[..w], [])
  }

  lemma CutWrite(sent: bytes, data: bytes)
    requires |sent| < INITIAL_WINDOW < |sent| + |data|
    ensures var w := INITIAL_WINDOW - |sent|;
            Local(ViewOf(ServerSide(Sending(sent)), 1), Write(data))
            == Move(ViewOf(ServerSide(CutOff(sent, data)), 1), [Payload(1, data[..w])])
  {
    var w := INITIAL_WINDOW - |sent|;
    var s := Sending(sent).s.(pendingWrites := [data]);
    assert [] + [data] == [data];
    var e := SendOne(Effect(s, [], [], false));
    assert DropSent([data], w) == [data[w..]];
    assert e.s == CutOff(sent, data).s && e.frames == [Payload(1, data[..w])];
    assert WriteLoop(e) == e && DoWrite(s) == WriteLoop(SendOne(Effect(s, [], [], false)));
    assert Bodies(e.frames) == data[..w] + Bodies([]) == data[..w];
  }

  /** A payload reaches the client's stream. */
  lemma ClientGets(n: Net, o: Object, data: bytes)
    requires 0 < |data| <= INITIAL_WINDOW && n.a == ClientSide(o) && n.ba == [Payload(1, data)] && o.inbox == []
    ensures Next(n, Step(true, Receive)) == n.(a := ClientSide(o.(inbox := [DataTask(data)])), ba := [])
  {
    var out := Session.HandleFrame(n.a.session, Payload(1, data));
    assert Session.FrameTasks(Payload(1, data)) == [DataTask(data)];
    assert [] + [DataTask(data)] == [DataTask(data)] && n.ab + [] == n.ab;
    assert ApplyOutcome(n.a, out).objects == map[1 := o.(inbox := [DataTask(data)])];
  }

  lemma ClientTakes(n: Net, unread: bytes, data: bytes)
    requires n.a == ClientSide(Holding(unread).(inbox := [DataTask(data)])) && data != []
    ensures Next(n, Step(true, OnStream(1, RunTask))) == n.(a := ClientSide(Holding(unread + data)))
  {
    assert [] + Bodies([]) == [] && n.ab + [] == n.ab;
    ClientActs(n, RunTask, Holding(unread + data), []);
  }

  /** One write, received and taken. */
  function PassSteps(data: bytes): seq<Step> {
    [Step(false, OnStream(1, Write(data)))] + [Step(true, Receive)] + [Step(true, OnStream(1, RunTask))]
  }

  lemma RunThree(run: seq<Step>, s1: Step, s2: Step, s3: Step)
    ensures Run(run + ([s1] + [s2] + [s3])) == Next(Next(Next(Run(run), s1), s2), s3)
  {
    hide Next;
    RunSnoc(run, s1);
    RunSnoc(run + [s1], s2);
    RunSnoc(run + [s1] + [s2], s3);
    assert run + ([s1] + [s2] + [s3]) == run + [s1] + [s2] + [s3];
  }

  lemma Passes(run: seq<Step>, sent: bytes, data: bytes)
    requires data != [] && |sent| + |data| <= INITIAL_WINDOW && Run(run) == Passed(sent)
    ensures Run(run + PassSteps(data)) == Passed(sent + data)
  {
    WholeWrite(sent, data);
    var n := Passed(sent);
    ServerActs(n, Write(data), Sending(sent + data), [Payload(1, data)]);
    assert [] + [Payload(1, data)] == [Payload(1, data)];
    var n1 := n.(b := ServerSide(Sending(sent + data)), ba := [Payload(1, data)]);
    ClientGets(n1, Holding(sent), data);
    var n2 := n1.(a := ClientSide(Holding(sent).(inbox := [DataTask(data)])), ba := []);
    ClientTakes(n2, sent, data);
    hide Next, Run, ClientSide, ServerSide, Sending;
    RunThree(run, Step(false, OnStream(1, Write(data))), Step(true, Receive), Step(true, OnStream(1, RunTask)));
  }

  // ---------- the cut ----------

  function Gone(written: bytes, sent: bytes): Object {
    Object(NewStream(1).(window := 0, localClosed := true), [], written, sent, [])
  }

  function Ended(unread: bytes): Object {
    Object(NewStream(1).(unread := unread, remoteClosed := true), [], [], [], [])
  }

  lemma ServerCloses(n: Net, sent: bytes, data: bytes)
    requires |sent| < INITIAL_WINDOW < |sent| + |data| && n.b == ServerSide(CutOff(sent, data))
    ensures Next(n, Step(false, OnStream(1, Close)))
            == n.(b := ServerSide(Gone(sent + data, sent + data[..INITIAL_WINDOW - |sent|])), ba := n.ba + [Fin(1)])
  {
    assert Bodies([Fin(1)]) == [] + Bodies([]);
    ServerActs(n, Close, Gone(sent + data, sent + data[..INITIAL_WINDOW - |sent|]), [Fin(1)]);
  }

  lemma ClientGetsFin(n: Net, o: Object)
    requires n.a == ClientSide(o) && n.ba == [Fin(1)] && o.inbox == []
    ensures Next(n, Step(true, Receive)) == n.(a := ClientSide(o.(inbox := [CloseTask])), ba := [])
  {
    var out := Session.HandleFrame(n.a.session, Fin(1));
    assert Session.FrameTasks(Fin(1)) == [CloseTask];
    assert [] + [CloseTask] == [CloseTask] && n.ab + [] == n.ab;
    assert ApplyOutcome(n.a, out).objects == map[1 := o.(inbox := [CloseTask])];
  }

  lemma ClientSeesEnd(n: Net, unread: bytes)
    requires n.a == ClientSide(Holding(unread).(inbox := [CloseTask]))
    ensures Next(n, Step(true, OnStream(1, RunTask))) == n.(a := ClientSide(Ended(unread)))
  {
    assert [] + Bodies([]) == [] && n.ab + [] == n.ab;
    ClientActs(n, RunTask, Ended(unread), []);
  }

  /** The state behind the cut: `arrived` is all that will ever arrive of `written`. */
  function AfterCut(written: bytes, arrived: bytes): Net {
    Net(ClientSide(Ended(arrived)), ServerSide(Gone(written, arrived)), [], [])
  }

  function CloseSteps(): seq<Step> {
    [Step(false, OnStream(1, Close))] + [Step(true, Receive)] + [Step(true, OnStream(1, RunTask))]
  }

  lemma CutPasses(run: seq<Step>, sent: bytes, data: bytes)
    requires |sent| < INITIAL_WINDOW < |sent| + |data| && Run(run) == Passed(sent)
    ensures var arrived := sent + data[..INITIAL_WINDOW - |sent|];
            Run(run + PassSteps(data)) == Net(ClientSide(Holding(arrived)), ServerSide(CutOff(sent, data)), [], [])
  {
    var part := data[..INITIAL_WINDOW - |sent|];
    CutWrite(sent, data);
    var n := Passed(sent);
    ServerActs(n, Write(data), CutOff(sent, data), [Payload(1, part)]);
    assert [] + [Payload(1, part)] == [Payload(1, part)];
    var n1 := n.(b := ServerSide(CutOff(sent, data)), ba := [Payload(1, part)]);
    ClientGets(n1, Holding(sent), part);
    var n2 := n1.(a := ClientSide(Holding(sent).(inbox := [DataTask(part)])), ba := []);
    ClientTakes(n2, sent, part);
    hide Next, Run, ClientSide, ServerSide, Sending, CutOff;
    RunThree(run, Step(false, OnStream(1, Write(data))), Step(true, Receive), Step(true, OnStream(1, RunTask)));
  }

  lemma Cuts(run: seq<Step>, sent: bytes, data: bytes)
    requires |sent| < INITIAL_WINDOW < |sent| + |data| && Run(run) == Passed(sent)
    ensures Run(run + PassSteps(data) + CloseSteps()) == AfterCut(sent + data, sent + data[..INITIAL_WINDOW - |sent|])
  {
    var arrived := sent + data[..INITIAL_WINDOW - |sent|];
    CutPasses(run, sent, data);
    var n := Net(ClientSide(Holding(arrived)), ServerSide(CutOff(sent, data)), [], []);
    ServerCloses(n, sent, data);
    assert [] + [Fin(1)] == [Fin(1)];
    var n1 := n.(b := ServerSide(Gone(sent + data, arrived)), ba := [Fin(1)]);
    ClientGetsFin(n1, Holding(arrived));
    var n2 := n1.(a := ClientSide(Holding(arrived).(inbox := [CloseTask])), ba := []);
    ClientSeesEnd(n2, arrived);
    hide Next, Run, ClientSide, ServerSide, CutOff;
    RunThree(run + PassSteps(data), Step(false, OnStream(1, Close)), Step(true, Receive), Step(true, OnStream(1, RunTask)));
  }

  // ---------- the far bridge reads ----------

  /** The client's stream has seen the end, holds `unread`, and its reads so far are `log`. */
  ghost predicate Reading(n: Net, unread: bytes, log: seq<Completion>) {
    exists consumed: nat :: consumed < UPDATE_THRESHOLD && n.a == ClientSide(Bridged(unread, consumed, log))
  }

  function Bridged(unread: bytes, consumed: nat, log: seq<Completion>): Object {
    Object(Ended(unread).s.(consumed := consumed), [], [], [], log)
  }

  /** An exact read on a closed stream takes what it can get. */
  lemma ReadClosed(unread: bytes, consumed: nat, n: nat)
    requires unread != [] && n > 0 && consumed < UPDATE_THRESHOLD
    ensures var s := Ended(unread).s.(consumed := consumed);
            var e := AsyncRead(s, ReadReq(n, true));
            var m := Min(n, |unread|);
            && e.log == [Completion(ReadReq(n, true), Got(unread[..m]))] && !e.removed && Bodies(e.frames) == []
            && e.s == s.(unread := unread[m..], consumed := e.s.consumed) && e.s.consumed < UPDATE_THRESHOLD
  {
    var s := Ended(unread).s.(consumed := consumed);
    var req := ReadReq(n, true);
    assert [] + [req] == [req];
    var e := Effect(s.(pendingReads := [req]), [], [], false);
    var e1 := TakeOne(e);
    assert [req][1..] == [];
    assert ReadLoop(e) == ReadLoop(e1);
    assert e1.s.pendingReads == [];
    if e1.frames != [] {
      assert Bodies(e1.frames) == [] + Bodies([]);
    }
  }

  lemma ClientReads(n: Net, unread: bytes, log: seq<Completion>, size: nat)
    requires Reading(n, unread, log) && unread != [] && size > 0
    ensures var m := Min(size, |unread|);
            var n' := Next(n, Step(true, OnStream(1, Read(ReadReq(size, true)))));
            Reading(n', unread[m..], log + [Completion(ReadReq(size, true), Got(unread[..m]))]) && n'.b == n.b
  {
    var consumed: nat :| consumed < UPDATE_THRESHOLD && n.a == ClientSide(Bridged(unread, consumed, log));
    ReadClosed(unread, consumed, size);
    var o := Bridged(unread, consumed, log);
    var e := AsyncRead(o.s, ReadReq(size, true));
    hide AsyncRead;
    assert [] + Bodies(e.frames) == [];
    ClientActs(n, Read(ReadReq(size, true)), Bridged(e.s.unread, e.s.consumed, log + e.log), e.frames);
  }

  // ---------- whole packets, as the far bridge reads them ----------

  function HeaderRead(codec: Codec, chunk: bytes): Completion
    requires |chunk| <= CHUNK_SIZE
  {
    Completion(ReadReq(4, true), Got(HeaderBytes(codec, chunk)))
  }

  function BodyRead(codec: Codec, chunk: bytes): Completion {
    Completion(ReadReq(|Body(codec, chunk)|, true), Got(Body(codec, chunk)))
  }

  function WholeReads(codec: Codec, chunks: seq<bytes>): seq<Completion>
    requires Chunks(chunks)
  {
    if chunks == [] then []
    else
      var last := chunks[|chunks| - 1];
      WholeReads(codec, chunks[..|chunks| - 1]) + [HeaderRead(codec, last)] + [BodyRead(codec, last)]
  }

  /** Chunks as the near bridge makes them when nothing shrinks. */
  ghost predicate Plain(codec: Codec, chunks: seq<bytes>) {
    forall i :: 0 <= i < |chunks| ==> 0 < |chunks[i]| <= CHUNK_SIZE && !Shrinks(codec, chunks[i])
  }

  lemma ReadSnoc(codec: Codec, pool: Pool, log: seq<Completion>, c: Completion)
    requires Obeys(codec, pool, log) && !After(codec, pool, log).phase.Halted?
    requires c.req == Request(After(codec, pool, log).phase)
    ensures Obeys(codec, pool, log + [c])
    ensures After(codec, pool, log + [c]) == OnResult(codec, pool(|log|), After(codec, pool, log), c.result)
  {
    assert (log + [c])[..|log|] == log;
  }

  /** The bridge at a packet's start reads the header of `chunk`. */
  lemma HeaderStep(codec: Codec, pool: Pool, log: seq<Completion>, chunk: bytes)
    requires Faithful(codec) && |chunk| <= CHUNK_SIZE && Obeys(codec, pool, log) && After(codec, pool, log).phase == Phase.AwaitHeader
    ensures var log' := log + [HeaderRead(codec, chunk)];
            && Obeys(codec, pool, log') && After(codec, pool, log').out == After(codec, pool, log).out
            && After(codec, pool, log').phase == Phase.AwaitBody(|Body(codec, chunk)|, Shrinks(codec, chunk))
  {
    ReadSnoc(codec, pool, log, HeaderRead(codec, chunk));
    PacketRoundTrip(codec, After(codec, pool, log), chunk, pool(|log|), pool(|log| + 1));
    hide After, Obeys, OnResult;
  }

  lemma PacketStep(codec: Codec, pool: Pool, log: seq<Completion>, chunk: bytes)
    requires Faithful(codec) && |chunk| <= CHUNK_SIZE && Obeys(codec, pool, log) && After(codec, pool, log).phase == Phase.AwaitHeader
    ensures var log' := log + [HeaderRead(codec, chunk)] + [BodyRead(codec, chunk)];
            && Obeys(codec, pool, log') && After(codec, pool, log').phase == Phase.AwaitHeader
            && After(codec, pool, log').out == After(codec, pool, log).out + chunk
  {
    var h := log + [HeaderRead(codec, chunk)];
    HeaderStep(codec, pool, log, chunk);
    ReadSnoc(codec, pool, log, HeaderRead(codec, chunk));
    ReadSnoc(codec, pool, h, BodyRead(codec, chunk));
    PacketRoundTrip(codec, After(codec, pool, log), chunk, pool(|log|), pool(|log| + 1));
    hide After, Obeys, OnResult;
  }

  lemma {:induction false} WholeReadsObey(codec: Codec, pool: Pool, chunks: seq<bytes>)
    requires Faithful(codec) && Chunks(chunks)
    ensures var log := WholeReads(codec, chunks);
            && Obeys(codec, pool, log) && After(codec, pool, log).phase == Phase.AwaitHeader
            && After(codec, pool, log).out == Flatten(chunks) && |log| == 2 * |chunks|
  {
    hide Faithful, HeaderRead, BodyRead;
    if chunks != [] {
      var n := |chunks| - 1;
      hide After, Obeys;
      WholeReadsObey(codec, pool, chunks[..n]);
      PacketStep(codec, pool, WholeReads(codec, chunks[..n]), chunks[n]);
      assert chunks == chunks[..n] + [chunks[n]];
      FlattenSnoc(chunks[..n], chunks[n]);
    }
  }

  // ---------- the run ----------

  lemma {:induction false} SendAll(codec: Codec, chunks: seq<bytes>) returns (run: seq<Step>)
    requires Chunks(chunks) && |Packets(codec, chunks)| <= INITIAL_WINDOW
    ensures Run(run) == Passed(Packets(codec, chunks))
    decreases |chunks|
  {
    hide Run, Passed, Packets, Packet;
    if chunks == [] {
      run := OpeningRun();
      OpenedRun();
      NothingPassed(codec);
    } else {
      var k := |chunks| - 1;
      PacketsSnoc(codec, chunks, k);
      assert chunks[..k + 1] == chunks;
      PacketLength(codec, chunks[k]);
      run := SendAll(codec, chunks[..k]);
      Passes(run, Packets(codec, chunks[..k]), Packet(codec, chunks[k]));
      run := run + PassSteps(Packet(codec, chunks[k]));
    }
  }

  lemma NothingPassed(codec: Codec)
    ensures Packets(codec, []) == [] && Idle() == Passed([])
  {
  }

  /** The bytes of a packet, in front of what follows. */
  lemma PacketAhead(codec: Codec, chunks: seq<bytes>, k: nat, rest: bytes)
    requires Chunks(chunks) && k < |chunks|
    ensures Packets(codec, chunks[k..]) + rest
            == HeaderBytes(codec, chunks[k]) + (Body(codec, chunks[k]) + (Packets(codec, chunks[k + 1..]) + rest))
  {
    assert chunks[k..][0] == chunks[k] && chunks[k..][1..] == chunks[k + 1..];
    var h, b, t := HeaderBytes(codec, chunks[k]), Body(codec, chunks[k]), Packets(codec, chunks[k + 1..]);
    assert Packets(codec, chunks[k..]) == Packet(codec, chunks[k]) + t;
    assert Packet(codec, chunks[k]) == h + b;
    hide Packets, Packet;
    Assoc(h, b, t);
    Assoc(h, b + t, rest);
    Assoc(b, t, rest);
  }

  lemma TakeFront(a: bytes, b: bytes)
    ensures (a + b)[..|a|] == a && (a + b)[|a|..] == b
  {
  }

  lemma HeaderSize(codec: Codec, chunk: bytes)
    requires |chunk| <= CHUNK_SIZE
    ensures |HeaderBytes(codec, chunk)| == 4
  {
  }

  function ReadStep4(): Step {
    Step(true, OnStream(1, Read(ReadReq(4, true))))
  }

  function ReadStepOf(size: nat): Step {
    Step(true, OnStream(1, Read(ReadReq(size, true))))
  }

  /** The far bridge reads the header of chunk `k`. */
  lemma HeaderArrives(run: seq<Step>, codec: Codec, chunks: seq<bytes>, k: nat, rest: bytes, log: seq<Completion>)
    requires Chunks(chunks) && k < |chunks| && rest != []
    requires Reading(Run(run), Packets(codec, chunks[k..]) + rest, log)
    ensures var run' := run + [ReadStep4()];
            && Reading(Run(run'), Body(codec, chunks[k]) + (Packets(codec, chunks[k + 1..]) + rest),
                       log + [HeaderRead(codec, chunks[k])])
            && Run(run').b == Run(run).b
  {
    var h, tail := HeaderBytes(codec, chunks[k]), Body(codec, chunks[k]) + (Packets(codec, chunks[k + 1..]) + rest);
    PacketAhead(codec, chunks, k, rest);
    HeaderSize(codec, chunks[k]);
    TakeFront(h, tail);
    RunSnoc(run, ReadStep4());
    hide Reading, Run, Next, HeaderBytes, Packets;
    ClientReads(Run(run), h + tail, log, 4);
  }

  lemma BodyArrives(run: seq<Step>, codec: Codec, chunk: bytes, tail: bytes, log: seq<Completion>)
    requires Body(codec, chunk) != [] && Reading(Run(run), Body(codec, chunk) + tail, log)
    ensures var run' := run + [ReadStepOf(|Body(codec, chunk)|)];
            Reading(Run(run'), tail, log + [BodyRead(codec, chunk)]) && Run(run').b == Run(run).b
  {
    TakeFront(Body(codec, chunk), tail);
    RunSnoc(run, ReadStepOf(|Body(codec, chunk)|));
    hide Reading, Run, Next;
    ClientReads(Run(run), Body(codec, chunk) + tail, log, |Body(codec, chunk)|);
  }

  /** The far bridge reads the first `k` packets. */
  lemma {:induction false} FarReads(run: seq<Step>, codec: Codec, chunks: seq<bytes>, k: nat, rest: bytes)
    returns (more: seq<Step>)
    requires Plain(codec, chunks) && Chunks(chunks) && k <= |chunks| && rest != []
    requires Reading(Run(run), Packets(codec, chunks) + rest, [])
    ensures Reading(Run(more), Packets(codec, chunks[k..]) + rest, WholeReads(codec, chunks[..k]))
    ensures Run(more).b == Run(run).b
    decreases k
  {
    hide Reading, Run, Packets, HeaderRead, BodyRead;
    if k == 0 {
      more := run;
      assert chunks[0..] == chunks && chunks[..0] == [];
    } else {
      more := FarReads(run, codec, chunks, k - 1, rest);
      assert chunks[..k][..k - 1] == chunks[..k - 1] && chunks[..k][k - 1] == chunks[k - 1];
      var log := WholeReads(codec, chunks[..k - 1]);
      HeaderArrives(more, codec, chunks, k - 1, rest, log);
      more := more + [ReadStep4()];
      var tail := Packets(codec, chunks[k..]) + rest;
      BodyArrives(more, codec, chunks[k - 1], tail, log + [HeaderRead(codec, chunks[k - 1])]);
      more := more + [ReadStepOf(|Body(codec, chunks[k - 1])|)];
    }
  }

  /** The reads of the far bridge: whole packets for `front`, then a header, then a short body. */
  function CutReads(codec: Codec, front: seq<bytes>, last: bytes, part: bytes): seq<Completion>
    requires Chunks(front) && |last| <= CHUNK_SIZE
  {
    WholeReads(codec, front) + [HeaderRead(codec, last)] + [Completion(ReadReq(|Body(codec, last)|, true), Got(part))]
  }

  /** Those reads are the bridge's, the last of them cuts a body, and what it writes out is a prefix exactly if the pool
      buffer held the missing bytes. */
  lemma CutReadsCut(codec: Codec, pool: Pool, front: seq<bytes>, last: bytes, part: bytes)
    requires Faithful(codec) && Chunks(front) && |last| <= CHUNK_SIZE && !Shrinks(codec, last)
    requires part <= last && |part| < |last|
    ensures var log, i := CutReads(codec, front, last, part), 2 * |front| + 1;
            && Obeys(codec, pool, log) && CutAt(codec, pool, log, i)
            && (After(codec, pool, log).out <= Flatten(front + [last]) <==> HeldTheRest(pool, i, last, |part|))
  {
    var upTo := WholeReads(codec, front) + [HeaderRead(codec, last)];
    assert Body(codec, last) == last;
    WholeReadsObey(codec, pool, front);
    HeaderStep(codec, pool, WholeReads(codec, front), last);
    hide After, Obeys, OnResult, WholeReads, Flatten, HeaderRead, Body, Shrinks, Faithful, HeldTheRest;
    LastReadCuts(codec, pool, upTo, front, last, part);
  }

  lemma LastReadCuts(codec: Codec, pool: Pool, upTo: seq<Completion>, front: seq<bytes>, last: bytes, part: bytes)
    requires Chunks(front) && |last| <= CHUNK_SIZE && part <= last && |part| < |last|
    requires Obeys(codec, pool, upTo) && After(codec, pool, upTo).phase == Phase.AwaitBody(|last|, false)
    requires After(codec, pool, upTo).out == Flatten(front)
    ensures var log := upTo + [Completion(ReadReq(|last|, true), Got(part))];
            && Obeys(codec, pool, log) && CutAt(codec, pool, log, |upTo|)
            && (After(codec, pool, log).out <= Flatten(front + [last]) <==> HeldTheRest(pool, |upTo|, last, |part|))
  {
    hide After, Obeys, OnResult, Flatten;
    var c := Completion(ReadReq(|last|, true), Got(part));
    ReadSnoc(codec, pool, upTo, c);
    assert (upTo + [c])[..|upTo|] == upTo && (upTo + [c])[|upTo|] == c;
    var chunks := front + [last];
    assert chunks[..|front|] == front && chunks[|front|] == last && Chunks(chunks);
    CutOutcome(codec, pool(|upTo|), After(codec, pool, upTo), chunks, |front|, part);
  }

  /** What arrives of a packet of which the window lets `w` bytes through. */
  lemma PartOfPacket(codec: Codec, last: bytes, w: nat)
    requires |last| <= CHUNK_SIZE && !Shrinks(codec, last) && 4 < w < |Packet(codec, last)|
    ensures |Packet(codec, last)| == 4 + |last|
    ensures Packet(codec, last)[..w] == HeaderBytes(codec, last) + last[..w - 4] && |HeaderBytes(codec, last)| == 4
  {
    HeaderSize(codec, last);
    assert Packet(codec, last) == HeaderBytes(codec, last) + last;
    hide HeaderBytes, Packet;
    assert (HeaderBytes(codec, last) + last)[..w] == HeaderBytes(codec, last) + last[..w - 4];
  }

  /** The far bridge reads everything that has arrived. */
  lemma ReadToCut(run: seq<Step>, codec: Codec, front: seq<bytes>, last: bytes, w: nat) returns (more: seq<Step>)
    requires Plain(codec, front) && Chunks(front) && 0 < |last| <= CHUNK_SIZE && !Shrinks(codec, last)
    requires 4 < w < |Packet(codec, last)|
    requires Reading(Run(run), Packets(codec, front) + Packet(codec, last)[..w], [])
    ensures w - 4 < |last| && Reading(Run(more), [], CutReads(codec, front, last, last[..w - 4]))
    ensures Run(more).b == Run(run).b
  {
    PartOfPacket(codec, last, w);
    hide Reading, Run, Next, Packets, Packet, HeaderBytes, WholeReads;
    var rest, part := Packet(codec, last)[..w], last[..w - 4];
    more := FarReads(run, codec, front, |front|, rest);
    assert front[|front|..] == [] && front[..|front|] == front;
    NoPackets(codec, rest);
    TakeFront(HeaderBytes(codec, last), part);
    var whole := WholeReads(codec, front);
    RunSnoc(more, ReadStep4());
    ClientReads(Run(more), rest, whole, 4);
    more := more + [ReadStep4()];
    RunSnoc(more, ReadStepOf(|last|));
    ClientReads(Run(more), part, whole + [HeaderRead(codec, last)], |last|);
    more := more + [ReadStepOf(|last|)];
    assert part[..|part|] == part && part[|part|..] == [];
  }

  lemma NoPackets(codec: Codec, rest: bytes)
    ensures Packets(codec, []) + rest == rest
  {
    assert [] + rest == rest;
  }

  lemma StartReading(run: seq<Step>, written: bytes, arrived: bytes)
    requires Run(run) == AfterCut(written, arrived)
    ensures Reading(Run(run), arrived, [])
  {
    hide Run;
    assert Run(run).a == ClientSide(Bridged(arrived, 0, []));
  }

  /** The run, on the stack, is a tunnel. */
  lemma CutTunnel(webSocket: bool, steps: seq<Stack.StackStep>, run: seq<Step>, net: seq<Step>, codec: Codec, pool: Pool,
                  chunks: seq<bytes>, arrived: bytes, log: seq<Completion>)
    requires Chunks(chunks) && Obeys(codec, pool, log)
    requires Run(run) == AfterCut(Packets(codec, chunks), arrived) && Run(net).b == Run(run).b && Reading(Run(net), [], log)
    requires Stack.Refines(Stack.StackRun(webSocket, steps), Run(net))
    ensures var st := Stack.StackRun(webSocket, steps);
            Tunnel(Writer(st, 1, false), EndToEnd.Reader(st, 1, false), codec, pool, chunks, [], [], log)
  {
    hide Run, Stack.StackRun, Packets, Obeys, Stack.Carries;
    assert [] + Packets(codec, chunks) == Packets(codec, chunks) && [] + log == log;
  }

  lemma FrontAndLast(codec: Codec, front: seq<bytes>, last: bytes)
    requires Plain(codec, front + [last]) && Chunks(front + [last])
    ensures Chunks(front) && Plain(codec, front) && 0 < |last| <= CHUNK_SIZE && !Shrinks(codec, last)
    ensures Packets(codec, front + [last]) == Packets(codec, front) + Packet(codec, last)
    ensures |Packet(codec, last)| == 4 + |last|
  {
    var chunks, k := front + [last], |front|;
    assert forall j :: 0 <= j < k ==> front[j] == chunks[j];
    assert chunks[k] == last && chunks[..k] == front && chunks[..k + 1] == chunks;
    PacketsSnoc(codec, chunks, k);
    PacketLength(codec, last);
  }

  /** The run up to the cut, and on to where the far bridge has read everything. */
  lemma RunToCut(codec: Codec, front: seq<bytes>, last: bytes) returns (run: seq<Step>, net: seq<Step>)
    requires Plain(codec, front) && Chunks(front) && 0 < |last| <= CHUNK_SIZE && !Shrinks(codec, last)
    requires |Packet(codec, last)| == 4 + |last|
    requires |Packets(codec, front)| + 4 < INITIAL_WINDOW < |Packets(codec, front)| + |Packet(codec, last)|
    ensures var sent, w := Packets(codec, front), INITIAL_WINDOW - |Packets(codec, front)|;
            && Run(run) == AfterCut(sent + Packet(codec, last), sent + Packet(codec, last)[..w])
            && Reading(Run(net), [], CutReads(codec, front, last, last[..w - 4])) && Run(net).b == Run(run).b
  {
    hide Run, Packets, Packet, Reading, AfterCut, Plain, CutReads, Passed, CloseSteps, PassSteps;
    var sent, data := Packets(codec, front), Packet(codec, last);
    var w := INITIAL_WINDOW - |sent|;
    run := SendAll(codec, front);
    Cuts(run, sent, data);
    run := run + PassSteps(data) + CloseSteps();
    StartReading(run, sent + data, sent + data[..w]);
    net := ReadToCut(run, codec, front, last, w);
  }

  /** For every list of chunks that are sent uncompressed, and whose packets use up the first window inside the body of
      the last, a run over a plain or a WebSocket link leads there: the near side, which is the server, closes, and the
      far bridge reads what arrived. The far service then has a prefix of what the user sent only if a pool buffer
      happened to hold the bytes that are missing. */
  lemma CutReachable(webSocket: bool, codec: Codec, pool: Pool, front: seq<bytes>, last: bytes)
    returns (steps: seq<Stack.StackStep>, log: seq<Completion>)
    requires Faithful(codec) && Plain(codec, front + [last]) && Chunks(front) && Chunks(front + [last])
    requires |Packets(codec, front)| + 4 < INITIAL_WINDOW < |Packets(codec, front + [last])|
    ensures var st := Stack.StackRun(webSocket, steps);
            && Tunnel(Writer(st, 1, false), EndToEnd.Reader(st, 1, false), codec, pool, front + [last], [], [], log)
            && CutAt(codec, pool, log, 2 * |front| + 1)
            && (After(codec, pool, log).out <= Flatten(front + [last])
                <==> HeldTheRest(pool, 2 * |front| + 1, last, INITIAL_WINDOW - |Packets(codec, front)| - 4))
  {
    FrontAndLast(codec, front, last);
    hide Run, Stack.StackRun, Packets, Packet, Reading, AfterCut, Faithful, Plain, WholeReads, Chunks, After, Obeys, Tunnel,
      HeldTheRest, CutAt, CutReads, Stack.Refines, Flatten;
    var run, net := RunToCut(codec, front, last);
    var part := last[..INITIAL_WINDOW - |Packets(codec, front)| - 4];
    log := CutReads(codec, front, last, part);
    steps := Progress.NetRefinesStack(webSocket, net);
    CutReadsCut(codec, pool, front, last, part);
    CutTunnel(webSocket, steps, run, net, codec, pool, front + [last],
              Packets(codec, front) + Packet(codec, last)[..INITIAL_WINDOW - |Packets(codec, front)|], log);
  }

  // ---------- one such input ----------

  function FailingCodec(): Codec {
    Codec(x => None, x => None, x => None)
  }

  function Zeros(n: nat): (s: bytes)
    ensures |s| == n && forall i :: 0 <= i < n ==> s[i] == 0
  {
    seq(n, _ => 0)
  }

  lemma AddPacket(codec: Codec, chunks: seq<bytes>, last: bytes)
    requires Chunks(chunks) && |last| <= CHUNK_SIZE && !Shrinks(codec, last)
    ensures Chunks(chunks + [last])
    ensures |Packets(codec, chunks + [last])| == |Packets(codec, chunks)| + 4 + |last|
  {
    var all := chunks + [last];
    assert all[..|chunks|] == chunks && all[|chunks|] == last && all[..|chunks| + 1] == all;
    assert Chunks(all);
    PacketsSnoc(codec, all, |chunks|);
    PacketLength(codec, last);
  }

  function Ones(): Pool {
    i => j => 1
  }

  /** Three chunks of zeros, and a fourth. */
  function ZeroChunks(): seq<bytes> {
    [Zeros(CHUNK_SIZE), Zeros(CHUNK_SIZE), Zeros(CHUNK_SIZE)]
  }

  lemma ZeroPackets()
    ensures var codec, zeros, front := FailingCodec(), Zeros(CHUNK_SIZE), ZeroChunks();
            && Faithful(codec) && Plain(codec, front + [zeros]) && Chunks(front) && Chunks(front + [zeros])
            && |Packets(codec, front)| == 98316 && |Packets(codec, front + [zeros])| == 131088
  {
    var codec, zeros := FailingCodec(), Zeros(CHUNK_SIZE);
    hide Packets, Zeros;
    assert [] + [zeros] == [zeros] && [zeros] + [zeros] == [zeros, zeros] && [zeros, zeros] + [zeros] == ZeroChunks();
    AddPacket(codec, [], zeros);
    AddPacket(codec, [zeros], zeros);
    AddPacket(codec, [zeros, zeros], zeros);
    AddPacket(codec, ZeroChunks(), zeros);
    assert |Packets(codec, [])| == 0 by { NoPackets(codec, []); }
  }

  /** Four chunks of 32768 zeros, a compressor that fails, pool buffers full of ones, and a close: the far service is
      given ones, which the user never sent. */
  lemma CutInstance(webSocket: bool) returns (steps: seq<Stack.StackStep>, log: seq<Completion>)
    ensures var chunks := ZeroChunks() + [Zeros(CHUNK_SIZE)];
            var st := Stack.StackRun(webSocket, steps);
            && Tunnel(Writer(st, 1, false), EndToEnd.Reader(st, 1, false), FailingCodec(), Ones(), chunks, [], [], log)
            && !(After(FailingCodec(), Ones(), log).out <= Flatten(chunks))
  {
    hide Stack.StackRun, Packets, After, Tunnel, Plain, Zeros, Flatten, ZeroChunks, FailingCodec, Faithful, Chunks;
    ZeroPackets();
    SevenIsLast();
    steps, log := CutReachable(webSocket, FailingCodec(), Ones(), ZeroChunks(), Zeros(CHUNK_SIZE));
    OnesAreWrong(7);
  }

  lemma SevenIsLast()
    ensures 2 * |ZeroChunks()| + 1 == 7
  {
  }

  lemma OnesAreWrong(i: nat)
    ensures !HeldTheRest(Ones(), i, Zeros(CHUNK_SIZE), INITIAL_WINDOW - 98316 - 4)
  {
    assert Ones()(i)(CHUNK_SIZE - 1) == 1 && Zeros(CHUNK_SIZE)[CHUNK_SIZE - 1] == 0;
  }
}
