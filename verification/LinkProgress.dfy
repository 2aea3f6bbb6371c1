/** Every run of the net is a run of the stack: whatever can happen to two sessions can happen over a real link. With
    LinkStack this makes the two systems go through the same states. */
module LinkProgress {
  import opened Bytes
  import opened MuxFrame
  import opened MuxNet
  import opened LinkStack
  import Ws = WebSocketSpec

  function Facing(st: Stack, left: bool): Stack {
    if left then st else SwapStack(st)
  }

  function FacingNet(n: Net, left: bool): Net {
    if left then n else Swap(n)
  }

  lemma RunMore(webSocket: bool, steps: seq<StackStep>, step: StackStep)
    ensures StackRun(webSocket, steps + [step]) == StackNext(StackRun(webSocket, steps), step)
  {
    assert (steps + [step])[..|steps|] == steps;
  }

  lemma FacingRefines(st: Stack, n: Net, left: bool)
    ensures Refines(Facing(st, left), FacingNet(n, left)) <==> Refines(st, n)
  {
    hide Carries;
  }

  /** One step of one side, seen from that side. */
  lemma StepFacing(webSocket: bool, steps: seq<StackStep>, left: bool, act: LinkAction)
    ensures Facing(StackRun(webSocket, steps + [StackStep(left, act)]), left)
            == StackLeft(Facing(StackRun(webSocket, steps), left), act)
  {
    RunMore(webSocket, steps, StackStep(left, act));
    hide StackLeft, StackRun;
  }

  /** Handing down at the far side, seen from this side. */
  lemma HandDownFacing(webSocket: bool, steps: seq<StackStep>, left: bool, key: Option<Ws.Mask>)
    ensures var st := Facing(StackRun(webSocket, steps), left);
            Facing(StackRun(webSocket, steps + [StackStep(!left, HandDown(key))]), left) == st.(ba := Sent(st.ba, key))
  {
    RunMore(webSocket, steps, StackStep(!left, HandDown(key)));
    hide StackRun, Sent;
  }

  /** The far side hands down everything it has queued. */
  lemma {:induction false} Flush(webSocket: bool, steps: seq<StackStep>, run: seq<Step>, left: bool) returns (more: seq<StackStep>)
    requires Refines(StackRun(webSocket, steps), Run(run))
    ensures Refines(StackRun(webSocket, more), Run(run))
    ensures Facing(StackRun(webSocket, more), left).ba.queue == []
    decreases |Facing(StackRun(webSocket, steps), left).ba.queue|
  {
    hide StackRun, Carries, Run, Sent, Refines;
    more := steps;
    var st, n := Facing(StackRun(webSocket, steps), left), FacingNet(Run(run), left);
    if st.ba.queue != [] {
      var key: Option<Ws.Mask> := None;
      more := steps + [StackStep(!left, HandDown(key))];
      HandDownFacing(webSocket, steps, left, key);
      FacingRefines(StackRun(webSocket, steps), Run(run), left);
      LinksSmall(run);
      HandDownRefines(st, n, key);
      FacingRefines(StackRun(webSocket, more), Run(run), left);
      more := Flush(webSocket, more, run, left);
    }
  }

  lemma HandDownRefines(st: Stack, n: Net, key: Option<Ws.Mask>)
    requires Refines(st, n) && Small(n.ba) && st.ba.queue != []
    ensures Refines(st.(ba := Sent(st.ba, key)), n)
    ensures Sent(st.ba, key).queue == st.ba.queue[1..]
  {
    SentCarries(st.ba, n.ba, key);
    QueueSmall(st.ba, n.ba);
    hide Carries, Small;
  }

  lemma QueueSmall(l: Link, fs: seq<Frame>)
    requires Carries(l, fs) && Small(fs) && l.queue != []
    ensures |Wire(l.queue[0])| < 0x8000_0000_0000_0000
  {
    var items, moving :| CarriesVia(l, fs, items, moving);
    assert l.queue[0] == fs[|moving|];
  }

  /** With nothing queued the link has bytes enough for the pending read of the session. */
  lemma ReadReady(l: Link, fs: seq<Frame>)
    requires Carries(l, fs) && l.queue == [] && fs != []
    ensures ReadExactly(l, Needs(l.reader)).Gives?
  {
    var items, moving :| CarriesVia(l, fs, items, moving);
    assert moving == fs by { assert moving + [] == moving; }
    EnoughPending(l.reader, Content(l, items), fs);
    hide ReadExactly, Pending;
    var items' := ReadTakes(l, items, Needs(l.reader));
  }

  lemma EnoughPending(r: Reader, wire: bytes, fs: seq<Frame>)
    requires Pending(r, wire, fs) && fs != []
    ensures |wire| >= Needs(r)
  {
    if r.AwaitHeader? {
      FirstFrame(wire, fs);
    }
  }

  /** One read, for a header alone or a body, or two, for a header and its body, deliver the next frame. */
  lemma OneOrTwoReads(st: Stack, n: Net)
    requires Refines(st, n) && !st.a.session.stopped && n.ba != [] && st.ba.queue == []
    ensures Refines(if Delivers(st) then ReadStepLeft(st) else ReadStepLeft(ReadStepLeft(st)), StepLeft(n, Receive))
  {
    ReadRefines(st, n);
    ReadReady(st.ba, n.ba);
    ReadDelivers(st.ba, n.ba);
    hide Carries, ReadExactly, StepLeft, Needs;
    if !Delivers(st) {
      var l := st.ba;
      var data, after := ReadExactly(l, Needs(l.reader)).data, ReadExactly(l, Needs(l.reader)).l;
      assert OnRead(l.reader, data).Continue?;
      var next := OnRead(l.reader, data).next;
      var st' := ReadStepLeft(st);
      SameQueue(l, Needs(l.reader));
      assert st' == st.(ba := after.(reader := next)) && next.AwaitBody?;
      ReadRefines(st', n);
      ReadReady(st'.ba, n.ba);
      ReadDelivers(st'.ba, n.ba);
      assert Delivers(st');
    }
  }

  lemma SameQueue(l: Link, n: nat)
    ensures ReadExactly(l, n).Gives? ==> ReadExactly(l, n).l.queue == l.queue
  {
  }

  /** Receiving: the far side flushes, and this side reads. */
  lemma Receives(webSocket: bool, steps: seq<StackStep>, run: seq<Step>, left: bool) returns (more: seq<StackStep>)
    requires Refines(StackRun(webSocket, steps), Run(run))
    ensures Refines(StackRun(webSocket, more), Next(Run(run), Step(left, Receive)))
  {
    hide StackRun, Carries, Run, Refines, ReadStepLeft, Delivers;
    var n := FacingNet(Run(run), left);
    if n.a.session.stopped || n.ba == [] {
      more := steps;
    } else {
      more := Flush(webSocket, steps, run, left);
      var st := Facing(StackRun(webSocket, more), left);
      FacingRefines(StackRun(webSocket, more), Run(run), left);
      SameSides(st, n);
      OneOrTwoReads(st, n);
      StepFacing(webSocket, more, left, ReadLink);
      var once := more + [StackStep(left, ReadLink)];
      StepFacing(webSocket, once, left, ReadLink);
      more := if Delivers(st) then once else once + [StackStep(left, ReadLink)];
      FacingRefines(StackRun(webSocket, more), Next(Run(run), Step(left, Receive)), left);
    }
  }

  lemma SameSides(st: Stack, n: Net)
    requires Refines(st, n)
    ensures st.a == n.a && st.b == n.b
  {
  }

  lemma Acts(webSocket: bool, steps: seq<StackStep>, run: seq<Step>, left: bool, act: SideAction)
    requires Refines(StackRun(webSocket, steps), Run(run)) && !act.Receive?
    ensures Refines(StackRun(webSocket, steps + [StackStep(left, Act(act))]), Next(Run(run), Step(left, act)))
  {
    hide StackRun, Carries, Run, Refines, StackLeft, StepLeft;
    var st, n := Facing(StackRun(webSocket, steps), left), FacingNet(Run(run), left);
    FacingRefines(StackRun(webSocket, steps), Run(run), left);
    ActRefines(st, n, act);
    StepFacing(webSocket, steps, left, Act(act));
    FacingRefines(StackRun(webSocket, steps + [StackStep(left, Act(act))]), Next(Run(run), Step(left, act)), left);
  }

  /** For every run of the net there is a run of the stack that ends with both sides in the same states and the same
      frames on their way. */
  lemma {:induction false} NetRefinesStack(webSocket: bool, run: seq<Step>) returns (steps: seq<StackStep>)
    ensures Refines(StackRun(webSocket, steps), Run(run))
  {
    hide StackRun, Carries, Refines, Next;
    if run == [] {
      steps := [];
      StartRefines(webSocket);
      assert StackRun(webSocket, []) == Start(webSocket) by { EmptyRun(webSocket); }
    } else {
      var before, step := run[..|run| - 1], run[|run| - 1];
      var done := NetRefinesStack(webSocket, before);
      if step.act.Receive? {
        steps := Receives(webSocket, done, before, step.left);
      } else {
        steps := done + [StackStep(step.left, Act(step.act))];
        Acts(webSocket, done, before, step.left, step.act);
      }
    }
  }

  lemma EmptyRun(webSocket: bool)
    ensures StackRun(webSocket, []) == Start(webSocket)
  {
  }
}
