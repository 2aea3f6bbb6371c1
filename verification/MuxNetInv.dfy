/** Every reachable state of two sessions satisfies the invariant. */
module MuxNetInv {
  import opened Bytes
  import opened MuxFrame
  import opened MuxPair
  import opened MuxPairProofs
  import opened MuxNet
  import Session = MuxSessionSpec

  lemma ConformingAppend(fs: seq<Frame>, out: seq<Frame>)
    requires AllConforming(fs) && AllConforming(out)
    ensures AllConforming(fs + out)
  {
  }

  lemma StreamFramesConform(fs: seq<Frame>, id: u32)
    requires ForStream(fs, id)
    ensures AllConforming(fs)
  {
  }

  lemma OnStreamKeepsInv(n: Net, id: u32, a: Action)
    requires NetInv(n)
    ensures NetInv(StepLeft(n, OnStream(id, a)))
  {
    hide Inv, Local, Conforming;
    if id in n.a.objects && !a.Open? && !a.Stop? {
      var n' := StepLeft(n, OnStream(id, a));
      forall j: u32 ensures Inv(Project(n', j), j, OpenedBy(n.a.isServer, j)) {
        OnStreamProjects(n, id, a, j);
        assert Inv(Project(n, j), j, OpenedBy(n.a.isServer, j));
        if j == id {
          LocalKeepsInv(Project(n, id), a, id, OpenedBy(n.a.isServer, id));
        }
      }
      OnStreamProjects(n, id, a, id);
      StreamFramesConform(Local(ViewOf(n.a, id), a).out, id);
      ConformingAppend(n.ab, Local(ViewOf(n.a, id), a).out);
    }
  }

  lemma OpenIdsOk(side: Side)
    requires IdsOk(side) && side.opens < MAX_OPENS
    ensures IdsOk(ApplyOutcome(side, Session.OpenStream(side.session)).(opens := side.opens + 1))
  {
    IdRoundTrip(side.isServer, side.opens);
  }

  lemma OpenKeepsPair(n: Net, j: u32)
    requires NetInv(n) && n.a.opens < MAX_OPENS
    ensures Inv(Project(StepLeft(n, OpenStream), j), j, OpenedBy(n.a.isServer, j))
  {
    hide Inv, Project, OpenedBy, StepLeft, LocalLeft;
    var id := n.a.session.next;
    OpenProjects(n, j);
    assert Inv(Project(n, j), j, OpenedBy(n.a.isServer, j));
    if j == id {
      LocalKeepsInv(Project(n, id), Open, id, true);
    }
  }

  lemma OpenKeeps(n: Net)
    requires NetInv(n)
    ensures NetInv(StepLeft(n, OpenStream))
  {
    if n.a.opens < MAX_OPENS {
      hide Inv, Project, OpenedBy;
      var id, n' := n.a.session.next, StepLeft(n, OpenStream);
      forall j: u32 ensures Inv(Project(n', j), j, OpenedBy(n.a.isServer, j)) {
        OpenKeepsPair(n, j);
      }
      OpenIdsOk(n.a);
      ConformingAppend(n.ab, [Syn(id)]);
    }
  }

  lemma StopKeeps(n: Net)
    requires NetInv(n)
    ensures NetInv(StepLeft(n, StopSession))
  {
    hide Inv, Project, OpenedBy;
    var n' := StepLeft(n, StopSession);
    forall j: u32 ensures Inv(Project(n', j), j, OpenedBy(n.a.isServer, j)) {
      StopProjects(n, j);
      assert Inv(Project(n, j), j, OpenedBy(n.a.isServer, j));
      LocalKeepsInv(Project(n, j), Stop, j, OpenedBy(n.a.isServer, j));
    }
  }

  lemma PingKeeps(n: Net)
    requires NetInv(n)
    ensures NetInv(StepLeft(n, SendPing))
  {
    hide Inv;
    var n' := StepLeft(n, SendPing);
    forall j: u32 ensures Inv(Project(n', j), j, OpenedBy(n.a.isServer, j)) {
      PingProjects(n.ab, Ping(SYN), j);
      assert Project(n', j) == Project(n, j);
      assert Inv(Project(n, j), j, OpenedBy(n.a.isServer, j));
    }
    ConformingAppend(n.ab, [Ping(SYN)]);
  }

  /** A SYN never comes for an id of one's own. */
  lemma SynFromPeer(n: Net)
    requires NetInv(n) && n.ba != [] && IsSyn(n.ba[0])
    ensures !OpenedBy(n.a.isServer, n.ba[0].h.streamId)
  {
    var id := n.ba[0].h.streamId;
    assert Inv(Project(n, id), id, OpenedBy(n.a.isServer, id));
    assert Project(n, id).rl[0] == n.ba[0];
    hide Inv;
    SynMeetsNobody(Project(n, id), id, OpenedBy(n.a.isServer, id));
  }

  lemma ReceiveIdsOk(n: Net)
    requires NetInv(n) && n.ba != []
    ensures IdsOk(ApplyOutcome(n.a, Session.HandleFrame(n.a.session, n.ba[0])))
  {
    hide Inv, IdOf, IndexOf;
    var f := n.ba[0];
    assert Conforming(f);
    if IsSyn(f) {
      SynFromPeer(n);
    }
  }

  lemma RepliesConform(st: Session.Session, f: Frame)
    ensures AllConforming(Session.HandleFrame(st, f).out)
  {
    assert Conforming(Ack(f.h.streamId)) && Conforming(Ping(ACK));
  }

  lemma ReceiveKeeps(n: Net)
    requires NetInv(n)
    ensures NetInv(StepLeft(n, Receive))
  {
    if !n.a.session.stopped && n.ba != [] {
      hide Inv, Conforming, Project, Session.HandleFrame, OpenedBy;
      var n' := StepLeft(n, Receive);
      forall j: u32 ensures Inv(Project(n', j), j, OpenedBy(n.a.isServer, j)) {
        ReceiveProjects(n, j);
        assert Inv(Project(n, j), j, OpenedBy(n.a.isServer, j));
        ReceiveKeepsInv(Project(n, j), j, OpenedBy(n.a.isServer, j));
      }
      ReceiveIdsOk(n);
      RepliesConform(n.a.session, n.ba[0]);
      ConformingAppend(n.ab, Session.HandleFrame(n.a.session, n.ba[0]).out);
    }
  }

  lemma StepLeftKeepsInv(n: Net, act: SideAction)
    requires NetInv(n)
    ensures NetInv(StepLeft(n, act))
  {
    hide NetInv, StepLeft;
    match act
    case OpenStream => OpenKeeps(n);
    case OnStream(id, a) => OnStreamKeepsInv(n, id, a);
    case StopSession => StopKeeps(n);
    case SendPing => PingKeeps(n);
    case Receive => ReceiveKeeps(n);
  }

  lemma NextKeepsInv(n: Net, step: Step)
    requires NetInv(n)
    ensures NetInv(Next(n, step))
  {
    hide NetInv, StepLeft;
    if step.left {
      StepLeftKeepsInv(n, step.act);
    } else {
      SwapInv(n);
      StepLeftKeepsInv(Swap(n), step.act);
      SwapInv(StepLeft(Swap(n), step.act));
    }
  }

  /** Safety over whole runs: whatever both users, all strands and both sessions do, in any order. */
  lemma {:induction false} EveryRunKeepsInv(steps: seq<Step>)
    ensures NetInv(Run(steps))
  {
    hide NetInv, StepLeft;
    if steps == [] {
      InitInv();
    } else {
      EveryRunKeepsInv(steps[..|steps| - 1]);
      NextKeepsInv(Run(steps[..|steps| - 1]), steps[|steps| - 1]);
    }
  }
}
