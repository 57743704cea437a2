/** A right anchor that sends data tests the new path's ACKs against its cutoff before it translates them.
    When that test is right, over whole runs. */
module AckTest {
  import opened Serial
  import opened Translation
  import opened PathChoice
  import opened Reconfig
  import opened ReconfigSafety
  import opened ReconfigTheorems

  /** The receiving TCP acknowledges everything it has without a gap, since acknowledgements are
      cumulative (RFC 9293, section 3.4). */
  ghost predicate WholePrefix(states: seq<System>, steps: seq<Step>)
    requires |states| == |steps| + 1
  {
    forall i :: 0 <= i < |steps| && steps[i].EmitAck? ==> steps[i].off !in states[i].received
  }

  /** Nothing below the cutoff is missing. */
  ghost predicate Drained(s: System) {
    forall k: nat :: 1 <= k < s.cut ==> k in s.received
  }

  ghost predicate Covered(s: System, from: nat) {
    forall k: nat :: 1 <= k && from <= k < s.cut ==> k in s.received
  }

  /** What ties the new path's traffic to the cutoff of a sending right anchor. */
  ghost predicate ReachInv(s: System) {
    && (s.left.validAckCut ==> s.right.forked && (Drained(s) || Covered(s, s.ackOff)))
    && (s.left.useNpAck ==> s.left.validAckCut && Drained(s))
    && (s.left.ackCtr >= 1 ==> s.left.validAckCut && Drained(s))
    && (s.traffic.newAcks != {} ==> s.left.validAckCut)
    && (forall ack :: ack in s.traffic.newAcks ==> ack.off >= s.cut)
    && (s.right.useNpSeq ==> s.traffic.newAcks != {} && Drained(s))
    && (Drained(s) || forall seg :: seg in s.traffic.newData ==> seg.end >= s.cut)
  }

  /** While the sender has not left the old path for good, what it puts on the new one reaches the cutoff. */
  lemma NewPathReaches(a: Anchor, isn: U32, cut: nat, end: nat)
    requires !a.stateT && (a.forked <==> a.phase != OnePath) && a.seqCutoff == Wrap(isn + cut) && Near(end, cut)
    ensures var d := Send(a, true, Wrap(isn + end), 0, false);
            d.route == NewPath ==> a.useNpSeq || end >= cut
  {
    SerialOrderIsOffsetOrder(isn, end, cut);
  }

  lemma SendReaches(cfg: Config, s: System, start: nat, end: nat)
    requires !cfg.leftSends && Inv(cfg, s) && ReachInv(s) && Enabled(cfg, s, SendData(start, end))
    ensures ReachInv(Next(cfg, s, SendData(start, end)))
  {
    hide Wrap, Apply, Rebase, MakeDelta, Before, Send, CutoffInv, OldAcksInv;
    WrapShift(cfg.SenderIsn() + start, end - start);
    DataRoutes(s.right, cfg.rightIseq, s.cut, end);
    NewPathReaches(s.right, cfg.rightIseq, s.cut, end);
    var d := Send(s.right, true, Wrap(cfg.rightIseq + end), 0, false);
    assert Next(cfg, s, SendData(start, end)) == DataGoes(cfg, s, start, end, d);
    DataReaches(cfg, s, start, end, d);
  }

  lemma DataReaches(cfg: Config, s: System, start: nat, end: nat, d: Departure)
    requires !cfg.leftSends && Inv(cfg, s) && ReachInv(s)
    requires var cut' := if !s.right.forked && end > s.cut then end else s.cut;
             && d.anchor == s.right.(seqCutoff := Wrap(cfg.rightIseq + cut'))
             && (d.anchor.seqCutoff != s.right.seqCutoff <==> cut' != s.cut)
    requires d.route == NewPath ==> s.right.forked && (s.right.useNpSeq || end >= s.cut)
    ensures ReachInv(DataGoes(cfg, s, start, end, d))
  {
    hide Wrap, Apply, Rebase, MakeDelta, Before, CutoffInv, OldAcksInv, HandshakeInv;
    var s' := DataGoes(cfg, s, start, end, d);
    assert s'.left == s.left && s'.received == s.received && s'.traffic.newAcks == s.traffic.newAcks;
    if s.right.forked {
      assert s'.cut == s.cut && Drained(s') == Drained(s) && Covered(s', s.ackOff) == Covered(s, s.ackOff);
    } else {
      assert s.traffic.newData == {};
    }
  }

  lemma MoreReceived(s: System, s': System)
    requires s'.cut == s.cut && s.received <= s'.received
    ensures Drained(s) ==> Drained(s')
    ensures forall from: nat :: Covered(s, from) ==> Covered(s', from)
  {
  }

  lemma DeliverReaches(cfg: Config, s: System, seg: Segment)
    requires !cfg.leftSends && Inv(cfg, s) && ReachInv(s) && Enabled(cfg, s, DeliverNew(seg))
    ensures ReachInv(Next(cfg, s, DeliverNew(seg)))
  {
    hide Wrap, Apply, Rebase, MakeDelta, Before, CutoffInv, OldAcksInv, HandshakeInv;
    var s' := Next(cfg, s, DeliverNew(seg));
    MoreReceived(s, s');
    assert seg.end >= s.cut || Drained(s);
    assert Covered(s', seg.start) || Drained(s');
    assert s'.ackOff == seg.start || (s'.ackOff == s.ackOff && s'.left == s.left);
    assert s'.right == s.right && s'.traffic == s.traffic && s'.cut == s.cut;
    assert s'.left == s.left.(ackCutoff := s'.left.ackCutoff, validAckCut := s'.left.validAckCut);
  }

  /** An ACK of the whole prefix at or past the receiver's cutoff acknowledges everything below the sender's. */
  lemma EmitReaches(cfg: Config, s: System, off: nat, fin: bool)
    requires !cfg.leftSends && Inv(cfg, s) && ReachInv(s) && Enabled(cfg, s, EmitAck(off, fin)) && off !in s.received
    ensures ReachInv(Next(cfg, s, EmitAck(off, fin)))
  {
    hide Wrap, Apply, Rebase, MakeDelta, Before, OldAcksInv, DataInv;
    AckRoutes(s.left, cfg.leftIack, s.ackOff, off, fin);
    if s.left.validAckCut {
      SerialOrderIsOffsetOrder(cfg.leftIack, off, s.ackOff);
    }
    PrefixReaches(s, off);
    NewPathAcks(s.left, cfg.leftIack, s.ackOff, off, fin);
    AckGoesReaches(cfg, s, off, Send(s.left, false, 0, Wrap(cfg.leftIack + off), fin));
  }

  lemma PrefixReaches(s: System, off: nat)
    requires ReachInv(s) && off >= 1 && (forall k: nat | 1 <= k < off :: k in s.received) && off !in s.received
    ensures s.left.validAckCut && off >= s.ackOff ==> Drained(s)
    ensures Drained(s) ==> off >= s.cut
  {
  }

  /** What an ACK on the new path, and a capped one, say about the receiver's cutoff. */
  lemma NewPathAcks(a: Anchor, isn: U32, ackOff: nat, off: nat, fin: bool)
    requires !a.stateT && (a.forked <==> a.phase != OnePath)
    requires a.validAckCut ==> a.ackCutoff == Wrap(isn + ackOff) && Near(off, ackOff)
    ensures var d := Send(a, false, 0, Wrap(isn + off), fin);
            && (d.route == NewPath ==> a.validAckCut && (a.useNpAck || off >= ackOff))
            && (d.anchor != a ==> a.validAckCut && off >= ackOff)
  {
    if a.validAckCut {
      SerialOrderIsOffsetOrder(isn, off, ackOff);
    }
  }

  lemma AckGoesReaches(cfg: Config, s: System, off: nat, d: Departure)
    requires !cfg.leftSends && ReachInv(s)
    requires d.anchor == s.left.(useNpAck := d.anchor.useNpAck, ackCtr := d.anchor.ackCtr)
    requires d.anchor != s.left ==> s.left.validAckCut && Drained(s)
    requires d.route == NewPath ==> s.left.validAckCut && off >= s.cut && d.ack == Wrap(cfg.leftIack + off)
    ensures ReachInv(AckGoes(cfg, s, off, d))
  {
    hide Wrap, Apply, Rebase, MakeDelta, Before;
    var s' := AckGoes(cfg, s, off, d);
    assert s'.cut == s.cut && s'.received == s.received && s'.right == s.right && s'.traffic.newData == s.traffic.newData;
    MoreReceived(s, s');
  }

  lemma AckArrivesReaches(cfg: Config, s: System, ack: AckSeg)
    requires !cfg.leftSends && Inv(cfg, s) && AcksInv(cfg, s) && ReachInv(s) && Enabled(cfg, s, NewAckArrives(ack))
    ensures ReachInv(Next(cfg, s, NewAckArrives(ack)))
  {
    hide Wrap, Apply, Rebase, MakeDelta, Before, CutoffInv, OldAcksInv, HandshakeInv, DataInv;
    var s' := Next(cfg, s, NewAckArrives(ack));
    NoteAckChangesFlag(s.right, false, ack.num);
    assert ack in s.traffic.oldAcks + s.traffic.newAcks;
    assert Drained(s);
    assert s'.cut == s.cut && s'.received == s.received && s'.left == s.left;
    assert s'.traffic == s.traffic && s'.ackOff == s.ackOff;
    MoreReceived(s, s');
  }

  lemma SynAckInReaches(cfg: Config, s: System, msg: U32)
    requires !cfg.leftSends && Inv(cfg, s) && ReachInv(s) && Enabled(cfg, s, SynAckIn(msg))
    ensures ReachInv(Next(cfg, s, SynAckIn(msg)))
  {
    hide Wrap, Apply, Rebase, MakeDelta, Before, CutoffInv, OldAcksInv, DataInv;
    var s' := Next(cfg, s, SynAckIn(msg));
    MoreReceived(s, s');
    assert Covered(s', s.cut);
  }

  lemma StepReaches(cfg: Config, s: System, e: Step)
    requires !cfg.leftSends && Inv(cfg, s) && AcksInv(cfg, s) && ReachInv(s) && Enabled(cfg, s, e)
    requires e.EmitAck? ==> e.off !in s.received
    ensures ReachInv(Next(cfg, s, e))
  {
    match e
    case SendData(start, end) => SendReaches(cfg, s, start, end);
    case DeliverNew(seg) => DeliverReaches(cfg, s, seg);
    case EmitAck(off, fin) => EmitReaches(cfg, s, off, fin);
    case NewAckArrives(ack) => AckArrivesReaches(cfg, s, ack);
    case SynAckIn(msg) => SynAckInReaches(cfg, s, msg);
    case RelayOld(start, end) => MoreReceived(s, Next(cfg, s, e));
    case _ =>
      hide Wrap, Apply, Rebase, MakeDelta, Before, Inv, AcksInv;
      MoreReceived(s, Next(cfg, s, e));
  }

  lemma {:induction false} RunReaches(cfg: Config, states: seq<System>, steps: seq<Step>, i: nat)
    requires !cfg.leftSends && IsRun(cfg, states, steps) && WholePrefix(states, steps) && i <= |steps|
    ensures ReachInv(states[i])
  {
    hide Next, Enabled, Inv, AcksInv, ReachInv;
    if i == 0 {
      StartReaches(cfg);
    } else {
      RunReaches(cfg, states, steps, i - 1);
      RunInv(cfg, states, steps, i - 1);
      RunAcksInv(cfg, states, steps, i - 1);
      StepReaches(cfg, states[i - 1], steps[i - 1]);
    }
  }

  lemma StartReaches(cfg: Config)
    ensures ReachInv(Start(cfg))
  {
  }

  /** Every ACK a right sender ever finds on the new path acknowledges everything below its cutoff: the
      right answer of the test is always yes. */
  lemma NewPathAcksReachCutoff(cfg: Config, states: seq<System>, steps: seq<Step>, i: nat, ack: AckSeg)
    requires !cfg.leftSends && IsRun(cfg, states, steps) && WholePrefix(states, steps) && i <= |steps|
    requires ack in states[i].traffic.newAcks
    ensures ack.off >= states[i].cut && Drained(states[i])
  {
    RunReaches(cfg, states, steps, i);
    RunAcksInv(cfg, states, steps, i);
    assert ack in states[i].traffic.oldAcks + states[i].traffic.newAcks;
  }

  /** What the test answers on any ACK in any run: the difference of the two initial numbers is part of
      what it compares. */
  lemma UntranslatedAckTest(cfg: Config, states: seq<System>, steps: seq<Step>, i: nat, ack: AckSeg)
    requires !cfg.leftSends && IsRun(cfg, states, steps) && i < |steps| && steps[i] == NewAckArrives(ack)
    requires states[i].flags.rightNew && !states[i].right.useNpSeq
    ensures states[i + 1].right.useNpSeq <==> Wrap(cfg.leftIack - cfg.rightIseq + (ack.off - states[i].cut)) < TWO_31
    ensures states[i + 1].flags.rightNew <==> !states[i + 1].right.useNpSeq
  {
    var s := states[i];
    RunInv(cfg, states, steps, i);
    RunAcksInv(cfg, states, steps, i);
    assert s.right.seqCutoff == Wrap(cfg.rightIseq + s.cut) && ack.num == Wrap(cfg.leftIack + ack.off);
    assert states[i + 1] == Next(cfg, s, NewAckArrives(ack));
    hide Inv, AcksInv, Wrap;
    WrapDifference(cfg.leftIack + ack.off, cfg.rightIseq + s.cut);
    assert cfg.leftIack + ack.off - (cfg.rightIseq + s.cut) == cfg.leftIack - cfg.rightIseq + (ack.off - s.cut);
  }

  /** So, with a TCP that acknowledges its whole prefix, the right sender decides rightly on an ACK, that
      is, gives up the old path, if and only if the difference of the initial numbers and the distance of
      the ACK from the cutoff together stay below half the space. */
  lemma RightSenderDecidesRightlyExactlyWhen(cfg: Config, states: seq<System>, steps: seq<Step>, i: nat, ack: AckSeg)
    requires !cfg.leftSends && IsRun(cfg, states, steps) && WholePrefix(states, steps)
    requires i < |steps| && steps[i] == NewAckArrives(ack)
    requires states[i].flags.rightNew && !states[i].right.useNpSeq
    ensures (states[i + 1].right.useNpSeq <==> ack.off >= states[i].cut)
            <==> Wrap(cfg.leftIack - cfg.rightIseq + (ack.off - states[i].cut)) < TWO_31
  {
    hide Inv, AcksInv, Wrap, Drained;
    UntranslatedAckTest(cfg, states, steps, i, ack);
    NewPathAcksReachCutoff(cfg, states, steps, i, ack);
  }

  // ----- a run in which it decides wrongly

  /** Ten bytes arrive over the old path, and the left anchor installs the cutoff behind them. */
  lemma TenBytesArrive(cfg: Config) returns (states: seq<System>, steps: seq<Step>)
    requires !cfg.leftSends
    ensures IsRun(cfg, states, steps) && |steps| == 6 && WholePrefix(states, steps)
    ensures var s := states[6];
            && s.cut == 11 && s.ackOff == 11 && s.received == Bytes(1, 11) && s.flags.rightNew && !s.right.useNpSeq
            && s.left.phase == SynSent && s.left.forked && s.left.validAckCut && s.left.ackCtr == 0 && !s.left.useNpAck
  {
    hide Wrap, Apply, Rebase, MakeDelta, Before, Send;
    states, steps := TenBytesThenSynAck(cfg);
    assert WholePrefix(states, steps);
    var s := states[4];
    TenBytesCarried(s, Segment(1, 11, Wrap(cfg.rightIseq + 1)));
    Extend(cfg, states, steps, RelayOld(1, 11));
    states, steps := states + [Next(cfg, s, RelayOld(1, 11))], steps + [RelayOld(1, 11)];
    var msg :| msg in states[5].control.synAcks;
    Extend(cfg, states, steps, SynAckIn(msg));
    states, steps := states + [Next(cfg, states[5], SynAckIn(msg))], steps + [SynAckIn(msg)];
  }

  lemma TenBytesCarried(s: System, seg: Segment)
    requires seg in s.traffic.oldData && seg.start == 1 && seg.end == 11
    ensures CarriedOld(s, 1, 11)
  {
    forall k | 1 <= k < 11
      ensures LeftOld(s, k)
    {
      assert Holds(seg, k);
    }
  }

  /** One more ACK of the ten bytes: the first two are capped, the next takes the new path. */
  lemma AckTenBytes(cfg: Config, states: seq<System>, steps: seq<Step>) returns (states': seq<System>, steps': seq<Step>)
    requires !cfg.leftSends && IsRun(cfg, states, steps) && WholePrefix(states, steps)
    requires TenBytesAcked(states[|steps|]) && states[|steps|].left.ackCtr <= 2
    ensures IsRun(cfg, states', steps') && WholePrefix(states', steps') && |steps'| == |steps| + 1
    ensures TenBytesAcked(states'[|steps'|])
    ensures states[|steps|].left.ackCtr < 2 ==> states'[|steps'|].left.ackCtr == states[|steps|].left.ackCtr + 1
    ensures states[|steps|].left.ackCtr == 2 ==> AckSeg(11, Wrap(cfg.leftIack + 11)) in states'[|steps'|].traffic.newAcks
  {
    hide Rebase, MakeDelta;
    var s, e := states[|steps|], EmitAck(11, false);
    RunInv(cfg, states, steps, |steps|);
    assert s.left.ackCutoff == Wrap(cfg.leftIack + 11);
    Extend(cfg, states, steps, e);
    states', steps' := states + [Next(cfg, s, e)], steps + [e];
    SerialOrderIsOffsetOrder(cfg.leftIack, 11, 11);
    hide Wrap, Apply, Inv;
  }

  ghost predicate TenBytesAcked(s: System) {
    && s.cut == 11 && s.ackOff == 11 && s.received == Bytes(1, 11) && s.flags.rightNew && !s.right.useNpSeq
    && s.left.phase == SynSent && s.left.forked && s.left.validAckCut && (s.left.useNpAck <==> s.left.ackCtr == 2)
  }

  /** In every configuration with a right sender there is a run in which an ACK of everything comes in on the
      new path, and the sender gives up the old path if and only if its two initial numbers lie less than
      half the space apart, the left one ahead. */
  lemma RightSenderCanDecideWrongly(cfg: Config) returns (states: seq<System>, steps: seq<Step>)
    requires !cfg.leftSends
    ensures IsRun(cfg, states, steps) && WholePrefix(states, steps) && |steps| == 10
    ensures steps[9] == NewAckArrives(AckSeg(11, Wrap(cfg.leftIack + 11)))
    ensures states[9].cut == 11 && states[9].received == Bytes(1, 11) && !states[9].right.useNpSeq
    ensures states[10].right.useNpSeq <==> Wrap(cfg.leftIack - cfg.rightIseq) < TWO_31
  {
    hide Wrap, Next, Enabled, Inv, AcksInv;
    states, steps := TenBytesArrive(cfg);
    states, steps := AckTenBytes(cfg, states, steps);
    states, steps := AckTenBytes(cfg, states, steps);
    states, steps := AckTenBytes(cfg, states, steps);
    var ack := AckSeg(11, Wrap(cfg.leftIack + 11));
    ArrivesEnabled(cfg, states[9], ack);
    Extend(cfg, states, steps, NewAckArrives(ack));
    states, steps := states + [Next(cfg, states[9], NewAckArrives(ack))], steps + [NewAckArrives(ack)];
    UntranslatedAckTest(cfg, states, steps, 9, ack);
  }

  lemma ArrivesEnabled(cfg: Config, s: System, ack: AckSeg)
    requires ack in s.traffic.newAcks
    ensures Enabled(cfg, s, NewAckArrives(ack))
  {
  }
}
