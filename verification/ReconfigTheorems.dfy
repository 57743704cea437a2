/** Safety of the reconfiguration over whole runs. */
module ReconfigTheorems {
  import opened Serial
  import opened Translation
  import opened PathChoice
  import opened Reconfig
  import N = Numbers
  import opened ReconfigSafety

  lemma {:induction false} RunInv(cfg: Config, states: seq<System>, steps: seq<Step>, i: nat)
    requires IsRun(cfg, states, steps) && i <= |steps|
    ensures Inv(cfg, states[i])
  {
    if i == 0 {
      StartInv(cfg);
    } else {
      RunInv(cfg, states, steps, i - 1);
      StepKeeps(cfg, states[i - 1], steps[i - 1]);
    }
  }

  /** One step only adds traffic, and moves the cutoff only before it is frozen. */
  ghost predicate Advances(cfg: Config, s: System, s': System) {
    && s.cut <= s'.cut && (Frozen(cfg, s) ==> Frozen(cfg, s') && s'.cut == s.cut)
    && s.traffic.oldData <= s'.traffic.oldData && s.traffic.newData <= s'.traffic.newData
    && s.traffic.oldAcks <= s'.traffic.oldAcks && s.traffic.newAcks <= s'.traffic.newAcks
    && s.received <= s'.received
  }

  lemma StepAdvances(cfg: Config, s: System, e: Step)
    requires Inv(cfg, s) && Enabled(cfg, s, e)
    ensures Advances(cfg, s, Next(cfg, s, e))
  {
    hide Wrap, Apply, Rebase, MakeDelta, Before, Send;
    match e
    case SendData(start, end) =>
      WrapShift(cfg.SenderIsn() + start, end - start);
      DataRoutes(Sender(cfg, s), cfg.SenderIsn(), s.cut, end);
    case _ =>
  }

  lemma {:induction false} RunAdvances(cfg: Config, states: seq<System>, steps: seq<Step>, i: nat, j: nat)
    requires IsRun(cfg, states, steps) && i <= j <= |steps|
    ensures Advances(cfg, states[i], states[j])
  {
    hide Next, Enabled, Inv, Start, Frozen;
    if i < j {
      RunAdvances(cfg, states, steps, i, j - 1);
      RunInv(cfg, states, steps, j - 1);
      StepAdvances(cfg, states[j - 1], steps[j - 1]);
    }
  }

  /** No ACK on the old path ever acknowledges a data byte at or past the peer's cutoff, at the time
      it is sent or at any later time; its number is the one the old session expects. */
  lemma OldPathAcksStayBelowCutoff(cfg: Config, states: seq<System>, steps: seq<Step>, i: nat, j: nat, ack: AckSeg)
    requires IsRun(cfg, states, steps) && i <= j <= |steps|
    requires ack in states[i].traffic.oldAcks
    ensures ack.off <= 1 || ack.off <= states[j].cut
    ensures ack.num == Wrap(cfg.ReceiverIsn() + ack.off)
    ensures Sender(cfg, states[j]).seqCutoff == Wrap(cfg.SenderIsn() + states[j].cut)
  {
    RunInv(cfg, states, steps, i);
    RunInv(cfg, states, steps, j);
    RunAdvances(cfg, states, steps, i, j);
  }

  /** No data segment on the old path ever ends past the cutoff, at any time from then on. */
  lemma OldPathDataStaysBelowCutoff(cfg: Config, states: seq<System>, steps: seq<Step>, i: nat, j: nat, seg: Segment)
    requires IsRun(cfg, states, steps) && i <= j <= |steps|
    requires seg in states[i].traffic.oldData
    ensures seg.end <= states[j].cut
    ensures Sender(cfg, states[j]).seqCutoff == Wrap(cfg.SenderIsn() + states[j].cut)
  {
    RunInv(cfg, states, steps, i);
    RunInv(cfg, states, steps, j);
    RunAdvances(cfg, states, steps, i, j);
  }

  /** From the moment the cutoff is frozen it keeps its value, every segment that ends at or past it
      takes the new path, and the new path was unused before. */
  lemma FrozenCutoffSplitsPaths(cfg: Config, states: seq<System>, steps: seq<Step>, i: nat, j: nat, start: nat, end: nat)
    requires IsRun(cfg, states, steps) && i <= j < |steps| && steps[j] == SendData(start, end)
    ensures !Frozen(cfg, states[i]) ==> states[i].traffic.newData == {}
    ensures Frozen(cfg, states[i]) ==>
              && states[j + 1].cut == states[i].cut
              && (end >= states[i].cut ==>
                    && states[j + 1].traffic.oldData == states[j].traffic.oldData
                    && Segment(start, end, Wrap(cfg.WireIsn() + start)) in states[j + 1].traffic.newData)
  {
    hide Wrap, Apply, Rebase, MakeDelta, Before, Send, CutoffInv, OldAcksInv;
    RunInv(cfg, states, steps, i);
    RunInv(cfg, states, steps, j);
    RunAdvances(cfg, states, steps, i, j);
    WrapShift(cfg.SenderIsn() + start, end - start);
    ApplyMovesOffset(cfg.rightIseq, cfg.leftIack, start);
    DataRoutes(Sender(cfg, states[j]), cfg.SenderIsn(), states[j].cut, end);
  }

  /** All copies of a control message carry the same cutoff, whenever they left. */
  lemma MessageCopiesAgree(cfg: Config, states: seq<System>, steps: seq<Step>, i: nat)
    requires IsRun(cfg, states, steps) && i <= |steps|
    ensures forall m, m' :: m in states[i].control.synAcks && m' in states[i].control.synAcks ==> m == m'
    ensures forall m, m' :: m in states[i].control.acks && m' in states[i].control.acks ==> m == m'
  {
    RunInv(cfg, states, steps, i);
  }

  /** Delivery of the sender's message, first or repeated, installs exactly the sender's final cutoff
      rebased to the receiver's initial number, and the sender has frozen it. */
  lemma InstalledCutoffIsPeersCutoff(cfg: Config, states: seq<System>, steps: seq<Step>, i: nat, j: nat)
    requires IsRun(cfg, states, steps) && i < j <= |steps|
    requires if cfg.leftSends then steps[i].AckIn? else steps[i].SynAckIn? && states[i].left.phase != Established
    ensures Receiver(cfg, states[i + 1]).validAckCut
    ensures Receiver(cfg, states[i + 1]).ackCutoff == Wrap(cfg.ReceiverIsn() + states[j].cut)
    ensures Frozen(cfg, states[i]) && Sender(cfg, states[j]).seqCutoff == Wrap(cfg.SenderIsn() + states[j].cut)
  {
    hide Wrap, Apply, Rebase, MakeDelta, Before;
    RunInv(cfg, states, steps, i);
    RunInv(cfg, states, steps, i + 1);
    RunInv(cfg, states, steps, j);
    RunAdvances(cfg, states, steps, i, j);
    MessageNamesCutoff(cfg, states[i]);
  }

  /** Afterwards the receiver's cutoff may sink but never rises past the peer's; at an ESTABLISHED
      right anchor it stays exact. */
  lemma InstalledCutoffNeverPassesPeers(cfg: Config, states: seq<System>, steps: seq<Step>, i: nat, j: nat)
    requires IsRun(cfg, states, steps) && i <= j <= |steps|
    requires if cfg.leftSends then states[i].right.phase == Established else states[i].control.synAckIn
    ensures var r := Receiver(cfg, states[i]);
            r.validAckCut && r.ackCutoff == Wrap(cfg.ReceiverIsn() + states[i].ackOff)
    ensures states[i].ackOff <= states[j].cut
    ensures cfg.leftSends ==> states[i].ackOff == states[j].cut
  {
    RunInv(cfg, states, steps, i);
    RunAdvances(cfg, states, steps, i, j);
    assert Frozen(cfg, states[i]);
  }

  /** What makes it sink: exactly a new-path segment that starts below it while the handshake at
      this anchor is not over. */
  lemma CutoffSinksExactlyWhen(cfg: Config, states: seq<System>, steps: seq<Step>, i: nat, seg: Segment)
    requires IsRun(cfg, states, steps) && i < |steps| && steps[i] == DeliverNew(seg)
    requires Receiver(cfg, states[i]).validAckCut
    ensures var r, r' := Receiver(cfg, states[i]), Receiver(cfg, states[i + 1]);
            && (r'.ackCutoff != r.ackCutoff <==>
                  (r.phase == SynSent || r.phase == SynReceived) && seg.start < states[i].ackOff)
            && (r'.ackCutoff != r.ackCutoff ==> r'.ackCutoff == Wrap(cfg.ReceiverIsn() + seg.start))
  {
    hide Wrap, Apply, Rebase, MakeDelta, OldAcksInv;
    var s := states[i];
    RunInv(cfg, states, steps, i);
    RebaseMovesOffset(cfg.rightIack, cfg.leftIseq, seg.start);
    RebaseMovesOffset(cfg.leftIack, cfg.leftIack, seg.start);
    SerialOrderIsOffsetOrder(cfg.ReceiverIsn(), seg.start, s.ackOff);
  }

  /** The receiving TCP sees its own initial number plus the stream offset in every new-path segment. */
  lemma NewPathDataIsTransparent(cfg: Config, states: seq<System>, steps: seq<Step>, i: nat, seg: Segment)
    requires IsRun(cfg, states, steps) && i <= |steps| && seg in states[i].traffic.newData
    ensures Seen(cfg, seg.num) == Wrap(cfg.ReceiverIsn() + seg.start)
  {
    RunInv(cfg, states, steps, i);
    ApplyMovesOffset(cfg.leftIseq, cfg.rightIack, seg.start);
  }

  /** The deltas of the system are those the right anchor fills into its new blocks. */
  lemma DeltasOfRightBlocks(cfg: Config, was: N.InNumbers, right: N.OutNumbers, rightIn: N.InNumbers, r: N.Rcb)
    requires cfg.leftIseq == r.leftIseq && cfg.leftIack == r.leftIack
    requires cfg.rightIseq == right.inIseq && cfg.rightIack == right.inIack
    ensures var o, i := N.RightOutNumbers(right, r), N.RightInNumbers(was, right, rightIn, r);
            && o.seqDelta == cfg.OutSeqDelta() && o.ackDelta == cfg.OutAckDelta()
            && i.seqDelta == cfg.InSeqDelta() && i.ackDelta == cfg.InAckDelta()
  {
  }

  // ----- when the sender abandons the old path

  /** Every ACK under way speaks for bytes the receiver has, in the numbering of its path. */
  ghost predicate AcksInv(cfg: Config, s: System) {
    && (forall ack, k :: ack in s.traffic.oldAcks + s.traffic.newAcks && 1 <= k < ack.off ==> k in s.received)
    && (forall ack :: ack in s.traffic.newAcks ==> ack.num == Wrap(cfg.WireIsn() + ack.off))
  }

  lemma EmitKeepsAcks(cfg: Config, s: System, off: nat, fin: bool)
    requires Inv(cfg, s) && AcksInv(cfg, s) && Enabled(cfg, s, EmitAck(off, fin))
    ensures AcksInv(cfg, Next(cfg, s, EmitAck(off, fin)))
  {
    hide Wrap, Apply, Rebase, MakeDelta, Before, Send;
    AckRoutes(Receiver(cfg, s), cfg.ReceiverIsn(), s.ackOff, off, fin);
    ApplyMovesOffset(cfg.rightIack, cfg.leftIseq, off);
    var d := Send(Receiver(cfg, s), false, 0, Wrap(cfg.ReceiverIsn() + off), fin);
    var said := if d.ack == Wrap(cfg.ReceiverIsn() + off) then off else s.ackOff;
    assert said <= off;
    assert d.route == NewPath ==> d.ack == Wrap(cfg.ReceiverIsn() + off);
  }

  lemma StepKeepsAcks(cfg: Config, s: System, e: Step)
    requires Inv(cfg, s) && AcksInv(cfg, s) && Enabled(cfg, s, e)
    ensures AcksInv(cfg, Next(cfg, s, e))
  {
    if e.EmitAck? {
      EmitKeepsAcks(cfg, s, e.off, e.fin);
    } else {
      StepAdvances(cfg, s, e);
      hide Wrap, Apply, Rebase, MakeDelta, Before, Send, Inv;
    }
  }

  lemma {:induction false} RunAcksInv(cfg: Config, states: seq<System>, steps: seq<Step>, i: nat)
    requires IsRun(cfg, states, steps) && i <= |steps|
    ensures AcksInv(cfg, states[i])
  {
    hide Next, Enabled, Inv;
    if i > 0 {
      RunAcksInv(cfg, states, steps, i - 1);
      RunInv(cfg, states, steps, i - 1);
      StepKeepsAcks(cfg, states[i - 1], steps[i - 1]);
    }
  }

  /** The number tested against seq_cutoff is in the sender's numbering. */
  predicate TestsOwnNumbering(cfg: Config, e: Step) {
    e.OldAckArrives? || (e.NewAckArrives? && cfg.WireIsn() == cfg.SenderIsn())
  }

  /** An ACK that makes the sender give up the old path after its cutoff froze proves that the
      receiver has every byte below the cutoff: nothing the old path still owes is lost. */
  lemma OldPathAbandonedOnlyWhenDrained(cfg: Config, states: seq<System>, steps: seq<Step>, i: nat)
    requires IsRun(cfg, states, steps) && i < |steps| && TestsOwnNumbering(cfg, steps[i])
    requires Frozen(cfg, states[i]) && Near(steps[i].ack.off, states[i].cut)
    requires !Sender(cfg, states[i]).useNpSeq && Sender(cfg, states[i + 1]).useNpSeq
    ensures forall k :: 1 <= k < states[i].cut ==> k in states[i].received
  {
    var s, ack := states[i], steps[i].ack;
    RunInv(cfg, states, steps, i);
    RunAcksInv(cfg, states, steps, i);
    SerialOrderIsOffsetOrder(cfg.SenderIsn(), s.cut, ack.off);
    var num := if steps[i].OldAckArrives? then Wrap(cfg.SenderIsn() + ack.off) else ack.num;
    assert num == Wrap(cfg.SenderIsn() + ack.off);
    assert AckReachesCutoff(Sender(cfg, s), num);
  }

  /** two_paths of the input block that an ACK comes in through; a right sender's old one is never up. */
  predicate Watching(cfg: Config, s: System, onOldPath: bool) {
    if !cfg.leftSends then !onOldPath && s.flags.rightNew else if onOldPath then s.flags.leftOld else s.flags.leftNew
  }

  /** And the other way round: while it watches, an ACK in its own numbering makes the sender give up the
      old path, and lowers the flag, if and only if it reaches the cutoff. */
  lemma OldPathAbandonedExactlyWhen(cfg: Config, states: seq<System>, steps: seq<Step>, i: nat)
    requires IsRun(cfg, states, steps) && i < |steps| && TestsOwnNumbering(cfg, steps[i])
    requires Near(steps[i].ack.off, states[i].cut) && Watching(cfg, states[i], steps[i].OldAckArrives?)
    ensures var s, s', reached := states[i], states[i + 1], steps[i].ack.off >= states[i].cut;
            && (Sender(cfg, s').useNpSeq <==> Sender(cfg, s).useNpSeq || reached)
            && (Watching(cfg, s', steps[i].OldAckArrives?) <==> !reached)
  {
    var s, ack := states[i], steps[i].ack;
    RunInv(cfg, states, steps, i);
    RunAcksInv(cfg, states, steps, i);
    SerialOrderIsOffsetOrder(cfg.SenderIsn(), s.cut, ack.off);
    var num := if steps[i].OldAckArrives? then Wrap(cfg.SenderIsn() + ack.off) else ack.num;
    assert num == Wrap(cfg.SenderIsn() + ack.off);
    assert !Sender(cfg, s).stateT;
    hide Wrap, Before;
  }

  /** From then on no further data leaves on the old path. */
  lemma {:induction false} NoOldDataOnceGivenUp(cfg: Config, states: seq<System>, steps: seq<Step>, i: nat, j: nat)
    requires IsRun(cfg, states, steps) && i <= j <= |steps|
    requires Frozen(cfg, states[i]) && Sender(cfg, states[i]).useNpSeq
    ensures states[j].traffic.oldData == states[i].traffic.oldData && Sender(cfg, states[j]).useNpSeq
  {
    hide Next, Enabled, Inv, Start, Frozen, Sender;
    if i < j {
      NoOldDataOnceGivenUp(cfg, states, steps, i, j - 1);
      RunInv(cfg, states, steps, j - 1);
      RunAdvances(cfg, states, steps, i, j - 1);
      GivenUpStep(cfg, states[j - 1], steps[j - 1]);
    }
  }

  lemma GivenUpStep(cfg: Config, s: System, e: Step)
    requires Inv(cfg, s) && Enabled(cfg, s, e) && Frozen(cfg, s) && Sender(cfg, s).useNpSeq
    ensures Next(cfg, s, e).traffic.oldData == s.traffic.oldData && Sender(cfg, Next(cfg, s, e)).useNpSeq
  {
    hide Wrap, Apply, Rebase, MakeDelta, Before, CutoffInv, OldAcksInv, DataInv;
  }

  // ----- an installed cutoff that sinks

  lemma Extend(cfg: Config, states: seq<System>, steps: seq<Step>, e: Step)
    requires IsRun(cfg, states, steps) && Enabled(cfg, states[|steps|], e)
    ensures IsRun(cfg, states + [Next(cfg, states[|steps|], e)], steps + [e])
  {
  }

  /** The SYN has been accepted and no data was sent yet. */
  lemma SynExchanged(cfg: Config) returns (states: seq<System>, steps: seq<Step>)
    ensures IsRun(cfg, states, steps) && steps == [SynOut, SynIn]
    ensures states[2] == Next(cfg, Next(cfg, Start(cfg), SynOut), SynIn)
  {
    states, steps := [Start(cfg)], [];
    Extend(cfg, states, steps, SynOut);
    states, steps := states + [Next(cfg, states[0], SynOut)], steps + [SynOut];
    Extend(cfg, states, steps, SynIn);
    states, steps := states + [Next(cfg, states[1], SynIn)], steps + [SynIn];
  }

  /** Then the right anchor sends ten bytes and its first DYSCO_SYN_ACK. */
  lemma TenBytesThenSynAck(cfg: Config) returns (states: seq<System>, steps: seq<Step>)
    requires !cfg.leftSends
    ensures IsRun(cfg, states, steps) && steps == [SynOut, SynIn, SendData(1, 11), SynAckOut]
    ensures var s := states[4];
            && s.cut == 11 && s.right.phase == SynReceived && s.left.phase == SynSent
            && !s.right.useNpSeq && !s.left.validAckCut && s.control.synAcks != {}
            && s.received == {} && Segment(1, 11, Wrap(cfg.rightIseq + 1)) in s.traffic.oldData && s.flags.rightNew
            && s.left.forked && s.left.ackCtr == 0 && !s.left.useNpAck
  {
    states, steps := SynExchanged(cfg);
    var s := states[2];
    assert s.left.phase == SynSent && !s.left.validAckCut && s.cut == 0 && s.control.synIn;
    assert s.right == Start(cfg).right;
    DataRoutes(s.right, cfg.rightIseq, 0, 11);
    WrapShift(cfg.rightIseq + 1, 10);
    Extend(cfg, states, steps, SendData(1, 11));
    states, steps := states + [Next(cfg, s, SendData(1, 11))], steps + [SendData(1, 11)];
    var t := states[3];
    assert t.cut == 11 && t.left == s.left && t.control == s.control && !t.right.useNpSeq;
    Extend(cfg, states, steps, SynAckOut);
    states, steps := states + [Next(cfg, t, SynAckOut)], steps + [SynAckOut];
    assert Apply(cfg.OutSeqDelta(), t.right.seqCutoff) in states[4].control.synAcks;
  }

  /** Then it retransmits: the segment ends at the frozen cutoff, so it takes the new path. */
  lemma TenBytesAgain(cfg: Config) returns (states: seq<System>, steps: seq<Step>)
    requires !cfg.leftSends
    ensures IsRun(cfg, states, steps) && |steps| == 5
    ensures var s := states[5];
            && s.cut == 11 && s.left.phase == SynSent && !s.left.validAckCut && s.control.synAcks != {}
            && Segment(1, 11, Wrap(cfg.WireIsn() + 1)) in s.traffic.newData
  {
    hide Wrap, Apply, Rebase, MakeDelta, Before, Send;
    states, steps := TenBytesThenSynAck(cfg);
    RunInv(cfg, states, steps, 4);
    var e := SendData(1, 11);
    Extend(cfg, states, steps, e);
    var s := Next(cfg, states[4], e);
    states, steps := states + [s], steps + [e];
    FrozenCutoffSplitsPaths(cfg, states, steps, 4, 4, 1, 11);
    assert s.left == states[4].left && s.control == states[4].control;
  }

  /** A right anchor that sends 10 bytes, freezes its cutoff and retransmits: the retransmission ends
      at the cutoff, so it takes the new path, and a left anchor that has already installed the exact
      cutoff takes it back to the first byte. */
  lemma InstalledCutoffCanSink(cfg: Config) returns (states: seq<System>, steps: seq<Step>)
    requires !cfg.leftSends
    ensures IsRun(cfg, states, steps) && |steps| == 7 && steps[5].SynAckIn? && states[7].cut == 11
    ensures states[6].left.ackCutoff == Wrap(cfg.leftIack + 11)
    ensures states[7].left.ackCutoff == Wrap(cfg.leftIack + 1)
  {
    hide Wrap, Apply, Rebase, MakeDelta, Before, Send;
    states, steps := TenBytesAgain(cfg);
    var seg := Segment(1, 11, Wrap(cfg.WireIsn() + 1));
    var msg :| msg in states[5].control.synAcks;
    Extend(cfg, states, steps, SynAckIn(msg));
    states, steps := states + [Next(cfg, states[5], SynAckIn(msg))], steps + [SynAckIn(msg)];
    InstalledCutoffIsPeersCutoff(cfg, states, steps, 5, 6);
    Extend(cfg, states, steps, DeliverNew(seg));
    states, steps := states + [Next(cfg, states[6], DeliverNew(seg))], steps + [DeliverNew(seg)];
    CutoffSinksExactlyWhen(cfg, states, steps, 6, seg);
  }
}
