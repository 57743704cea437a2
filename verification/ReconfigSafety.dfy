/** What every run of the reconfiguration protocol keeps, and the safety theorems over whole runs. */
module ReconfigSafety {
  import opened Serial
  import opened Translation
  import opened PathChoice
  import opened Reconfig

  /** The first data byte past the cutoff; data starts at offset 1. */
  function Edge(s: System): nat {
    if s.cut == 0 then 1 else s.cut
  }

  /** The sender no longer moves its cutoff: at the left once ESTABLISHED, at the right from the
      first DYSCO_SYN_ACK on. */
  predicate Frozen(cfg: Config, s: System) {
    if cfg.leftSends then s.left.phase == Established else s.right.forked
  }

  /** The phases of the two anchors and the messages between them stay in step. */
  ghost predicate HandshakeInv(cfg: Config, s: System) {
    && !s.left.stateT && !s.right.stateT
    && (s.left.forked <==> s.left.phase != OnePath) && s.left.phase != SynReceived
    && (s.right.forked <==> s.right.phase != OnePath) && s.right.phase != SynSent
    && (s.control.synOut <==> s.left.forked)
    && (s.control.synIn ==> s.control.synOut) && (s.right.forked ==> s.control.synIn)
    && (s.control.synAcks != {} ==> s.right.forked) && (s.control.synAckIn ==> s.right.forked)
    && (s.left.phase == Established ==> s.control.synAckIn)
    && (s.control.acks != {} ==> s.left.phase == Established)
    && (s.right.phase == Established ==> s.left.phase == Established)
    && (forall m :: m in s.control.synAcks ==> m == Apply(cfg.OutSeqDelta(), s.right.seqCutoff))
    && (forall m :: m in s.control.acks ==> m == s.left.seqCutoff)
    && (cfg.leftSends && s.control.synIn ==> s.flags.rightNew)
    && (!cfg.leftSends && s.control.synOut ==> s.flags.leftNew)
  }

  /** The sender's half: its cutoff covers everything the old path ever carried. */
  ghost predicate DataInv(cfg: Config, s: System) {
    && Sender(cfg, s).seqCutoff == Wrap(cfg.SenderIsn() + s.cut)
    && (forall seg :: seg in s.traffic.oldData ==> 1 <= seg.start < seg.end <= s.cut)
    && (forall seg :: seg in s.traffic.newData ==>
          1 <= seg.start < seg.end && seg.num == Wrap(cfg.WireIsn() + seg.start) && Frozen(cfg, s))
  }

  /** The receiver's half: the byte just past the cutoff arrives only together with an ack cutoff
      that is no larger. */
  ghost predicate CutoffInv(cfg: Config, s: System) {
    && (Receiver(cfg, s).validAckCut ==> Receiver(cfg, s).ackCutoff == Wrap(cfg.ReceiverIsn() + s.ackOff))
    && (!Frozen(cfg, s) ==> forall k :: k in s.received ==> k < s.cut)
    && (Edge(s) in s.received ==> Receiver(cfg, s).validAckCut && s.ackOff <= Edge(s))
    && (if cfg.leftSends then s.right.phase == Established ==> s.right.validAckCut && s.ackOff == s.cut
        else s.control.synAckIn ==> s.left.validAckCut && s.ackOff <= s.cut)
  }

  /** Every ACK the old path ever carried. */
  ghost predicate OldAcksInv(cfg: Config, s: System) {
    forall ack :: ack in s.traffic.oldAcks ==> ack.off <= Edge(s) && ack.num == Wrap(cfg.ReceiverIsn() + ack.off)
  }

  ghost predicate Inv(cfg: Config, s: System) {
    HandshakeInv(cfg, s) && DataInv(cfg, s) && CutoffInv(cfg, s) && OldAcksInv(cfg, s)
  }

  lemma StartInv(cfg: Config)
    ensures Inv(cfg, Start(cfg))
  {
  }

  /** Phases, messages and receiver flags stay, and so do the cutoffs already told to the peer. */
  ghost predicate SameHandshake(cfg: Config, s: System, s': System) {
    && s'.left.phase == s.left.phase && s'.left.forked == s.left.forked && s'.left.stateT == s.left.stateT
    && s'.right.phase == s.right.phase && s'.right.forked == s.right.forked && s'.right.stateT == s.right.stateT
    && s'.control == s.control
    && (if cfg.leftSends then s'.flags.rightNew == s.flags.rightNew else s'.flags.leftNew == s.flags.leftNew)
    && (s.right.forked ==> s'.right.seqCutoff == s.right.seqCutoff)
    && (s.left.phase == Established ==> s'.left.seqCutoff == s.left.seqCutoff)
  }

  lemma HandshakeFrame(cfg: Config, s: System, s': System)
    requires HandshakeInv(cfg, s) && SameHandshake(cfg, s, s')
    ensures HandshakeInv(cfg, s')
  {
  }

  /** How far a data segment ending at offset end moves the cutoff, and which path it takes. */
  lemma DataRoutes(a: Anchor, isn: U32, cut: nat, end: nat)
    requires !a.stateT && (a.forked <==> a.phase != OnePath) && a.seqCutoff == Wrap(isn + cut) && Near(end, cut)
    ensures var d := Send(a, true, Wrap(isn + end), 0, false);
            var frozen := a.phase == SynReceived || a.phase == Established;
            var cut' := if !frozen && end > cut then end else cut;
            && d.anchor == a.(seqCutoff := Wrap(isn + cut')) && (d.anchor.seqCutoff != a.seqCutoff <==> cut' != cut)
            && (d.route == NewPath ==> frozen) && (d.route == OldPath && frozen ==> end < cut)
  {
    SerialOrderIsOffsetOrder(isn, end, cut);
  }

  lemma SendKeeps(cfg: Config, s: System, start: nat, end: nat)
    requires Inv(cfg, s) && Enabled(cfg, s, SendData(start, end))
    ensures Inv(cfg, DataLeaves(cfg, s, start, end))
  {
    hide Wrap, Apply, Rebase, MakeDelta, Before, Send, CutoffInv, OldAcksInv;
    var isn := cfg.SenderIsn();
    WrapShift(isn + start, end - start);
    var d := Send(Sender(cfg, s), true, Wrap(isn + end), 0, false);
    assert DataLeaves(cfg, s, start, end) == DataGoes(cfg, s, start, end, d);
    DataRoutes(Sender(cfg, s), isn, s.cut, end);
    DataGoesKeeps(cfg, s, start, end, d);
  }

  /** The invariant bears the growth of the cutoff and one more segment on either path. */
  lemma DataGoesKeeps(cfg: Config, s: System, start: nat, end: nat, d: Departure)
    requires Inv(cfg, s) && 1 <= start < end
    requires var cut' := if !Frozen(cfg, s) && end > s.cut then end else s.cut;
             && d.anchor == Sender(cfg, s).(seqCutoff := Wrap(cfg.SenderIsn() + cut'))
             && (d.anchor.seqCutoff != Sender(cfg, s).seqCutoff <==> cut' != s.cut)
    requires d.route == NewPath ==> Frozen(cfg, s)
    requires d.route == OldPath && Frozen(cfg, s) ==> end < s.cut
    ensures Inv(cfg, DataGoes(cfg, s, start, end, d))
  {
    hide Wrap, Apply, Rebase, MakeDelta, Before;
    ApplyMovesOffset(cfg.rightIseq, cfg.leftIack, start);
    var s' := DataGoes(cfg, s, start, end, d);
    HandshakeFrame(cfg, s, s');
    CutoffGrows(cfg, s, s');
  }

  lemma CutoffGrows(cfg: Config, s: System, s': System)
    requires CutoffInv(cfg, s) && Receiver(cfg, s') == Receiver(cfg, s) && Frozen(cfg, s') == Frozen(cfg, s)
    requires s'.received == s.received && s'.ackOff == s.ackOff && s'.control == s.control
    requires if Frozen(cfg, s) then s'.cut == s.cut else s.cut <= s'.cut
    requires s.control.synAckIn ==> s.right.forked
    requires s.right.phase == Established ==> s.left.phase == Established
    requires s'.right.phase == s.right.phase
    ensures CutoffInv(cfg, s')
  {
  }

  lemma RelayKeeps(cfg: Config, s: System, start: nat, end: nat)
    requires Inv(cfg, s) && Enabled(cfg, s, RelayOld(start, end))
    ensures Inv(cfg, Next(cfg, s, RelayOld(start, end)))
  {
    var s' := Next(cfg, s, RelayOld(start, end));
    forall k | k in Bytes(start, end)
      ensures k < s.cut
    {
      assert LeftOld(s, k);
    }
    assert Edge(s) in s'.received ==> Edge(s) in s.received;
  }

  /** A new-path segment gives the receiver a cutoff no larger than its first byte, unless the final
      one is already in place. */
  lemma DeliverKeeps(cfg: Config, s: System, seg: Segment)
    requires Inv(cfg, s) && Enabled(cfg, s, DeliverNew(seg))
    ensures Inv(cfg, NewDataArrives(cfg, s, seg))
  {
    hide Wrap, Apply, Rebase, MakeDelta, Before;
    var s' := NewDataArrives(cfg, s, seg);
    if cfg.leftSends {
      RebaseMovesOffset(cfg.rightIack, cfg.leftIseq, seg.start);
    } else {
      RebaseMovesOffset(cfg.leftIack, cfg.leftIack, seg.start);
    }
    assert Rebased(cfg, seg.num) == Wrap(cfg.ReceiverIsn() + seg.start);
    if Receiver(cfg, s).validAckCut {
      SerialOrderIsOffsetOrder(cfg.ReceiverIsn(), seg.start, s.ackOff);
    }
    assert Receiver(cfg, s').validAckCut;
    assert s'.ackOff <= seg.start || s'.ackOff <= s.cut;
    assert s.ackOff >= s'.ackOff || !Receiver(cfg, s).validAckCut;
    assert Sender(cfg, s') == Sender(cfg, s);
    HandshakeFrame(cfg, s, s');
  }

  /** An ACK of offset off leaves on the old path with its own number or with the cutoff's. */
  lemma AckRoutes(a: Anchor, isn: U32, ackOff: nat, off: nat, fin: bool)
    requires a.validAckCut ==> a.ackCutoff == Wrap(isn + ackOff) && Near(off, ackOff)
    requires !a.stateT && (a.forked <==> a.phase != OnePath)
    ensures var d := Send(a, false, 0, Wrap(isn + off), fin);
            && d.anchor == a.(useNpAck := d.anchor.useNpAck, ackCtr := d.anchor.ackCtr)
            && (d.route == NewPath ==> d.ack == Wrap(isn + off))
            && (d.route == OldPath && a.forked && a.validAckCut ==>
                  d.ack == Wrap(isn + if off < ackOff then off else ackOff))
            && (d.route == OldPath && !(a.forked && a.validAckCut) ==> d.ack == Wrap(isn + off))
            && (a.validAckCut ==> (d.ack == Wrap(isn + off) <==> !(d.route == OldPath && a.forked && ackOff < off)))
  {
    if a.validAckCut {
      SerialOrderIsOffsetOrder(isn, off, ackOff);
    }
  }

  lemma EmitKeeps(cfg: Config, s: System, off: nat, fin: bool)
    requires Inv(cfg, s) && Enabled(cfg, s, EmitAck(off, fin))
    ensures Inv(cfg, AckLeavesTcp(cfg, s, off, fin))
  {
    hide Wrap, Apply, Rebase, MakeDelta, Before, Send;
    AckRoutes(Receiver(cfg, s), cfg.ReceiverIsn(), s.ackOff, off, fin);
    assert off > Edge(s) ==> Edge(s) in s.received;
    AckGoesKeeps(cfg, s, off, Send(Receiver(cfg, s), false, 0, Wrap(cfg.ReceiverIsn() + off), fin));
  }

  lemma AckGoesKeeps(cfg: Config, s: System, off: nat, d: Departure)
    requires Inv(cfg, s)
    requires d.anchor == Receiver(cfg, s).(useNpAck := d.anchor.useNpAck, ackCtr := d.anchor.ackCtr)
    requires var said := if d.ack == Wrap(cfg.ReceiverIsn() + off) then off else s.ackOff;
             d.route == OldPath ==> said <= Edge(s) && d.ack == Wrap(cfg.ReceiverIsn() + said)
    ensures Inv(cfg, AckGoes(cfg, s, off, d))
  {
    hide Wrap, Apply, Rebase, MakeDelta, Before;
    HandshakeFrame(cfg, s, AckGoes(cfg, s, off, d));
  }

  lemma NoteAckChangesFlag(a: Anchor, onOldPath: bool, num: U32)
    ensures var b := NoteAck(a, onOldPath, num).1;
            b == a.(useNpSeq := b.useNpSeq)
  {
  }

  lemma AckReachesKeeps(cfg: Config, s: System, onOldPath: bool, ack: AckSeg)
    requires Inv(cfg, s)
    ensures Inv(cfg, AckReaches(cfg, s, onOldPath, ack))
  {
    var num := if onOldPath then Wrap(cfg.SenderIsn() + ack.off) else ack.num;
    NoteAckChangesFlag(Sender(cfg, s), onOldPath, num);
    AckNotedKeeps(cfg, s, onOldPath, NoteAck(Sender(cfg, s), onOldPath, num));
  }

  lemma AckNotedKeeps(cfg: Config, s: System, onOldPath: bool, r: (bool, Anchor))
    requires Inv(cfg, s) && r.1 == Sender(cfg, s).(useNpSeq := r.1.useNpSeq)
    ensures Inv(cfg, AckNoted(cfg, s, onOldPath, r))
  {
    hide Wrap, Apply, Rebase, MakeDelta, Before;
    HandshakeFrame(cfg, s, AckNoted(cfg, s, onOldPath, r));
  }

  /** The message of the sending anchor names the frozen cutoff in the receiving anchor's numbering. */
  lemma MessageNamesCutoff(cfg: Config, s: System)
    requires HandshakeInv(cfg, s) && DataInv(cfg, s)
    ensures cfg.leftSends ==> forall m :: m in s.control.acks ==>
              Rebase(cfg.rightIack, cfg.leftIseq, m) == Wrap(cfg.rightIack + s.cut)
    ensures !cfg.leftSends ==> forall m :: m in s.control.synAcks ==> m == Wrap(cfg.leftIack + s.cut)
  {
    RebaseMovesOffset(cfg.rightIack, cfg.leftIseq, s.cut);
    ApplyMovesOffset(cfg.rightIseq, cfg.leftIack, s.cut);
  }

  lemma SynSideKeeps(cfg: Config, s: System, e: Step)
    requires Inv(cfg, s) && Enabled(cfg, s, e) && (e.SynOut? || e.SynIn? || e.SynAckOut?)
    ensures Inv(cfg, Next(cfg, s, e))
  {
    hide Wrap, Apply, Rebase, MakeDelta, Before;
  }

  lemma AckSideKeeps(cfg: Config, s: System, e: Step)
    requires Inv(cfg, s) && Enabled(cfg, s, e) && (e.Switch? || e.AckOut?)
    ensures Inv(cfg, Next(cfg, s, e))
  {
    hide Wrap, Apply, Rebase, MakeDelta, Before;
  }

  lemma SynAckInKeeps(cfg: Config, s: System, msg: U32)
    requires Inv(cfg, s) && Enabled(cfg, s, SynAckIn(msg))
    ensures Inv(cfg, Next(cfg, s, SynAckIn(msg)))
  {
    hide Wrap, Apply, Rebase, MakeDelta, Before;
    MessageNamesCutoff(cfg, s);
  }

  lemma AckInKeeps(cfg: Config, s: System, msg: U32)
    requires Inv(cfg, s) && Enabled(cfg, s, AckIn(msg))
    ensures Inv(cfg, Next(cfg, s, AckIn(msg)))
  {
    hide Wrap, Apply, Rebase, MakeDelta, Before;
    MessageNamesCutoff(cfg, s);
  }

  lemma StepKeeps(cfg: Config, s: System, e: Step)
    requires Inv(cfg, s) && Enabled(cfg, s, e)
    ensures Inv(cfg, Next(cfg, s, e))
  {
    match e
    case SendData(start, end) => SendKeeps(cfg, s, start, end);
    case RelayOld(start, end) => RelayKeeps(cfg, s, start, end);
    case DeliverNew(seg) => DeliverKeeps(cfg, s, seg);
    case EmitAck(off, fin) => EmitKeeps(cfg, s, off, fin);
    case OldAckArrives(ack) => AckReachesKeeps(cfg, s, true, ack);
    case NewAckArrives(ack) => AckReachesKeeps(cfg, s, false, ack);
    case SynAckIn(msg) => SynAckInKeeps(cfg, s, msg);
    case AckIn(msg) => AckInKeeps(cfg, s, msg);
    case Switch => AckSideKeeps(cfg, s, e);
    case AckOut => AckSideKeeps(cfg, s, e);
    case _ => SynSideKeeps(cfg, s, e);
  }
}
