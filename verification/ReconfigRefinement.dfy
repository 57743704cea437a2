/** The blocks of both anchors go through the runs of the two-anchor system: whatever is proved of the runs
    holds of the blocks. */
module ReconfigRefinement {
  import B = ReconfigBlocks
  import opened Numbers
  import opened PathChoice
  import opened Reconfig
  import opened ReconfigSafety
  import opened ReconfigTheorems
  import opened Serial
  import opened Translation
  import opened Wrappers

  /** What DYSCO_SYN carries. */
  function Message(l: B.Snapshot): Rcb {
    SynMessage(l.numbers, l.inNumbers)
  }

  /** The blocks of the two anchors are in the state of the system. */
  ghost predicate Simulates(cfg: Config, s: System, l: B.Snapshot, r: B.Snapshot) {
    && l.anchor == s.left && r.anchor == s.right
    && l.numbers.inIseq == cfg.leftIseq && l.numbers.inIack == cfg.leftIack
    && r.numbers.inIseq == cfg.rightIseq && r.numbers.inIack == cfg.rightIack
    && (l.newPair.Some? <==> s.control.synOut) && (r.newPair.Some? <==> s.control.synIn)
    && l.numbers.seqDelta.mag == l.numbers.ackDelta.mag == 0 && r.numbers.seqDelta.mag == r.numbers.ackDelta.mag == 0
    && (l.newPair.Some? ==> l.newPair.value.0 == LeftOutNumbers(Message(l)))
    && (r.newPair.Some? ==> r.newPair.value.0 == RightOutNumbers(r.numbers, Message(l)))
    && l.oldTwo == s.flags.leftOld && l.newTwo == s.flags.leftNew && r.newTwo == s.flags.rightNew && !r.oldTwo
    && (l.oldTwo || l.newTwo ==> l.newPair.Some?) && (r.newTwo ==> r.newPair.Some?)
  }

  /** Sessions that were never reconfigured, with the numbers of cfg. */
  ghost predicate Before(cfg: Config, l: B.Snapshot, r: B.Snapshot) {
    Simulates(cfg, Start(cfg), l, r)
  }

  // ----- the calls of a step

  function SegmentFrom(isn: U32, start: nat, end: nat): Option<B.Call> {
    if start <= end < start + 0x1_0000 then Some(B.SegmentOut(Wrap(isn + start), end - start, 0, false)) else None
  }

  /** What a step is for the sending anchor, wherever that is. */
  function SenderCall(cfg: Config, e: Step): Option<B.Call> {
    match e
    case SendData(start, end) => SegmentFrom(cfg.SenderIsn(), start, end)
    case OldAckArrives(ack) => Some(B.OldPathAckIn(Wrap(cfg.SenderIsn() + ack.off)))
    case NewAckArrives(ack) => Some(B.NewPathAckIn(ack.num))
    case _ => None
  }

  function ReceiverCall(cfg: Config, e: Step): Option<B.Call> {
    match e
    case DeliverNew(seg) => Some(B.NewPathDataIn(seg.num))
    case EmitAck(off, fin) => Some(B.SegmentOut(0, 0, Wrap(cfg.ReceiverIsn() + off), fin))
    case _ => None
  }

  function LeftCall(cfg: Config, e: Step): Option<B.Call> {
    match e
    case SynOut => Some(B.SynOut(false))
    case SynAckIn(msg) => Some(B.SynAckIn(msg))
    case Switch => Some(B.AckMsgOut(false))
    case AckOut => Some(B.AckMsgOut(false))
    case _ => if cfg.leftSends then SenderCall(cfg, e) else ReceiverCall(cfg, e)
  }

  /** `rcb` is the message of the left anchor, `was` the memory the right input block is built in. */
  function RightCall(cfg: Config, e: Step, rcb: Rcb, was: InNumbers): Option<B.Call> {
    match e
    case SynIn => Some(B.SynIn(false, rcb, was))
    case SynAckOut => Some(B.SynAckOut)
    case AckIn(msg) => Some(B.AckMsgIn(msg))
    case _ => if cfg.leftSends then ReceiverCall(cfg, e) else SenderCall(cfg, e)
  }

  function Take(s: B.Snapshot, c: Option<B.Call>): B.Snapshot {
    match c
    case None => s
    case Some(call) => B.Called(s, call)
  }

  /** The numbers of the old session stay, so the message does. */
  lemma NumbersStay(s: B.Snapshot, c: B.Call)
    ensures B.Called(s, c).numbers == s.numbers && B.Called(s, c).inNumbers == s.inNumbers
  {
    hide B.Anchored, NoteAck;
  }

  // ----- one step

  /** DYSCO_SYN. */
  lemma SynSimulates(cfg: Config, s: System, e: Step, l: B.Snapshot, r: B.Snapshot, was: InNumbers)
    requires HandshakeInv(cfg, s) && Enabled(cfg, s, e) && Simulates(cfg, s, l, r)
    requires e.SynOut? || e.SynIn?
    ensures Simulates(cfg, Next(cfg, s, e), Take(l, LeftCall(cfg, e)), Take(r, RightCall(cfg, e, Message(l), was)))
  {
    hide Wrap, Apply, Rebase, MakeDelta, LeftOutNumbers, RightOutNumbers, ReverseNumbers, RightInNumbers, SynMessage;
  }

  /** DYSCO_SYN_ACK. */
  lemma SynAckSimulates(cfg: Config, s: System, e: Step, l: B.Snapshot, r: B.Snapshot, was: InNumbers)
    requires HandshakeInv(cfg, s) && Enabled(cfg, s, e) && Simulates(cfg, s, l, r)
    requires e.SynAckOut? || e.SynAckIn?
    ensures Simulates(cfg, Next(cfg, s, e), Take(l, LeftCall(cfg, e)), Take(r, RightCall(cfg, e, Message(l), was)))
  {
    hide Wrap, Apply, Rebase, MakeDelta, LeftOutNumbers, RightOutNumbers, ReverseNumbers, RightInNumbers, SynMessage;
  }

  lemma AckSideSimulates(cfg: Config, s: System, e: Step, l: B.Snapshot, r: B.Snapshot, was: InNumbers)
    requires HandshakeInv(cfg, s) && Enabled(cfg, s, e) && Simulates(cfg, s, l, r)
    requires e.Switch? || e.AckOut? || e.AckIn?
    ensures Simulates(cfg, Next(cfg, s, e), Take(l, LeftCall(cfg, e)), Take(r, RightCall(cfg, e, Message(l), was)))
  {
    RightNumbers(r.numbers, Message(l));
    LeftMessage(l.numbers, l.inNumbers);
    hide Wrap, Apply, Rebase, MakeDelta, LeftOutNumbers, RightOutNumbers, ReverseNumbers, RightInNumbers, SynMessage;
  }

  lemma RightNumbers(o: OutNumbers, m: Rcb)
    ensures RightOutNumbers(o, m).inIack == o.inIack && RightOutNumbers(o, m).outIack == m.leftIseq
  {
  }

  lemma LeftNumbers(m: Rcb)
    ensures LeftOutNumbers(m).inIack == LeftOutNumbers(m).outIack == m.leftIack
  {
  }

  lemma LeftMessage(o: OutNumbers, i: InNumbers)
    ensures SynMessage(o, i).leftIseq == o.inIseq && SynMessage(o, i).leftIack == o.inIack
  {
  }

  lemma SendSimulates(cfg: Config, s: System, start: nat, end: nat, l: B.Snapshot, r: B.Snapshot, was: InNumbers)
    requires Enabled(cfg, s, SendData(start, end)) && Simulates(cfg, s, l, r)
    ensures var e := SendData(start, end);
            Simulates(cfg, Next(cfg, s, e), Take(l, LeftCall(cfg, e)), Take(r, RightCall(cfg, e, Message(l), was)))
  {
    hide Wrap, Apply, Rebase, MakeDelta, Send, LeftOutNumbers, RightOutNumbers, SynMessage;
  }

  lemma CalledAck(s: B.Snapshot, ack: U32, fin: bool)
    ensures B.Called(s, B.SegmentOut(0, 0, ack, fin)) == s.(anchor := Send(s.anchor, false, 0, ack, fin).anchor)
  {
    hide Send;
  }

  lemma EmitSimulates(cfg: Config, s: System, off: nat, fin: bool, l: B.Snapshot, r: B.Snapshot, was: InNumbers)
    requires Simulates(cfg, s, l, r)
    ensures var e := EmitAck(off, fin);
            Simulates(cfg, Next(cfg, s, e), Take(l, LeftCall(cfg, e)), Take(r, RightCall(cfg, e, Message(l), was)))
  {
    hide Wrap, Apply, Rebase, MakeDelta, Send, LeftOutNumbers, RightOutNumbers, SynMessage, B.Called;
    CalledAck(l, Wrap(cfg.ReceiverIsn() + off), fin);
    CalledAck(r, Wrap(cfg.ReceiverIsn() + off), fin);
  }

  lemma DeliverSimulates(cfg: Config, s: System, seg: Segment, l: B.Snapshot, r: B.Snapshot, was: InNumbers)
    requires Simulates(cfg, s, l, r)
    ensures var e := DeliverNew(seg);
            Simulates(cfg, Next(cfg, s, e), Take(l, LeftCall(cfg, e)), Take(r, RightCall(cfg, e, Message(l), was)))
  {
    RightNumbers(r.numbers, Message(l));
    LeftNumbers(Message(l));
    LeftMessage(l.numbers, l.inNumbers);
    hide Wrap, Apply, Rebase, MakeDelta, NoteNewPathData, LeftOutNumbers, RightOutNumbers, SynMessage;
  }

  lemma AckSimulates(cfg: Config, s: System, e: Step, l: B.Snapshot, r: B.Snapshot, was: InNumbers)
    requires Simulates(cfg, s, l, r) && (e.OldAckArrives? || e.NewAckArrives?)
    ensures Simulates(cfg, Next(cfg, s, e), Take(l, LeftCall(cfg, e)), Take(r, RightCall(cfg, e, Message(l), was)))
  {
    hide Wrap, Apply, Rebase, MakeDelta, NoteAck, LeftOutNumbers, RightOutNumbers, SynMessage;
  }

  lemma StepSimulates(cfg: Config, s: System, e: Step, l: B.Snapshot, r: B.Snapshot, was: InNumbers)
    requires Inv(cfg, s) && Enabled(cfg, s, e) && Simulates(cfg, s, l, r)
    ensures Simulates(cfg, Next(cfg, s, e), Take(l, LeftCall(cfg, e)), Take(r, RightCall(cfg, e, Message(l), was)))
  {
    match e
    case SendData(start, end) => SendSimulates(cfg, s, start, end, l, r, was);
    case EmitAck(off, fin) => EmitSimulates(cfg, s, off, fin, l, r, was);
    case DeliverNew(seg) => DeliverSimulates(cfg, s, seg, l, r, was);
    case OldAckArrives(_) => AckSimulates(cfg, s, e, l, r, was);
    case NewAckArrives(_) => AckSimulates(cfg, s, e, l, r, was);
    case RelayOld(_, _) =>
    case Switch => AckSideSimulates(cfg, s, e, l, r, was);
    case AckOut => AckSideSimulates(cfg, s, e, l, r, was);
    case AckIn(_) => AckSideSimulates(cfg, s, e, l, r, was);
    case SynAckOut => SynAckSimulates(cfg, s, e, l, r, was);
    case SynAckIn(_) => SynAckSimulates(cfg, s, e, l, r, was);
    case _ => SynSimulates(cfg, s, e, l, r, was);
  }

  function SendingBlocks(cfg: Config, l: B.Snapshot, r: B.Snapshot): B.Snapshot { if cfg.leftSends then l else r }
  function ReceivingBlocks(cfg: Config, l: B.Snapshot, r: B.Snapshot): B.Snapshot { if cfg.leftSends then r else l }

  // ----- what leaves the blocks is what the step puts on the way

  lemma DataOnWire(cfg: Config, s: System, start: nat, end: nat, l: B.Snapshot, r: B.Snapshot)
    requires HandshakeInv(cfg, s) && Enabled(cfg, s, SendData(start, end)) && Simulates(cfg, s, l, r)
    ensures var (route, num, _) := B.Leaving(SendingBlocks(cfg, l, r), Wrap(cfg.SenderIsn() + start), end - start, 0, false);
            Next(cfg, s, SendData(start, end)).traffic
            == if route == NewPath then s.traffic.(newData := s.traffic.newData + {Segment(start, end, num)})
               else s.traffic.(oldData := s.traffic.oldData + {Segment(start, end, num)})
  {
    DeltasOfPairs(cfg, s, l, r);
    UnforkedSends(Sender(cfg, s), true, Wrap(Wrap(cfg.SenderIsn() + start) + (end - start)), 0, false);
    hide Wrap, Rebase, MakeDelta, Send, LeftOutNumbers, RightOutNumbers, SynMessage;
  }

  lemma AckOnWire(cfg: Config, s: System, off: nat, fin: bool, l: B.Snapshot, r: B.Snapshot) returns (said: nat)
    requires HandshakeInv(cfg, s) && Enabled(cfg, s, EmitAck(off, fin)) && Simulates(cfg, s, l, r)
    ensures var (route, _, num) := B.Leaving(ReceivingBlocks(cfg, l, r), 0, 0, Wrap(cfg.ReceiverIsn() + off), fin);
            Next(cfg, s, EmitAck(off, fin)).traffic
            == if route == NewPath then s.traffic.(newAcks := s.traffic.newAcks + {AckSeg(said, num)})
               else s.traffic.(oldAcks := s.traffic.oldAcks + {AckSeg(said, num)})
  {
    DeltasOfPairs(cfg, s, l, r);
    UnforkedSends(Receiver(cfg, s), false, 0, Wrap(cfg.ReceiverIsn() + off), fin);
    said := if Send(Receiver(cfg, s), false, 0, Wrap(cfg.ReceiverIsn() + off), fin).ack == Wrap(cfg.ReceiverIsn() + off)
            then off else s.ackOff;
    hide Wrap, Rebase, MakeDelta, Send, LeftOutNumbers, RightOutNumbers, SynMessage;
  }

  /** A session that has not forked sends on the old path with its own numbers. */
  lemma UnforkedSends(a: Anchor, data: bool, end: U32, ack: U32, fin: bool)
    ensures !a.forked ==> Send(a, data, end, ack, fin).route == OldPath && Send(a, data, end, ack, fin).ack == ack
  {
  }

  lemma DeltasOfPairs(cfg: Config, s: System, l: B.Snapshot, r: B.Snapshot)
    requires HandshakeInv(cfg, s) && Simulates(cfg, s, l, r)
    ensures s.left.forked ==> l.newPair.Some? && l.newPair.value.0.seqDelta.mag == l.newPair.value.0.ackDelta.mag == 0
    ensures s.right.forked ==>
              && r.newPair.Some? && r.newPair.value.0.seqDelta == cfg.OutSeqDelta()
              && r.newPair.value.0.ackDelta == cfg.OutAckDelta()
  {
    hide MakeDelta;
  }

  /** The cutoffs that the blocks name in SYN_ACK and ACK are those the step hands to the network. */
  lemma MessagesOnWire(cfg: Config, s: System, l: B.Snapshot, r: B.Snapshot)
    requires HandshakeInv(cfg, s) && Simulates(cfg, s, l, r)
    ensures Enabled(cfg, s, SynAckOut) ==>
              && r.newPair.Some?
              && Next(cfg, s, SynAckOut).control.synAcks
                 == s.control.synAcks + {Apply(r.newPair.value.0.seqDelta, r.anchor.seqCutoff)}
    ensures Enabled(cfg, s, AckOut) ==> Next(cfg, s, AckOut).control.acks == s.control.acks + {l.anchor.seqCutoff}
  {
    hide MakeDelta, Apply, Wrap;
  }

  // ----- runs

  function OneOrNone(c: Option<B.Call>): seq<B.Call> {
    match c
    case None => []
    case Some(call) => [call]
  }

  /** The calls of the first steps at each anchor. */
  function LeftCalls(cfg: Config, steps: seq<Step>): seq<B.Call> {
    if steps == [] then [] else LeftCalls(cfg, steps[..|steps| - 1]) + OneOrNone(LeftCall(cfg, steps[|steps| - 1]))
  }

  function RightCalls(cfg: Config, steps: seq<Step>, rcb: Rcb, was: InNumbers): seq<B.Call> {
    if steps == [] then []
    else RightCalls(cfg, steps[..|steps| - 1], rcb, was) + OneOrNone(RightCall(cfg, steps[|steps| - 1], rcb, was))
  }

  lemma CalledOneMore(s: B.Snapshot, calls: seq<B.Call>, c: Option<B.Call>)
    ensures B.CalledAll(s, calls + OneOrNone(c)) == Take(B.CalledAll(s, calls), c)
  {
    match c
    case None => assert calls + [] == calls;
    case Some(call) => assert (calls + [call])[..|calls|] == calls;
  }

  lemma {:induction false} MessageStays(s: B.Snapshot, calls: seq<B.Call>)
    ensures Message(B.CalledAll(s, calls)) == Message(s)
  {
    if calls != [] {
      MessageStays(s, calls[..|calls| - 1]);
      NumbersStay(B.CalledAll(s, calls[..|calls| - 1]), calls[|calls| - 1]);
      hide B.Called;
    }
  }

  lemma RunLength(cfg: Config, states: seq<System>, steps: seq<Step>)
    requires IsRun(cfg, states, steps)
    ensures |states| == |steps| + 1 && states[0] == Start(cfg)
    ensures forall l, r :: Before(cfg, l, r) ==> Simulates(cfg, states[0], l, r)
  {
  }

  lemma StepOf(cfg: Config, states: seq<System>, steps: seq<Step>, i: nat)
    requires IsRun(cfg, states, steps) && i < |steps|
    ensures |states| == |steps| + 1 && Inv(cfg, states[i]) && Enabled(cfg, states[i], steps[i])
    ensures states[i + 1] == Next(cfg, states[i], steps[i])
  {
    RunInv(cfg, states, steps, i);
  }

  lemma StartSimulates(cfg: Config, states: seq<System>, steps: seq<Step>, l: B.Snapshot, r: B.Snapshot, was: InNumbers)
    requires IsRun(cfg, states, steps) && Before(cfg, l, r)
    ensures Simulates(cfg, states[0], B.CalledAll(l, LeftCalls(cfg, steps[..0])),
                      B.CalledAll(r, RightCalls(cfg, steps[..0], Message(l), was)))
  {
    hide Simulates;
  }

  lemma CallsOneMore(cfg: Config, steps: seq<Step>, rcb: Rcb, was: InNumbers, i: nat)
    requires 0 < i <= |steps|
    ensures LeftCalls(cfg, steps[..i]) == LeftCalls(cfg, steps[..i - 1]) + OneOrNone(LeftCall(cfg, steps[i - 1]))
    ensures RightCalls(cfg, steps[..i], rcb, was)
            == RightCalls(cfg, steps[..i - 1], rcb, was) + OneOrNone(RightCall(cfg, steps[i - 1], rcb, was))
  {
    hide OneOrNone, LeftCall, RightCall;
    assert steps[..i][..i - 1] == steps[..i - 1];
  }

  /** After the calls of the first i steps of a run the blocks of both anchors are in its i-th state. */
  lemma {:induction false} BlocksRunTheSystem(cfg: Config, states: seq<System>, steps: seq<Step>, l: B.Snapshot, r: B.Snapshot,
                                              was: InNumbers, i: nat)
    requires IsRun(cfg, states, steps) && i <= |steps| && Before(cfg, l, r)
    ensures Simulates(cfg, states[i], B.CalledAll(l, LeftCalls(cfg, steps[..i])),
                      B.CalledAll(r, RightCalls(cfg, steps[..i], Message(l), was)))
  {
    StartSimulates(cfg, states, steps, l, r, was);
    if i > 0 {
      hide *;
      BlocksRunTheSystem(cfg, states, steps, l, r, was, i - 1);
      StepOf(cfg, states, steps, i - 1);
      CallsOneMore(cfg, steps, Message(l), was, i);
      var lefts, rights := LeftCalls(cfg, steps[..i - 1]), RightCalls(cfg, steps[..i - 1], Message(l), was);
      MessageStays(l, lefts);
      StepSimulates(cfg, states[i - 1], steps[i - 1], B.CalledAll(l, lefts), B.CalledAll(r, rights), was);
      CalledOneMore(l, lefts, LeftCall(cfg, steps[i - 1]));
      CalledOneMore(r, rights, RightCall(cfg, steps[i - 1], Message(l), was));
    }
  }

  /** What the cutoff theorem says of the blocks: each delivery of the sender's message leaves the sender's
      final cutoff in the receiver's old block, in the receiver's own numbering, and that cutoff is at or past
      every byte that ever left on the old path. */
  lemma BlocksAgreeOnCutoff(cfg: Config, states: seq<System>, steps: seq<Step>, l: B.Snapshot, r: B.Snapshot,
                            was: InNumbers, i: nat, j: nat)
    requires IsRun(cfg, states, steps) && i < j <= |steps| && Before(cfg, l, r)
    requires if cfg.leftSends then steps[i].AckIn? else steps[i].SynAckIn? && states[i].left.phase != Established
    ensures var l1, l2 := B.CalledAll(l, LeftCalls(cfg, steps[..i + 1])), B.CalledAll(l, LeftCalls(cfg, steps[..j]));
            var r1 := B.CalledAll(r, RightCalls(cfg, steps[..i + 1], Message(l), was));
            var r2 := B.CalledAll(r, RightCalls(cfg, steps[..j], Message(l), was));
            && ReceivingBlocks(cfg, l1, r1).anchor.validAckCut
            && ReceivingBlocks(cfg, l1, r1).anchor.ackCutoff == Wrap(cfg.ReceiverIsn() + states[j].cut)
            && SendingBlocks(cfg, l2, r2).anchor.seqCutoff == Wrap(cfg.SenderIsn() + states[j].cut)
            && forall seg :: seg in states[j].traffic.oldData ==> seg.end <= states[j].cut
  {
    hide Wrap, Next, Enabled, Inv, B.CalledAll, LeftCalls, RightCalls, Message;
    BlocksRunTheSystem(cfg, states, steps, l, r, was, i + 1);
    BlocksRunTheSystem(cfg, states, steps, l, r, was, j);
    InstalledCutoffIsPeersCutoff(cfg, states, steps, i, j);
    forall seg | seg in states[j].traffic.oldData
      ensures seg.end <= states[j].cut
    {
      OldPathDataStaysBelowCutoff(cfg, states, steps, j, j, seg);
    }
  }

  /** Both anchors' blocks are linked and have no block in common. */
  ghost predicate Apart(left: B.Reconfiguration, right: B.Reconfiguration)
    reads left.Blocks(), right.Blocks()
  {
    left.Linked() && right.Linked() && left.Blocks() !! right.Blocks()
  }

  /** The linked blocks themselves, in the hands of the network: step after step of a run is handed to the
      anchor it is for, and at the end both anchors' blocks are in the last state of the run. */
  method RunBlocks(left: B.Reconfiguration, right: B.Reconfiguration, cfg: Config, ghost states: seq<System>, steps: seq<Step>,
                   was: InNumbers)
    requires Apart(left, right) && IsRun(cfg, states, steps) && Before(cfg, left.Snap(), right.Snap())
    modifies left.Blocks(), right.Blocks()
    ensures Apart(left, right) && Simulates(cfg, states[|steps|], left.Snap(), right.Snap())
  {
    hide Next, Enabled, Inv, Simulates, Start, IsRun, left.Linked, left.Snap;
    RunLength(cfg, states, steps);
    for i := 0 to |steps|
      invariant Apart(left, right)
      invariant fresh(left.Blocks() - old(left.Blocks())) && fresh(right.Blocks() - old(right.Blocks()))
      invariant left.Linked() && right.Linked() && Simulates(cfg, states[i], left.Snap(), right.Snap())
    {
      StepOf(cfg, states, steps, i);
      RunStep(left, right, cfg, states[i], steps[i], was);
    }
  }

  /** One step of a run. */
  method RunStep(left: B.Reconfiguration, right: B.Reconfiguration, cfg: Config, ghost s: System, e: Step, was: InNumbers)
    requires Apart(left, right) && Inv(cfg, s) && Enabled(cfg, s, e) && Simulates(cfg, s, left.Snap(), right.Snap())
    modifies left.Blocks(), right.Blocks()
    ensures Apart(left, right) && left.Linked() && right.Linked()
    ensures fresh(left.Blocks() - old(left.Blocks())) && fresh(right.Blocks() - old(right.Blocks()))
    ensures Simulates(cfg, Next(cfg, s, e), left.Snap(), right.Snap())
  {
    MessageOf(left);
    hide Next, Enabled, Inv, Simulates, LeftCall, RightCall, B.Called, Message, left.Linked, left.Snap, left.Blocks;
    ghost var l, r := left.Snap(), right.Snap();
    var rcb := SynMessage(left.oldDcb.numbers, left.oldIn.numbers);
    HandBeside(left, right, LeftCall(cfg, e));
    HandBeside(right, left, RightCall(cfg, e, rcb, was));
    StepSimulates(cfg, s, e, l, r, was);
  }

  /** A call to one anchor leaves the other's blocks alone. */
  method HandBeside(b: B.Reconfiguration, other: B.Reconfiguration, c: Option<B.Call>)
    requires b.Linked() && other.Linked() && b.Blocks() !! other.Blocks()
    modifies b.Blocks()
    ensures b.Linked() && fresh(b.Blocks() - old(b.Blocks())) && b.Snap() == Take(old(b.Snap()), c)
    ensures other.Linked() && other.Blocks() == old(other.Blocks()) && other.Snap() == old(other.Snap())
    ensures b.Blocks() !! other.Blocks()
  {
    hide b.Linked, b.Snap;
    Hand(b, c);
  }

  lemma MessageOf(b: B.Reconfiguration)
    requires b.Linked()
    ensures Message(b.Snap()) == SynMessage(b.oldDcb.numbers, b.oldIn.numbers)
  {
  }

  method Hand(b: B.Reconfiguration, c: Option<B.Call>)
    requires b.Linked()
    modifies b.Blocks()
    ensures b.Linked() && fresh(b.Blocks() - old(b.Blocks()))
    ensures b.Snap() == Take(old(b.Snap()), c) && Message(b.Snap()) == old(Message(b.Snap()))
  {
    match c {
      case None =>
      case Some(call) =>
        NumbersStay(b.Snap(), call);
        hide B.Called;
        b.Handle(call);
    }
  }
}
