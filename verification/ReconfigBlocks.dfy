/** The blocks of one anchor linked as the kernel links them: the old path's output and input block, the
    new path's pair, and the reconfiguration block that names them. Every call keeps the links, and any
    sequence of calls computes what AnchorRuns says of the anchor. */
module ReconfigBlocks {
  import A = AnchorRuns
  import opened ControlBlock
  import opened Numbers
  import opened PathChoice
  import opened Serial
  import opened Translation
  import opened Wrappers

  /** What reaches an anchor: segments of its stack, segments and ACKs of either path with the numbers they
      carry there, and control messages. */
  datatype Call =
    | SegmentOut(seqNum: U32, size: U16, ack: U32, fin: bool)
    | NewPathDataIn(seqNum: U32)
    | OldPathAckIn(ack: U32)
    | NewPathAckIn(ack: U32)
    | SynOut(semantic: bool)
    | SynIn(semantic: bool, rcb: Rcb, was: InNumbers)
    | SynAckOut
    | SynAckIn(cutoff: U32)
    | AckMsgOut(semantic: bool)
    | AckMsgIn(cutoff: U32)
    | TransferredAtLeft
    | TransferredAtRight

  /** What the linked blocks hold: the anchor is the old path's output block, newPair the
      blocks of the new path, and the flags are two_paths of the two input blocks. */
  datatype Snapshot = Snapshot(anchor: Anchor, numbers: OutNumbers, inNumbers: InNumbers,
                               newPair: Option<(OutNumbers, InNumbers)>, oldTwo: bool, newTwo: bool)

  /** The event that a call is for the anchor, if it passes the tests in front: a reconfiguration block is
      looked up for most messages, and two_paths for what comes in. */
  function EventOf(s: Snapshot, c: Call): Option<A.Event> {
    var known := s.newPair.Some?;
    match c
    case SegmentOut(seqNum, size, ack, fin) =>
      Some(if size > 0 then A.DataOut(Wrap(seqNum + size)) else A.AckOut(ack, fin))
    case NewPathDataIn(seqNum) =>
      if known && s.newTwo then Some(A.NewPathDataIn(Mine(s.newPair.value.0, seqNum))) else None
    case OldPathAckIn(ack) => if s.oldTwo then Some(A.AckIn(true, ack)) else None
    case NewPathAckIn(ack) => if known && s.newTwo then Some(A.AckIn(false, ack)) else None
    case SynOut(semantic) => if known then None else Some(A.SynOut(semantic))
    case SynIn(semantic, _, _) => if known then None else Some(A.SynIn(semantic))
    case SynAckOut => if known then Some(A.SynAckOut) else None
    case SynAckIn(cutoff) => Some(A.SynAckIn(cutoff))
    case AckMsgOut(semantic) => if known then Some(A.AckMsgOut(semantic)) else None
    case AckMsgIn(cutoff) => if known then Some(A.AckMsgIn(Mine(s.newPair.value.0, cutoff))) else None
    case TransferredAtLeft => if known then Some(A.TransferredAtLeft) else None
    case TransferredAtRight => if known then Some(A.TransferredAtRight) else None
  }

  /** A number of the new path in the old session's numbering. */
  function Mine(n: OutNumbers, x: U32): U32 {
    Rebase(n.inIack, n.outIack, x)
  }

  function Anchored(s: Snapshot, c: Call): Anchor {
    match EventOf(s, c)
    case None => s.anchor
    case Some(e) => A.React(s.anchor, e)
  }

  /** What a call leaves. */
  function Called(s: Snapshot, c: Call): Snapshot {
    var s' := s.(anchor := Anchored(s, c));
    match c
    case OldPathAckIn(ack) => if s.oldTwo then s'.(oldTwo := NoteAck(s.anchor, true, ack).0) else s'
    case NewPathAckIn(ack) => if s.newPair.Some? && s.newTwo then s'.(newTwo := NoteAck(s.anchor, false, ack).0) else s'
    case SynOut(_) =>
      if s.newPair.Some? then s'
      else
        var o := LeftOutNumbers(SynMessage(s.numbers, s.inNumbers));
        s'.(newPair := Some((o, ReverseNumbers(o))), oldTwo := true, newTwo := true)
    case SynIn(_, r, was) =>
      if s.newPair.Some? then s'
      else
        var o, i := RightOutNumbers(s.numbers, r), RightInNumbers(was, s.numbers, s.inNumbers, r);
        s'.(newPair := Some((o, i)), newTwo := true)
    case _ => s'
  }

  /** What a segment of the local stack becomes: its path, and the numbers it leaves with. */
  function Leaving(s: Snapshot, seqNum: U32, size: U16, ack: U32, fin: bool): (Route, U32, U32) {
    var d := Send(s.anchor, size > 0, Wrap(seqNum + size), ack, fin);
    if !s.anchor.forked then (OldPath, seqNum, ack)
    else if d.route == NewPath && s.newPair.Some? then
      (NewPath, Apply(s.newPair.value.0.seqDelta, seqNum), Apply(s.newPair.value.0.ackDelta, d.ack))
    else (OldPath, Apply(s.numbers.seqDelta, seqNum), Apply(s.numbers.ackDelta, d.ack))
  }

  function CalledAll(s: Snapshot, calls: seq<Call>): Snapshot {
    if calls == [] then s else Called(CalledAll(s, calls[..|calls| - 1]), calls[|calls| - 1])
  }

  function EventsOf(s: Snapshot, calls: seq<Call>): seq<A.Event> {
    if calls == [] then []
    else
      var before := calls[..|calls| - 1];
      EventsOf(s, before) + match EventOf(CalledAll(s, before), calls[|calls| - 1]) case None => [] case Some(e) => [e]
  }

  /** Calls without state transfer are events without. */
  predicate Plain(calls: seq<Call>) {
    forall i | 0 <= i < |calls| ::
      && (calls[i].SynOut? || calls[i].SynIn? || calls[i].AckMsgOut? ==> !calls[i].semantic)
      && !calls[i].TransferredAtLeft? && !calls[i].TransferredAtRight?
  }

  lemma CalledAnchor(s: Snapshot, c: Call)
    ensures Called(s, c).anchor == Anchored(s, c)
  {
    hide Anchored, NoteAck;
  }

  /** The old path's output block after any calls is the anchor of AnchorRuns after their events. */
  lemma {:induction false} BlocksRunTheAnchor(s: Snapshot, calls: seq<Call>)
    ensures CalledAll(s, calls).anchor == A.At(s.anchor, EventsOf(s, calls))
  {
    if calls != [] {
      var n := |calls| - 1;
      BlocksRunTheAnchor(s, calls[..n]);
      var before, events := CalledAll(s, calls[..n]), EventsOf(s, calls[..n]);
      CalledAnchor(before, calls[n]);
      hide A.React, Called, EventOf;
      match EventOf(before, calls[n])
      case None =>
        assert EventsOf(s, calls) == events;
      case Some(e) =>
        assert EventsOf(s, calls) == events + [e];
        assert (events + [e])[..|events|] == events;
    }
  }

  lemma PlainEvent(s: Snapshot, c: Call)
    requires (c.SynOut? || c.SynIn? || c.AckMsgOut? ==> !c.semantic) && !c.TransferredAtLeft? && !c.TransferredAtRight?
    ensures EventOf(s, c).Some? ==> A.NoTransfer([EventOf(s, c).value])
  {
  }

  lemma {:induction false} PlainEvents(s: Snapshot, calls: seq<Call>)
    requires Plain(calls)
    ensures A.NoTransfer(EventsOf(s, calls))
  {
    if calls != [] {
      var n := |calls| - 1;
      PlainEvents(s, calls[..n]);
      var before, events := CalledAll(s, calls[..n]), EventsOf(s, calls[..n]);
      PlainEvent(before, calls[n]);
      hide CalledAll, Called, EventOf;
      match EventOf(before, calls[n])
      case None =>
        assert EventsOf(s, calls) == events;
      case Some(e) =>
        assert EventsOf(s, calls) == events + [e];
        NoTransferTogether(events, e);
    }
  }

  lemma NoTransferTogether(events: seq<A.Event>, e: A.Event)
    requires A.NoTransfer(events) && A.NoTransfer([e])
    ensures A.NoTransfer(events + [e])
  {
    assert [e][0] == e;
  }

  /** So whatever reaches the blocks of a fresh session, without state transfer they cap two ACKs at most,
      and the new-path flag is up exactly when they did. */
  lemma BlocksCapAtMostTwo(s: Snapshot, calls: seq<Call>)
    requires A.Fresh(s.anchor) && Plain(calls)
    ensures var a := CalledAll(s, calls).anchor;
            a.ackCtr <= 2 && (a.useNpAck <==> a.ackCtr == 2) && a.ackCtr == A.Capped(s.anchor, EventsOf(s, calls))
  {
    BlocksRunTheAnchor(s, calls);
    PlainEvents(s, calls);
    A.CapCounter(s.anchor, EventsOf(s, calls));
  }

  /** Data takes no notice of its ack number, ACKs none of their sequence number. */
  lemma SentAs(a: Anchor, data: bool, end: U32, ack: U32, fin: bool)
    ensures data ==> Send(a, true, end, ack, fin).anchor == Send(a, true, end, 0, false).anchor
    ensures !data ==> Send(a, false, end, ack, fin).anchor == Send(a, false, 0, ack, fin).anchor
  {
    hide Before, After;
  }

  /** dysco_cb_reconfig and the blocks of the session it reconfigures. */
  class Reconfiguration {
    const oldDcb: CbOut
    const oldIn: CbIn
    var newDcb: CbOut?

    ghost function Blocks(): set<object>
      reads this, newDcb
    {
      {this, oldDcb, oldIn} + if newDcb == null then {} else if newDcb.dcbIn == null then {newDcb} else {newDcb, newDcb.dcbIn}
    }

    /** The links agree: output and input block of each path name each other; once there is a new path, its
        output block names the old one and is not on the old path; the old block names the new one, and is
        on the old path, exactly when it has forked. */
    ghost predicate Linked()
      reads Blocks()
    {
      && oldDcb.dcbIn == oldIn && oldIn.dcbOut == oldDcb
      && (oldDcb.otherPath != null <==> oldDcb.oldPath) && (oldDcb.otherPath != null ==> oldDcb.otherPath == newDcb)
      && (oldIn.twoPaths ==> oldDcb.oldPath)
      && (newDcb != null ==>
            && newDcb != oldDcb && newDcb.otherPath == oldDcb && !newDcb.oldPath
            && newDcb.dcbIn != null && newDcb.dcbIn != oldIn && newDcb.dcbIn.dcbOut == newDcb)
    }

    ghost function Snap(): Snapshot
      requires Linked()
      reads Blocks()
    {
      Snapshot(oldDcb.View(), oldDcb.numbers, oldIn.numbers,
               if newDcb == null then None else Some((newDcb.numbers, newDcb.dcbIn.numbers)),
               oldIn.twoPaths, newDcb != null && newDcb.dcbIn.twoPaths)
    }

    /** A session that was never reconfigured. */
    constructor (out: CbOut, inp: CbIn)
      requires out.dcbIn == inp && inp.dcbOut == out && out.otherPath == null && !out.oldPath && !inp.twoPaths
      ensures oldDcb == out && oldIn == inp && newDcb == null && Linked()
    {
      oldDcb, oldIn, newDcb := out, inp, null;
    }

    /** A segment of the local stack, by the old path's block; the block chosen is one of the two. */
    method SendSegment(seqNum: U32, size: U16, ack: U32, fin: bool) returns (dcb: CbOut, newSeq: U32, newAck: U32)
      requires Linked()
      modifies Blocks()
      ensures Linked() && newDcb == old(newDcb) && Blocks() == old(Blocks())
      ensures Snap() == Called(old(Snap()), SegmentOut(seqNum, size, ack, fin))
      ensures dcb == oldDcb || dcb == newDcb
      ensures (if dcb == oldDcb then OldPath else NewPath, newSeq, newAck) == Leaving(old(Snap()), seqNum, size, ack, fin)
    {
      hide Send, Before, Apply;
      SentAs(oldDcb.View(), size > 0, Wrap(seqNum + size), ack, fin);
      dcb, newSeq, newAck := oldDcb.OutTranslate(seqNum, size, ack, fin);
    }

    /** A data segment that came in on the new path. */
    method ReceiveData(seqNum: U32)
      requires Linked()
      modifies Blocks()
      ensures Linked() && newDcb == old(newDcb) && Blocks() == old(Blocks())
      ensures Snap() == Called(old(Snap()), NewPathDataIn(seqNum))
    {
      hide NoteNewPathData, Rebase;
      if newDcb != null && newDcb.dcbIn.twoPaths {
        var ok := newDcb.dcbIn.TwoPathsDataSeg(seqNum);
      }
    }

    /** An ACK that came in on either path. */
    method ReceiveAckSegment(onOldPath: bool, ack: U32)
      requires Linked()
      modifies Blocks()
      ensures Linked() && newDcb == old(newDcb) && Blocks() == old(Blocks())
      ensures Snap() == Called(old(Snap()), if onOldPath then OldPathAckIn(ack) else NewPathAckIn(ack))
    {
      hide NoteAck;
      if onOldPath {
        if oldIn.twoPaths {
          oldIn.TwoPathsAck(ack);
        }
      } else if newDcb != null && newDcb.dcbIn.twoPaths {
        newDcb.dcbIn.TwoPathsAck(ack);
      }
    }

    /** DYSCO_SYN leaves the left anchor, first or resent. */
    method SendSyn(semantic: bool)
      requires Linked()
      modifies Blocks()
      ensures Linked() && fresh(Blocks() - old(Blocks()))
      ensures Snap() == Called(old(Snap()), SynOut(semantic))
    {
      hide LeftOutNumbers, SynMessage, ReverseNumbers;
      if newDcb == null {
        newDcb := oldDcb.OutputSyn(semantic);
      }
    }

    /** DYSCO_SYN arrives at the right anchor: dysco_control_reconfig_in and dysco_control_config_rightA. */
    method ReceiveSyn(semantic: bool, r: Rcb, was: InNumbers)
      requires Linked()
      modifies Blocks()
      ensures Linked() && fresh(Blocks() - old(Blocks()))
      ensures Snap() == Called(old(Snap()), SynIn(semantic, r, was))
    {
      hide RightOutNumbers, RightInNumbers;
      if newDcb == null {
        var out, inp := BuildPair(r, was);
        inp.twoPaths := true;
        newDcb := out;
        out.otherPath := oldDcb;
        if semantic {
          oldDcb.stateT := true;
        }
      }
    }

    /** The right anchor's new pair with its deltas. */
    method BuildPair(r: Rcb, was: InNumbers) returns (out: CbOut, inp: CbIn)
      requires oldDcb.dcbIn == oldIn
      ensures fresh(out) && fresh(inp) && out.dcbIn == inp && inp.dcbOut == out && !out.oldPath
      ensures out.numbers == RightOutNumbers(oldDcb.numbers, r)
      ensures inp.numbers == RightInNumbers(was, oldDcb.numbers, oldIn.numbers, r)
    {
      SameMemory(was, oldDcb.numbers, oldIn.numbers, r);
      hide RightOutNumbers, RightInNumbers;
      inp := new CbIn(null, was.(inIseq := r.leftIseq, inIack := r.leftIack), false);
      out := new CbOut(BuiltInReverse(r));
      out.dcbIn := inp;
      inp.dcbOut := out;
      inp.ComputeDeltasIn(oldDcb, r);
      out.ComputeDeltasOut(oldDcb, r);
    }

    lemma SameMemory(was: InNumbers, o: OutNumbers, i: InNumbers, r: Rcb)
      ensures RightInNumbers(was.(inIseq := r.leftIseq, inIack := r.leftIack), o, i, r) == RightInNumbers(was, o, i, r)
    {
    }

    /** DYSCO_SYN_ACK leaves the right anchor; it names the cutoff in the wire's numbering. */
    method SendSynAck() returns (cutoff: U32)
      requires Linked()
      modifies Blocks()
      ensures Linked() && newDcb == old(newDcb) && Blocks() == old(Blocks())
      ensures Snap() == Called(old(Snap()), SynAckOut)
      ensures newDcb != null ==> cutoff == Apply(newDcb.numbers.seqDelta, oldDcb.seqCutoff)
    {
      cutoff := 0;
      if newDcb != null {
        cutoff := oldDcb.ReplaceRightA(newDcb);
      }
    }

    /** DYSCO_SYN_ACK at the left anchor and DYSCO_ACK at the right one. */
    method ReceiveCutoff(atLeft: bool, cutoff: U32)
      requires Linked()
      modifies Blocks()
      ensures Linked() && newDcb == old(newDcb) && Blocks() == old(Blocks())
      ensures Snap() == Called(old(Snap()), if atLeft then SynAckIn(cutoff) else AckMsgIn(cutoff))
    {
      hide Rebase;
      if atLeft {
        oldDcb.ReceiveSynAck(cutoff);
      } else if newDcb != null {
        oldDcb.ReceiveAck(cutoff);
      }
    }

    /** DYSCO_ACK leaves the left anchor: with state transfer it does not replace the block. */
    method SendAck(semantic: bool)
      requires Linked()
      modifies Blocks()
      ensures Linked() && newDcb == old(newDcb) && Blocks() == old(Blocks())
      ensures Snap() == Called(old(Snap()), AckMsgOut(semantic))
    {
      if newDcb != null && !semantic && !oldDcb.stateT {
        var cutoff := oldDcb.ReplaceLeftA();
      }
    }

    /** DYSCO_STATE_TRANSFERRED. */
    method ReceiveTransferred(atLeft: bool)
      requires Linked()
      modifies Blocks()
      ensures Linked() && newDcb == old(newDcb) && Blocks() == old(Blocks())
      ensures Snap() == Called(old(Snap()), if atLeft then TransferredAtLeft else TransferredAtRight)
    {
      if newDcb != null {
        if atLeft {
          var cutoff := oldDcb.ReplaceLeftA();
        } else {
          oldDcb.state := Established;
        }
      }
    }

    method Handle(c: Call)
      requires Linked()
      modifies Blocks()
      ensures Linked() && fresh(Blocks() - old(Blocks()))
      ensures Snap() == Called(old(Snap()), c)
    {
      hide Linked, Snap, Called, Blocks;
      match c {
        case SegmentOut(seqNum, size, ack, fin) =>
          var dcb, newSeq, newAck := SendSegment(seqNum, size, ack, fin);
        case NewPathDataIn(seqNum) => ReceiveData(seqNum);
        case OldPathAckIn(ack) => ReceiveAckSegment(true, ack);
        case NewPathAckIn(ack) => ReceiveAckSegment(false, ack);
        case SynOut(semantic) => SendSyn(semantic);
        case SynIn(semantic, r, was) => ReceiveSyn(semantic, r, was);
        case SynAckOut => var cutoff := SendSynAck();
        case SynAckIn(cutoff) => ReceiveCutoff(true, cutoff);
        case AckMsgOut(semantic) => SendAck(semantic);
        case AckMsgIn(cutoff) => ReceiveCutoff(false, cutoff);
        case TransferredAtLeft => ReceiveTransferred(true);
        case TransferredAtRight => ReceiveTransferred(false);
      }
    }

    /** Any sequence of calls keeps the links and leaves the blocks as the specification says. */
    method HandleAll(calls: seq<Call>)
      requires Linked()
      modifies Blocks()
      ensures Linked() && fresh(Blocks() - old(Blocks()))
      ensures Snap() == CalledAll(old(Snap()), calls)
      ensures oldDcb.View() == A.At(old(oldDcb.View()), EventsOf(old(Snap()), calls))
    {
      ghost var s := Snap();
      for i := 0 to |calls|
        invariant Linked() && fresh(Blocks() - old(Blocks()))
        invariant Snap() == CalledAll(s, calls[..i])
      {
        assert calls[..i + 1][..i] == calls[..i];
        Handle(calls[i]);
      }
      assert calls[..|calls|] == calls;
      BlocksRunTheAnchor(s, calls);
    }
  }
}
