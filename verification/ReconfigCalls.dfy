/** What every message, segment and ACK does to the linked blocks of an anchor, in stream offsets where
    numbers are compared or shifted: byte k of a stream has number (initial number + k). */
module ReconfigCalls {
  import opened Numbers
  import opened PathChoice
  import opened ReconfigBlocks
  import opened Serial
  import opened Translation
  import opened Wrappers

  ghost predicate Near(x: int, y: int) {
    -TWO_31 < x - y < TWO_31
  }

  // ----- control messages

  /** The first DYSCO_SYN forks the left anchor and raises both flags; a resent one changes nothing. */
  lemma SynLeavesLeft(s: Snapshot, semantic: bool)
    requires s.anchor.forked ==> s.newPair.Some?
    ensures s.newPair.Some? ==> Called(s, SynOut(semantic)) == s
    ensures s.newPair.None? ==>
              var s' := Called(s, SynOut(semantic));
              && s'.anchor == s.anchor.(phase := SynSent, forked := true, stateT := s.anchor.stateT || semantic)
              && s'.newPair.Some? && s'.oldTwo && s'.newTwo && s'.numbers == s.numbers && s'.inNumbers == s.inNumbers
  {
  }

  /** The first DYSCO_SYN that comes in makes the right anchor's new pair, but does not fork it yet. */
  lemma SynReachesRight(s: Snapshot, semantic: bool, r: Rcb, was: InNumbers)
    ensures s.newPair.Some? ==> Called(s, SynIn(semantic, r, was)) == s
    ensures s.newPair.None? ==>
              var s' := Called(s, SynIn(semantic, r, was));
              && s'.anchor == s.anchor.(stateT := s.anchor.stateT || semantic)
              && s'.newPair.Some? && s'.oldTwo == s.oldTwo && s'.newTwo
              && s'.numbers == s.numbers && s'.inNumbers == s.inNumbers
  {
  }

  /** DYSCO_SYN_ACK, first or resent, forks the right anchor to SYN_RECEIVED. */
  lemma SynAckLeavesRight(s: Snapshot)
    ensures Called(s, SynAckOut)
            == if s.newPair.Some? then s.(anchor := s.anchor.(phase := SynReceived, forked := true)) else s
  {
  }

  /** DYSCO_SYN_ACK installs its cutoff at a left anchor that is not ESTABLISHED. */
  lemma SynAckReachesLeft(s: Snapshot, cutoff: U32)
    ensures Called(s, SynAckIn(cutoff))
            == if s.anchor.phase == Established then s
               else s.(anchor := s.anchor.(ackCutoff := cutoff, validAckCut := true))
  {
  }

  /** DYSCO_ACK switches the left anchor, unless state is transferred. */
  lemma AckMessageLeavesLeft(s: Snapshot, semantic: bool)
    ensures Called(s, AckMsgOut(semantic))
            == if s.newPair.Some? && s.anchor.phase == SynSent && !semantic && !s.anchor.stateT
               then s.(anchor := s.anchor.(phase := Established)) else s
  {
  }

  /** DYSCO_ACK names byte k in the wire's numbering: a right anchor that waits for it installs byte k in its
      own and is ESTABLISHED. */
  lemma AckMessageReachesRight(s: Snapshot, k: int)
    requires s.newPair.Some?
    ensures var o, a := s.newPair.value.0, s.anchor;
            Called(s, AckMsgIn(Wrap(o.outIack + k)))
            == if a.forked && a.phase != Established && !a.stateT
               then s.(anchor := a.(phase := Established, validAckCut := true, ackCutoff := Wrap(o.inIack + k))) else s
  {
    RebaseMovesOffset(s.newPair.value.0.inIack, s.newPair.value.0.outIack, k);
    hide Wrap, Rebase;
  }

  /** Without a new pair it is ignored. */
  lemma AckMessageWithoutPair(s: Snapshot, cutoff: U32)
    requires s.newPair.None?
    ensures Called(s, AckMsgIn(cutoff)) == s
  {
  }

  /** DYSCO_STATE_TRANSFERRED switches a left anchor that waits, and every right anchor. */
  lemma TransferredReaches(s: Snapshot)
    ensures Called(s, TransferredAtLeft)
            == if s.newPair.Some? && s.anchor.phase == SynSent then s.(anchor := s.anchor.(phase := Established)) else s
    ensures Called(s, TransferredAtRight)
            == if s.newPair.Some? then s.(anchor := s.anchor.(phase := Established)) else s
  {
  }

  // ----- segments and ACKs that come in

  /** A new-path segment that starts at byte k sets the cutoff, or lowers it when it starts before, while
      the handshake is open; x is the byte of the cutoff so far. */
  lemma NewPathDataReaches(s: Snapshot, k: int, x: int)
    requires s.newPair.Some? && s.newTwo
    requires s.anchor.validAckCut ==> s.anchor.ackCutoff == Wrap(s.newPair.value.0.inIack + x) && Near(k, x)
    ensures var o, a := s.newPair.value.0, s.anchor;
            var first := if a.validAckCut && x <= k then x else k;
            Called(s, NewPathDataIn(Wrap(o.outIack + k)))
            == if a.phase == SynSent || a.phase == SynReceived
               then s.(anchor := a.(validAckCut := true, ackCutoff := Wrap(o.inIack + first))) else s
  {
    var o := s.newPair.value.0;
    RebaseMovesOffset(o.inIack, o.outIack, k);
    if s.anchor.validAckCut {
      SerialOrderIsOffsetOrder(o.inIack, k, x);
    }
    hide Wrap, Rebase, Before;
  }

  /** With the flag down, or no new path, nothing is noted. */
  lemma NothingWatched(s: Snapshot, num: U32)
    ensures !(s.newPair.Some? && s.newTwo) ==> Called(s, NewPathDataIn(num)) == s && Called(s, NewPathAckIn(num)) == s
    ensures !s.oldTwo ==> Called(s, OldPathAckIn(num)) == s
  {
  }

  /** An ACK of every byte below k, when the cutoff is at byte x. On the old path with state transfer only the
      state decides, and only the flag moves; otherwise an ACK that reaches the cutoff lowers the flag and
      ends the use of the old path for data. */
  lemma OldPathAckReaches(s: Snapshot, isn: U32, k: int, x: int)
    requires s.oldTwo && s.anchor.seqCutoff == Wrap(isn + x) && Near(k, x)
    ensures var a := s.anchor;
            Called(s, OldPathAckIn(Wrap(isn + k)))
            == if a.stateT then (if a.phase == Established then s.(oldTwo := false) else s)
               else if k >= x then s.(oldTwo := false, anchor := a.(useNpSeq := true)) else s
  {
    SerialOrderIsOffsetOrder(isn, x, k);
    hide Wrap, Before;
  }

  lemma NewPathAckReaches(s: Snapshot, isn: U32, k: int, x: int)
    requires s.newPair.Some? && s.newTwo && s.anchor.seqCutoff == Wrap(isn + x) && Near(k, x)
    ensures var a := s.anchor;
            Called(s, NewPathAckIn(Wrap(isn + k)))
            == if a.stateT && a.phase == Established then s.(newTwo := false)
               else if k >= x then s.(newTwo := false, anchor := a.(useNpSeq := true)) else s
  {
    SerialOrderIsOffsetOrder(isn, x, k);
    hide Wrap, Before;
  }

  // ----- segments of the local stack

  /** The anchor still moves its cutoff: on one path, and at the left while the handshake is open. */
  predicate Moves(a: Anchor) {
    !a.forked || a.phase == SynSent
  }

  /** Data that ends before byte k moves the cutoff up to k while it still moves; nothing else changes. */
  lemma DataLeaves(s: Snapshot, isn: U32, seqNum: U32, size: U16, ack: U32, fin: bool, k: int, x: int)
    requires size > 0 && s.anchor.seqCutoff == Wrap(isn + x) && Wrap(seqNum + size) == Wrap(isn + k) && Near(k, x)
    ensures Called(s, SegmentOut(seqNum, size, ack, fin))
            == if Moves(s.anchor) && k > x then s.(anchor := s.anchor.(seqCutoff := Wrap(isn + k))) else s
  {
    SerialOrderIsOffsetOrder(isn, k, x);
    hide Wrap, Before;
  }

  /** A pure ACK counts when it is capped, and the second one that is counts the last; nothing else changes. */
  lemma AckLeaves(s: Snapshot, isn: U32, seqNum: U32, fin: bool, k: int, x: int)
    requires s.anchor.forked && s.anchor.phase != OnePath && s.anchor.validAckCut && s.anchor.ackCtr < 0xFFFF_FFFF
    requires s.anchor.ackCutoff == Wrap(isn + x) && Near(k, x)
    ensures var a := s.anchor;
            Called(s, SegmentOut(seqNum, 0, Wrap(isn + k), fin))
            == if !a.stateT && !a.useNpAck && k >= x && !fin
               then s.(anchor := a.(ackCtr := a.ackCtr + 1, useNpAck := a.ackCtr >= 1)) else s
  {
    SerialOrderIsOffsetOrder(isn, x, k);
    hide Before;
  }

  lemma AckLeavesUncounted(s: Snapshot, seqNum: U32, ack: U32, fin: bool)
    requires !s.anchor.forked || s.anchor.phase == OnePath || !s.anchor.validAckCut
    ensures Called(s, SegmentOut(seqNum, 0, ack, fin)) == s
  {
    hide Before;
  }

  // ----- the path a segment of the local stack takes

  /** Data that ends before byte k takes the new path: with state transfer once ESTABLISHED; without, once
      its cutoff is frozen, when it reaches the cutoff or the sender has given up the old path. */
  lemma DataTakesNewPath(a: Anchor, isn: U32, ack: U32, fin: bool, k: int, x: int)
    requires !a.useNpSeq ==> a.seqCutoff == Wrap(isn + x) && Near(k, x)
    ensures Send(a, true, Wrap(isn + k), ack, fin).route == NewPath
            <==> (a.forked && if a.stateT then a.phase == Established
                              else (a.phase == Established || a.phase == SynReceived) && (a.useNpSeq || k >= x))
    ensures Send(a, true, Wrap(isn + k), ack, fin).ack == ack
  {
    if !a.useNpSeq {
      SerialOrderIsOffsetOrder(isn, k, x);
    }
    hide Wrap, Before;
  }

  /** The anchor caps an ACK of every byte below k: it says byte x of the cutoff instead. */
  predicate CapsAt(a: Anchor, fin: bool, k: int, x: int) {
    a.forked && a.phase != OnePath && !a.stateT && a.validAckCut && !a.useNpAck && k >= x && !fin
  }

  /** An ACK takes the new path: with state transfer once ESTABLISHED; without, once two were capped, or
      when it is a FIN that reaches the cutoff. Its number is its own unless it is capped. */
  lemma AckTakesNewPath(a: Anchor, isn: U32, end: U32, fin: bool, k: int, x: int)
    requires a.validAckCut ==> a.ackCutoff == Wrap(isn + x) && Near(k, x)
    ensures var d := Send(a, false, end, Wrap(isn + k), fin);
            && d.ack == Wrap(isn + if CapsAt(a, fin, k, x) then x else k)
            && (d.route == NewPath
                <==> (a.forked && a.phase != OnePath
                      && if a.stateT then a.phase == Established else a.validAckCut && (a.useNpAck || (k >= x && fin))))
  {
    if a.validAckCut {
      SerialOrderIsOffsetOrder(isn, x, k);
    }
    hide Before;
  }
}
