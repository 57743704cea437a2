/** The output and input control blocks as the kernel keeps them: linked objects whose fields the
    data path and the control messages update in place. Every method is tied to a function of
    PathChoice or Numbers. */
module ControlBlock {
  import opened Serial
  import opened Translation
  import opened PathChoice
  import opened Numbers
  import opened Wrappers

  class CbOut {
    var dcbIn: CbIn?
    var otherPath: CbOut?
    var oldPath: bool

    var state: Phase
    var seqCutoff: U32
    var ackCutoff: U32
    var validAckCut: bool
    var useNpSeq: bool
    var useNpAck: bool
    var stateT: bool
    var ackCtr: U32

    var numbers: OutNumbers

    ghost function View(): Anchor
      reads this
    {
      Anchor(state, otherPath != null, seqCutoff, ackCutoff, validAckCut, useNpSeq, useNpAck, stateT, ackCtr)
    }

    /** A zeroed block that carries the translation fields n. */
    constructor (n: OutNumbers)
      ensures View() == Anchor(OnePath, false, 0, 0, false, false, false, false, 0)
      ensures numbers == n && dcbIn == null && otherPath == null && !oldPath
    {
      dcbIn, otherPath, oldPath := null, null, false;
      state, seqCutoff, ackCutoff := OnePath, 0, 0;
      validAckCut, useNpSeq, useNpAck, stateT, ackCtr := false, false, false, false, 0;
      numbers := n;
    }

    /** dysco_pick_path_seq: `this` stands for the old path, other_path for the new one. */
    method ChoosePathSeq(end: U32) returns (dcb: CbOut)
      requires otherPath != null
      ensures dcb == if PickPathSeq(View(), end) == NewPath then otherPath else this
    {
      dcb := this;
      if stateT {
        if state == Established {
          dcb := otherPath;
        }
      } else if useNpSeq {
        dcb := otherPath;
      } else if !Before(end, seqCutoff) {
        dcb := otherPath;
      }
    }

    /** dysco_pick_path_ack: may cap the ack number and count the capped ACK. */
    method ChoosePathAck(ack: U32, fin: bool) returns (dcb: CbOut, newAck: U32)
      requires otherPath != null
      modifies this`ackCtr, this`useNpAck
      ensures var d := old(PickPathAck(View(), ack, fin));
              View() == d.anchor && newAck == d.ack && dcb == if d.route == NewPath then otherPath else this
    {
      dcb, newAck := this, ack;
      if stateT {
        if state == Established {
          dcb := otherPath;
        }
      } else if validAckCut {
        if useNpAck {
          dcb := otherPath;
        } else if !After(ackCutoff, ack) {
          if fin {
            dcb := otherPath;
          } else {
            newAck := ackCutoff;
            ackCtr := Wrap(ackCtr + 1);
            if ackCtr > 1 {
              useNpAck := true;
            }
          }
        }
      }
    }

    /** dysco_out_translate without the address rewrite: picks the path under the lock, then
        rewrites with the block of the chosen path. */
    method OutTranslate(seqNum: U32, segSz: U16, ack: U32, fin: bool)
      returns (dcb: CbOut, newSeq: U32, newAck: U32)
      modifies this`seqCutoff, this`ackCtr, this`useNpAck
      ensures var d := old(Send(View(), segSz > 0, Wrap(seqNum + segSz), ack, fin));
              && View() == d.anchor
              && dcb == (if d.route == NewPath && otherPath != null then otherPath else this)
              && newSeq == (if otherPath == null then seqNum else Apply(dcb.numbers.seqDelta, seqNum))
              && newAck == (if otherPath == null then ack else Apply(dcb.numbers.ackDelta, d.ack))
    {
      var end := Wrap(seqNum + segSz);
      dcb, newSeq, newAck := this, seqNum, ack;
      if otherPath == null {
        if segSz > 0 && After(end, seqCutoff) {
          seqCutoff := end;
        }
      } else {
        if state == Established {
          if segSz > 0 {
            dcb := ChoosePathSeq(end);
          } else {
            dcb, newAck := ChoosePathAck(ack, fin);
          }
        } else if state == SynSent {
          if segSz > 0 {
            if After(end, seqCutoff) {
              seqCutoff := end;
            }
          } else {
            dcb, newAck := ChoosePathAck(ack, fin);
          }
        } else if state == SynReceived {
          if segSz > 0 {
            dcb := ChoosePathSeq(end);
          } else {
            dcb, newAck := ChoosePathAck(ack, fin);
          }
        }
        newSeq := Apply(dcb.numbers.seqDelta, newSeq);
        newAck := Apply(dcb.numbers.ackDelta, newAck);
      }
    }

    /** dysco_out_syn on a SYN+ACK of the local stack: the session's initial numbers in both directions. */
    method RecordSynAckSent(inAux: CbIn, seqNum: U32, ack: U32, ts: Option<(U32, U32)>, ws: Option<U8>, sack: bool)
      modifies this`numbers, inAux`numbers
      ensures (numbers, inAux.numbers) == old(SynAckSent(numbers, inAux.numbers, seqNum, ack, ts, ws, sack))
    {
      numbers := numbers.(sackOk := sack);
      match ws {
        case None =>
        case Some(w) =>
          var scale := if w > 14 then 14 else w;
          numbers := numbers.(wsOk := true, wsDelta := 0, wsIn := scale, wsOut := scale);
      }
      match ts {
        case None =>
        case Some((val, echo)) =>
          numbers := numbers.(tsOk := true, tsIn := val, tsOut := val, tsrIn := echo, tsrOut := echo,
                              tsDelta := NoDelta, tsrDelta := NoDelta);
      }
      numbers := numbers.(inIseq := seqNum, outIseq := seqNum, inIack := Wrap(ack - 1), outIack := Wrap(ack - 1));
      inAux.numbers := inAux.numbers.(inIseq := numbers.outIack, outIseq := numbers.outIack, inIack := numbers.outIseq,
                                      outIack := numbers.outIseq, seqDelta := NoDelta, ackDelta := NoDelta);
      if numbers.tsOk {
        inAux.numbers := inAux.numbers.(tsOk := true, tsIn := numbers.tsrOut, tsOut := numbers.tsrOut, tsrIn := numbers.tsOut,
                                        tsrOut := numbers.tsOut, tsDelta := NoDelta, tsrDelta := NoDelta);
      } else {
        inAux.numbers := inAux.numbers.(tsOk := false);
      }
      if !numbers.sackOk {
        inAux.numbers := inAux.numbers.(sackOk := false);
      }
    }

    /** dysco_compute_deltas_out, on a block that dysco_build_cb_in_reverse has just filled in. */
    method ComputeDeltasOut(oldOut: CbOut, r: Rcb)
      requires this != oldOut && numbers == BuiltInReverse(r)
      modifies this`numbers
      ensures numbers == RightOutNumbers(oldOut.numbers, r)
    {
      numbers := numbers.(inIseq := oldOut.numbers.inIseq, inIack := oldOut.numbers.inIack);
      numbers := numbers.(seqDelta := MakeDelta(numbers.inIseq, numbers.outIseq));
      numbers := numbers.(ackDelta := MakeDelta(numbers.inIack, numbers.outIack));
      if r.leftIts != 0 {
        numbers := numbers.(tsOk := true, tsIn := oldOut.numbers.tsIn, tsOut := r.leftItsr);
        numbers := numbers.(tsDelta := MakeDelta(numbers.tsIn, numbers.tsOut));
        numbers := numbers.(tsrIn := oldOut.numbers.tsrIn, tsrOut := r.leftIts);
        numbers := numbers.(tsrDelta := MakeDelta(numbers.tsrIn, numbers.tsrOut));
      }
      if r.leftIwsr != 0 {
        numbers := numbers.(wsOk := true, wsIn := oldOut.numbers.wsIn, wsOut := r.leftIwsr);
        numbers := numbers.(wsDelta := if numbers.wsIn < numbers.wsOut then numbers.wsOut - numbers.wsIn
                                       else numbers.wsIn - numbers.wsOut);
      } else {
        numbers := numbers.(wsOk := false);
      }
      numbers := numbers.(sackOk := r.sackOk);
    }

    /** dysco_control_output_syn at the left anchor, first transmission: the new block and its
        input block appear, and the old block forks. */
    method OutputSyn(stateTransfer: bool) returns (newDcb: CbOut)
      requires dcbIn != null
      modifies this`oldPath, this`stateT, this`state, this`otherPath, dcbIn`twoPaths
      ensures View() == SynLeaves(old(View()), stateTransfer)
      ensures fresh(newDcb) && otherPath == newDcb && newDcb.otherPath == this && oldPath && dcbIn.twoPaths
      ensures newDcb.View() == Anchor(OnePath, true, 0, 0, false, false, false, false, 0)
      ensures newDcb.numbers == LeftOutNumbers(SynMessage(numbers, dcbIn.numbers))
      ensures newDcb.dcbIn != null && fresh(newDcb.dcbIn) && newDcb.dcbIn.twoPaths
      ensures newDcb.dcbIn.dcbOut == newDcb && newDcb.dcbIn.numbers == ReverseNumbers(newDcb.numbers)
      ensures !newDcb.oldPath
    {
      hide LeftOutNumbers, SynMessage, ReverseNumbers;
      newDcb := new CbOut(LeftOutNumbers(SynMessage(numbers, dcbIn.numbers)));
      newDcb.otherPath := this;
      newDcb.dcbIn := new CbIn(newDcb, ReverseNumbers(newDcb.numbers), true);
      oldPath := true;
      if stateTransfer {
        stateT := true;
      }
      dcbIn.twoPaths := true;
      state := SynSent;
      otherPath := newDcb;
    }

    /** dysco_replace_cb_rightA: switches the right anchor and fills in its cutoff in the left
        anchor's numbering. */
    method ReplaceRightA(newOut: CbOut) returns (cutoff: U32)
      modifies this`oldPath, this`state, this`otherPath
      ensures View() == SynAckLeaves(old(View()))
      ensures oldPath && otherPath == newOut
      ensures cutoff == Apply(newOut.numbers.seqDelta, seqCutoff)
    {
      cutoff := seqCutoff;
      oldPath := true;
      state := SynReceived;
      otherPath := newOut;
      var d := newOut.numbers.seqDelta;
      if d.add {
        cutoff := Wrap(cutoff + d.mag);
      } else {
        cutoff := Wrap(cutoff - d.mag);
      }
    }

    /** dysco_replace_cb_leftA: switches the left anchor and fills in its cutoff. */
    method ReplaceLeftA() returns (cutoff: U32)
      modifies this`state
      ensures View() == PathChoice.LeftSwitches(old(View()))
      ensures cutoff == seqCutoff
    {
      if state == SynSent {
        state := Established;
      }
      cutoff := seqCutoff;
    }

    /** dysco_control_input, DYSCO_SYN_ACK at the left anchor. */
    method ReceiveSynAck(cutoff: U32)
      modifies this`ackCutoff, this`validAckCut
      ensures View() == SynAckArrives(old(View()), cutoff)
    {
      if state != Established {
        ackCutoff := cutoff;
        validAckCut := true;
      }
    }

    /** dysco_control_input, DYSCO_ACK at the right anchor. */
    method ReceiveAck(cutoff: U32)
      modifies this`ackCutoff, this`validAckCut, this`state
      ensures otherPath != null ==>
                var n := otherPath.numbers;
                View() == AckArrives(old(View()), Rebase(n.inIack, n.outIack, cutoff))
      ensures otherPath == null ==> View() == old(View())
    {
      if otherPath != null {
        var newOut := otherPath;
        var mine := cutoff;
        if newOut.numbers.inIack < newOut.numbers.outIack {
          mine := Wrap(mine - (newOut.numbers.outIack - newOut.numbers.inIack));
        } else {
          mine := Wrap(mine + (newOut.numbers.inIack - newOut.numbers.outIack));
        }
        if state != Established && !stateT {
          ackCutoff := mine;
          validAckCut := true;
          state := Established;
        }
      }
    }
  }

  class CbIn {
    var dcbOut: CbOut?
    var twoPaths: bool
    var numbers: InNumbers

    constructor (out: CbOut?, n: InNumbers, twoPaths: bool)
      ensures dcbOut == out && numbers == n && this.twoPaths == twoPaths
    {
      dcbOut, numbers, this.twoPaths := out, n, twoPaths;
    }

    /** dysco_set_ack_number_out on a SYN+ACK that comes in. */
    method RecordSynAckReceived(out: CbOut, seqNum: U32, ack: U32, ts: Option<(U32, U32)>, ws: Option<U8>, sack: bool)
      modifies this`numbers, out`numbers
      ensures (out.numbers, numbers) == old(SynAckReceived(out.numbers, numbers, seqNum, ack, ts, ws, sack))
    {
      numbers := numbers.(inIseq := seqNum, outIseq := seqNum, inIack := Wrap(ack - 1), outIack := Wrap(ack - 1));
      numbers := numbers.(seqDelta := NoDelta, ackDelta := NoDelta);
      out.numbers := out.numbers.(outIack := seqNum, inIack := seqNum, outIseq := Wrap(ack - 1), inIseq := Wrap(ack - 1));
      numbers := numbers.(sackOk := sack);
      match ws {
        case None =>
        case Some(w) =>
          var scale := if w > 14 then 14 else w;
          numbers := numbers.(wsOk := true, wsDelta := 0, wsIn := scale, wsOut := scale);
      }
      match ts {
        case None =>
        case Some((val, echo)) =>
          numbers := numbers.(tsOk := true, tsIn := val, tsOut := val, tsrIn := echo, tsrOut := echo,
                              tsDelta := NoDelta, tsrDelta := NoDelta);
      }
      if numbers.tsOk {
        out.numbers := out.numbers.(tsOk := true, tsrOut := numbers.tsIn, tsrIn := numbers.tsIn, tsOut := numbers.tsrIn,
                                    tsIn := numbers.tsrIn, tsDelta := NoDelta, tsrDelta := NoDelta);
      }
      if !numbers.sackOk {
        out.numbers := out.numbers.(sackOk := false);
      }
    }

    /** dysco_compute_deltas_in, on a block that dysco_control_reconfig_in has started. */
    method ComputeDeltasIn(oldOut: CbOut, r: Rcb)
      requires oldOut.dcbIn != null && oldOut.dcbIn != this
      requires numbers.inIseq == r.leftIseq && numbers.inIack == r.leftIack
      modifies this`numbers
      ensures numbers == RightInNumbers(old(numbers), oldOut.numbers, oldOut.dcbIn.numbers, r)
    {
      numbers := numbers.(outIseq := oldOut.numbers.inIack, outIack := oldOut.numbers.inIseq);
      numbers := numbers.(seqDelta := MakeDelta(numbers.inIseq, numbers.outIseq));
      numbers := numbers.(ackDelta := MakeDelta(numbers.inIack, numbers.outIack));
      if r.leftIts != 0 {
        numbers := numbers.(tsOk := true, tsIn := r.leftIts, tsOut := oldOut.dcbIn.numbers.tsOut);
        numbers := numbers.(tsDelta := MakeDelta(numbers.tsIn, numbers.tsOut));
        numbers := numbers.(tsrIn := r.leftItsr, tsrOut := oldOut.dcbIn.numbers.tsrOut);
        numbers := numbers.(tsrDelta := MakeDelta(numbers.tsrIn, numbers.tsrOut));
      } else {
        numbers := numbers.(tsOk := false);
      }
      numbers := numbers.(sackOk := r.sackOk);
      ComputeScaleIn(oldOut, r);
    }

    /** The window scale at the end of dysco_compute_deltas_in. */
    method ComputeScaleIn(oldOut: CbOut, r: Rcb)
      modifies this`numbers
      ensures numbers == WithScale(old(numbers), oldOut.numbers, r)
    {
      if r.leftIws != 0 {
        numbers := numbers.(wsOk := true, wsIn := r.leftIws, wsOut := oldOut.numbers.wsIn);
        numbers := numbers.(wsDelta := if numbers.wsIn < numbers.wsOut then numbers.wsOut - numbers.wsIn
                                       else numbers.wsIn - numbers.wsOut);
      } else {
        numbers := numbers.(wsOk := false);
      }
    }

    /** The old path's output block: this interface's own, or the one its new path belongs to. */
    function OldBlock(): CbOut?
      reads this, dcbOut
    {
      if dcbOut == null || dcbOut.oldPath then dcbOut else dcbOut.otherPath
    }

    /** dysco_in_two_paths_data_seg: false when a link is missing. Segments of the old path change
        nothing; the new path's segments may set or lower the temporary cutoff. */
    method TwoPathsDataSeg(seqNum: U32) returns (ok: bool)
      modifies (if dcbOut != null && !dcbOut.oldPath && dcbOut.otherPath != null then {dcbOut.otherPath} else {})`ackCutoff,
               (if dcbOut != null && !dcbOut.oldPath && dcbOut.otherPath != null then {dcbOut.otherPath} else {})`validAckCut
      ensures ok == (dcbOut != null && (dcbOut.oldPath || dcbOut.otherPath != null))
      ensures dcbOut == old(dcbOut)
      ensures ok && !old(dcbOut.oldPath) ==>
                var n := dcbOut.numbers;
                dcbOut.otherPath.View() == NoteNewPathData(old(dcbOut.otherPath.View()), Rebase(n.inIack, n.outIack, seqNum))
    {
      if dcbOut == null {
        return false;
      }
      if !dcbOut.oldPath {
        var oldOut := dcbOut.otherPath;
        if oldOut == null {
          return false;
        }
        if oldOut.state == SynSent || oldOut.state == SynReceived {
          var mine := seqNum;
          var n := dcbOut.numbers;
          if n.inIack < n.outIack {
            mine := Wrap(mine - (n.outIack - n.inIack));
          } else {
            mine := Wrap(mine + (n.inIack - n.outIack));
          }
          if oldOut.validAckCut {
            if Before(mine, oldOut.ackCutoff) {
              oldOut.ackCutoff := mine;
            }
          } else {
            oldOut.ackCutoff := mine;
            oldOut.validAckCut := true;
          }
        }
      }
      ok := true;
    }

    /** dysco_in_two_paths_ack: stops the old path's data once everything below the cutoff is
        acknowledged, and lowers this block's flag. */
    method TwoPathsAck(ackSeq: U32)
      requires twoPaths
      modifies this`twoPaths, (if OldBlock() == null then {} else {OldBlock()})`useNpSeq
      ensures OldBlock() == old(OldBlock())
      ensures OldBlock() == null ==> twoPaths
      ensures OldBlock() != null ==>
                var r := old(NoteAck(OldBlock().View(), dcbOut.oldPath, ackSeq));
                twoPaths == r.0 && OldBlock().View() == r.1
    {
      var out := dcbOut;
      if out == null {
        return;
      }
      if out.oldPath {
        if out.stateT {
          if out.state == Established {
            twoPaths := false;
          }
        } else if !After(out.seqCutoff, ackSeq) {
          out.useNpSeq := true;
          twoPaths := false;
        }
      } else {
        out := out.otherPath;
        if out == null {
          return;
        }
        if out.stateT && out.state == Established {
          twoPaths := false;
        } else if !After(out.seqCutoff, ackSeq) {
          out.useNpSeq := true;
          twoPaths := false;
        }
      }
    }
  }
}
