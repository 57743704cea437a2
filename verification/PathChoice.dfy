/** The decisions one anchor takes inside each locked region, on the fields of the old path's
    output control block. The classes in ControlBlock compute these functions in place. */
module PathChoice {
  import opened Serial

  datatype Phase = OnePath | SynSent | SynReceived | Established

  datatype Route = OldPath | NewPath

  /** The reconfiguration fields of an output control block; `forked` says other_path is set. */
  datatype Anchor = Anchor(
    phase: Phase,
    forked: bool,
    seqCutoff: U32,
    ackCutoff: U32,
    validAckCut: bool,
    useNpSeq: bool,
    useNpAck: bool,
    stateT: bool,
    ackCtr: U32)

  /** What leaves: the path chosen and the ack number, which a capped ACK has replaced. */
  datatype Departure = Departure(anchor: Anchor, route: Route, ack: U32)

  // ----- sending side of the data path

  function PickPathSeq(a: Anchor, end: U32): Route {
    if a.stateT then
      if a.phase == Established then NewPath else OldPath
    else if a.useNpSeq then NewPath
    else if !Before(end, a.seqCutoff) then NewPath
    else OldPath
  }

  predicate Caps(a: Anchor, ack: U32, fin: bool) {
    !a.stateT && a.validAckCut && !a.useNpAck && !After(a.ackCutoff, ack) && !fin
  }

  function PickPathAck(a: Anchor, ack: U32, fin: bool): Departure {
    if a.stateT then
      Departure(a, if a.phase == Established then NewPath else OldPath, ack)
    else if !a.validAckCut then Departure(a, OldPath, ack)
    else if a.useNpAck then Departure(a, NewPath, ack)
    else if After(a.ackCutoff, ack) then Departure(a, OldPath, ack)
    else if fin then Departure(a, NewPath, ack)
    else
      var ctr := Wrap(a.ackCtr + 1);
      Departure(a.(ackCtr := ctr, useNpAck := a.useNpAck || ctr > 1), OldPath, a.ackCutoff)
  }

  function Advance(a: Anchor, end: U32): Anchor {
    if After(end, a.seqCutoff) then a.(seqCutoff := end) else a
  }

  /** The critical section of dysco_out_translate. `end` is the sequence number just past the
      segment, `data` says it carries payload. */
  function Send(a: Anchor, data: bool, end: U32, ack: U32, fin: bool): Departure {
    if !a.forked then
      Departure(if data then Advance(a, end) else a, OldPath, ack)
    else match a.phase
      case Established =>
        if data then Departure(a, PickPathSeq(a, end), ack) else PickPathAck(a, ack, fin)
      case SynSent =>
        if data then Departure(Advance(a, end), OldPath, ack) else PickPathAck(a, ack, fin)
      case SynReceived =>
        if data then Departure(a, PickPathSeq(a, end), ack) else PickPathAck(a, ack, fin)
      case OnePath => Departure(a, OldPath, ack)
  }

  // ----- receiving side of the data path

  /** A data segment came in on the new path; `start` is its sequence number in this anchor's
      numbering. Before the control message arrives the smallest start is a temporary cutoff. */
  function NoteNewPathData(a: Anchor, start: U32): Anchor {
    if a.phase != SynSent && a.phase != SynReceived then a
    else if !a.validAckCut then a.(ackCutoff := start, validAckCut := true)
    else if Before(start, a.ackCutoff) then a.(ackCutoff := start)
    else a
  }

  predicate AckReachesCutoff(a: Anchor, ack: U32) {
    !After(a.seqCutoff, ack)
  }

  /** An ACK came in while the input block's two_paths flag is up: the new flag and anchor. */
  function NoteAck(a: Anchor, onOldPath: bool, ack: U32): (bool, Anchor) {
    if onOldPath && a.stateT then (a.phase != Established, a)
    else if !onOldPath && a.stateT && a.phase == Established then (false, a)
    else if AckReachesCutoff(a, ack) then (false, a.(useNpSeq := true))
    else (true, a)
  }

  // ----- control messages

  /** DYSCO_SYN leaves the left anchor for the first time. */
  function SynLeaves(a: Anchor, stateTransfer: bool): Anchor {
    a.(stateT := a.stateT || stateTransfer, phase := SynSent, forked := true)
  }

  /** DYSCO_SYN is accepted by the right anchor. */
  function SynAccepted(a: Anchor, stateTransfer: bool): Anchor {
    a.(stateT := a.stateT || stateTransfer)
  }

  /** DYSCO_SYN_ACK leaves the right anchor, first copy or resent. */
  function SynAckLeaves(a: Anchor): Anchor {
    a.(phase := SynReceived, forked := true)
  }

  /** DYSCO_SYN_ACK reaches the left anchor. */
  function SynAckArrives(a: Anchor, cutoff: U32): Anchor {
    if a.phase == Established then a else a.(ackCutoff := cutoff, validAckCut := true)
  }

  /** The locked region of dysco_replace_cb_leftA. */
  function LeftSwitches(a: Anchor): Anchor {
    if a.phase == SynSent then a.(phase := Established) else a
  }

  /** DYSCO_ACK leaves the left anchor: it replaces the block unless state is transferred. */
  function AckLeaves(a: Anchor, stateTransfer: bool): Anchor {
    if stateTransfer || a.stateT then a else LeftSwitches(a)
  }

  /** DYSCO_ACK reaches the right anchor; `cutoff` is already in its numbering. */
  function AckArrives(a: Anchor, cutoff: U32): Anchor {
    if !a.forked || a.phase == Established || a.stateT then a
    else a.(ackCutoff := cutoff, validAckCut := true, phase := Established)
  }

  /** DYSCO_STATE_TRANSFERRED reaches the right anchor. */
  function RightTransferred(a: Anchor): Anchor {
    a.(phase := Established)
  }
}
