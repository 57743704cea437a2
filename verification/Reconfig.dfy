/** The reconfiguration protocol without state transfer: two anchors, an old path through the
    middlebox, a new path between the anchors, and a control channel. Everything ever sent may be
    lost, repeated and reordered. Data flows one way. Beside the 32-bit numbers the system keeps the
    stream offsets they stand for; byte k of the stream has number (initial number + k). */
module Reconfig {
  import opened Serial
  import opened Translation
  import opened PathChoice

  /** Initial numbers of both streams as the two anchors know them, and who sends data. */
  datatype Config = Config(leftIseq: U32, leftIack: U32, rightIseq: U32, rightIack: U32, leftSends: bool)
  {
    function SenderIsn(): U32 { if leftSends then leftIseq else rightIseq }
    function ReceiverIsn(): U32 { if leftSends then rightIack else leftIack }

    /** The new path carries the left anchor's numbering. */
    function WireIsn(): U32 { if leftSends then leftIseq else leftIack }

    /** Deltas the right anchor computed for its new output and input blocks. */
    function OutSeqDelta(): Delta { MakeDelta(rightIseq, leftIack) }
    function InSeqDelta(): Delta { MakeDelta(leftIseq, rightIack) }
    function OutAckDelta(): Delta { MakeDelta(rightIack, leftIseq) }
    function InAckDelta(): Delta { MakeDelta(leftIack, rightIseq) }
  }

  /** Bytes [start, end) of the stream, with the number the packet carries. */
  datatype Segment = Segment(start: nat, end: nat, num: U32)

  /** An ACK of every byte below off, with the number it carries. */
  datatype AckSeg = AckSeg(off: nat, num: U32)

  /** How far the handshake came, and the control messages that ever left. */
  datatype Control = Control(synOut: bool, synIn: bool, synAckIn: bool, synAcks: set<U32>, acks: set<U32>)

  /** two_paths of the left anchor's input blocks and of the right anchor's new one. */
  datatype Flags = Flags(leftOld: bool, leftNew: bool, rightNew: bool)

  /** Every data segment and pure ACK that ever left, by path. */
  datatype Traffic = Traffic(oldData: set<Segment>, newData: set<Segment>, oldAcks: set<AckSeg>, newAcks: set<AckSeg>)

  /** `received` holds the bytes that reached the receiving TCP; `cut` and `ackOff` are the stream
      offsets of the sender's seq_cutoff and of the receiver's ack_cutoff. */
  datatype System = System(
    left: Anchor, right: Anchor, control: Control, flags: Flags, traffic: Traffic,
    received: set<nat>, cut: nat, ackOff: nat)

  datatype Step =
    | SendData(start: nat, end: nat)
    | RelayOld(start: nat, end: nat)
    | DeliverNew(seg: Segment)
    | EmitAck(off: nat, fin: bool)
    | OldAckArrives(ack: AckSeg)
    | NewAckArrives(ack: AckSeg)
    | SynOut
    | SynIn
    | SynAckOut
    | SynAckIn(msg: U32)
    | Switch
    | AckOut
    | AckIn(msg: U32)

  function Sender(cfg: Config, s: System): Anchor { if cfg.leftSends then s.left else s.right }
  function Receiver(cfg: Config, s: System): Anchor { if cfg.leftSends then s.right else s.left }

  function WithSender(cfg: Config, s: System, a: Anchor): System {
    if cfg.leftSends then s.(left := a) else s.(right := a)
  }

  function WithReceiver(cfg: Config, s: System, a: Anchor): System {
    if cfg.leftSends then s.(right := a) else s.(left := a)
  }

  function Bytes(start: nat, end: nat): (bytes: set<nat>)
    ensures forall k :: k in bytes <==> start <= k < end
    decreases end - start
  {
    if start >= end then {} else {start} + Bytes(start + 1, end)
  }

  predicate Holds(seg: Segment, k: int) {
    seg.start <= k < seg.end
  }

  ghost predicate Near(x: int, y: int) {
    -TWO_31 < x - y < TWO_31
  }

  /** Every byte of [start, end) left on the old path; the middlebox may cut segments anew. */
  ghost predicate CarriedOld(s: System, start: nat, end: nat) {
    forall k | start <= k < end :: LeftOld(s, k)
  }

  ghost predicate LeftOld(s: System, k: int) {
    exists seg :: seg in s.traffic.oldData && Holds(seg, k)
  }

  /** What may happen. The TCP acknowledges only contiguous bytes, data bytes start at offset 1, and
      numbers that are compared stand for offsets less than 2^31 apart. */
  ghost predicate Enabled(cfg: Config, s: System, e: Step) {
    match e
    case SendData(start, end) => 1 <= start < end && end - start < 0x1_0000 && Near(end, s.cut)
    case RelayOld(start, end) => 1 <= start < end && CarriedOld(s, start, end)
    case DeliverNew(seg) => seg in s.traffic.newData && (Receiver(cfg, s).validAckCut ==> Near(seg.start, s.ackOff))
    case EmitAck(off, _) =>
      && off >= 1 && (forall k: nat | 1 <= k < off :: k in s.received)
      && (Receiver(cfg, s).validAckCut ==> Near(off, s.ackOff))
    case OldAckArrives(ack) => ack in s.traffic.oldAcks
    case NewAckArrives(ack) => ack in s.traffic.newAcks
    case SynOut => true
    case SynIn => s.control.synOut
    case SynAckOut => s.control.synIn
    case SynAckIn(msg) => msg in s.control.synAcks
    case Switch => s.control.synAckIn
    case AckOut => s.control.synAckIn && s.left.phase == Established
    case AckIn(msg) => msg in s.control.acks
  }

  /** The number a data segment carries on the new path. */
  function OnWire(cfg: Config, num: U32): U32 {
    if cfg.leftSends then num else Apply(cfg.OutSeqDelta(), num)
  }

  /** The number the receiving TCP sees in a segment of the new path. */
  function Seen(cfg: Config, num: U32): U32 {
    if cfg.leftSends then Apply(cfg.InSeqDelta(), num) else num
  }

  /** The receiving anchor's temporary-cutoff arithmetic on a new-path number. */
  function Rebased(cfg: Config, num: U32): U32 {
    if cfg.leftSends then Rebase(cfg.rightIack, cfg.leftIseq, num) else Rebase(cfg.leftIack, cfg.leftIack, num)
  }

  function DataLeaves(cfg: Config, s: System, start: nat, end: nat): System {
    var num := Wrap(cfg.SenderIsn() + start);
    DataGoes(cfg, s, start, end, Send(Sender(cfg, s), true, Wrap(num + (end - start)), 0, false))
  }

  function DataGoes(cfg: Config, s: System, start: nat, end: nat, d: Departure): System {
    var num := Wrap(cfg.SenderIsn() + start);
    var cut := if d.anchor.seqCutoff != Sender(cfg, s).seqCutoff then end else s.cut;
    var s' := WithSender(cfg, s, d.anchor).(cut := cut);
    if d.route == NewPath then s'.(traffic := s.traffic.(newData := s.traffic.newData + {Segment(start, end, OnWire(cfg, num))}))
    else s'.(traffic := s.traffic.(oldData := s.traffic.oldData + {Segment(start, end, num)}))
  }

  function NewDataArrives(cfg: Config, s: System, seg: Segment): System {
    var two := if cfg.leftSends then s.flags.rightNew else s.flags.leftNew;
    var a := Receiver(cfg, s);
    var a' := if two then NoteNewPathData(a, Rebased(cfg, seg.num)) else a;
    WithReceiver(cfg, s, a').(
      received := s.received + Bytes(seg.start, seg.end),
      ackOff := if a'.validAckCut != a.validAckCut || a'.ackCutoff != a.ackCutoff then seg.start else s.ackOff)
  }

  function AckLeavesTcp(cfg: Config, s: System, off: nat, fin: bool): System {
    AckGoes(cfg, s, off, Send(Receiver(cfg, s), false, 0, Wrap(cfg.ReceiverIsn() + off), fin))
  }

  /** An ACK whose number was replaced says what the cutoff says. */
  function AckGoes(cfg: Config, s: System, off: nat, d: Departure): System {
    var s' := WithReceiver(cfg, s, d.anchor);
    var said := if d.ack == Wrap(cfg.ReceiverIsn() + off) then off else s.ackOff;
    if d.route == NewPath then
      var num := if cfg.leftSends then Apply(cfg.OutAckDelta(), d.ack) else d.ack;
      s'.(traffic := s.traffic.(newAcks := s.traffic.newAcks + {AckSeg(said, num)}))
    else s'.(traffic := s.traffic.(oldAcks := s.traffic.oldAcks + {AckSeg(said, d.ack)}))
  }

  /** The sending anchor reads an ACK; the middlebox renumbers those of the old path. */
  function AckReaches(cfg: Config, s: System, onOldPath: bool, ack: AckSeg): System {
    var num := if onOldPath then Wrap(cfg.SenderIsn() + ack.off) else ack.num;
    var two := if !cfg.leftSends then !onOldPath && s.flags.rightNew
               else if onOldPath then s.flags.leftOld else s.flags.leftNew;
    if two then AckNoted(cfg, s, onOldPath, NoteAck(Sender(cfg, s), onOldPath, num)) else s
  }

  function AckNoted(cfg: Config, s: System, onOldPath: bool, r: (bool, Anchor)): System {
    var s' := WithSender(cfg, s, r.1);
    if !cfg.leftSends then s'.(flags := s.flags.(rightNew := r.0))
    else if onOldPath then s'.(flags := s.flags.(leftOld := r.0))
    else s'.(flags := s.flags.(leftNew := r.0))
  }

  function Next(cfg: Config, s: System, e: Step): System {
    match e
    case SendData(start, end) => DataLeaves(cfg, s, start, end)
    case RelayOld(start, end) => s.(received := s.received + Bytes(start, end))
    case DeliverNew(seg) => NewDataArrives(cfg, s, seg)
    case EmitAck(off, fin) => AckLeavesTcp(cfg, s, off, fin)
    case OldAckArrives(ack) => AckReaches(cfg, s, true, ack)
    case NewAckArrives(ack) => AckReaches(cfg, s, false, ack)
    case SynOut =>
      if s.left.forked then s
      else s.(left := SynLeaves(s.left, false), control := s.control.(synOut := true),
              flags := s.flags.(leftOld := true, leftNew := true))
    case SynIn =>
      if s.control.synIn then s
      else s.(right := SynAccepted(s.right, false), control := s.control.(synIn := true),
              flags := s.flags.(rightNew := true))
    case SynAckOut =>
      s.(right := SynAckLeaves(s.right),
         control := s.control.(synAcks := s.control.synAcks + {Apply(cfg.OutSeqDelta(), s.right.seqCutoff)}))
    case SynAckIn(msg) =>
      s.(left := SynAckArrives(s.left, msg), control := s.control.(synAckIn := true),
         ackOff := if !cfg.leftSends && s.left.phase != Established then s.cut else s.ackOff)
    case Switch => s.(left := LeftSwitches(s.left))
    case AckOut => s.(control := s.control.(acks := s.control.acks + {s.left.seqCutoff}))
    case AckIn(msg) =>
      var a := AckArrives(s.right, Rebase(cfg.rightIack, cfg.leftIseq, msg));
      s.(right := a, ackOff := if cfg.leftSends && a != s.right then s.cut else s.ackOff)
  }

  /** The session before any DYSCO_SYN: each seq_cutoff is the number of the anchor's own SYN. */
  function Start(cfg: Config): System {
    System(Anchor(OnePath, false, cfg.leftIseq, 0, false, false, false, false, 0),
           Anchor(OnePath, false, cfg.rightIseq, 0, false, false, false, false, 0),
           Control(false, false, false, {}, {}), Flags(false, false, false), Traffic({}, {}, {}, {}), {}, 0, 0)
  }

  ghost predicate IsRun(cfg: Config, states: seq<System>, steps: seq<Step>) {
    && |states| == |steps| + 1
    && states[0] == Start(cfg)
    && forall i | 0 <= i < |steps| ::
         Enabled(cfg, states[i], steps[i]) && states[i + 1] == Next(cfg, states[i], steps[i])
  }
}
