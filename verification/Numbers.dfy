/** The translation fields of the control blocks (initial numbers, timestamps, deltas), how a
    reconfiguration fills them in, and why the new path is transparent to both endpoints. */
module Numbers {
  import opened Serial
  import opened Translation
  import opened Wrappers

  /** Fields of dysco_cb_out: what the stack sends (in) and what the network carries (out). */
  datatype OutNumbers = OutNumbers(
    inIseq: U32, inIack: U32, outIseq: U32, outIack: U32, seqDelta: Delta, ackDelta: Delta,
    tsOk: bool, tsIn: U32, tsOut: U32, tsrIn: U32, tsrOut: U32, tsDelta: Delta, tsrDelta: Delta,
    sackOk: bool, wsOk: bool, wsIn: U16, wsOut: U16, wsDelta: U16)

  /** Fields of dysco_cb_in: what the network carries (in) and what the stack sees (out). */
  datatype InNumbers = InNumbers(
    inIseq: U32, inIack: U32, outIseq: U32, outIack: U32, seqDelta: Delta, ackDelta: Delta,
    tsOk: bool, tsIn: U32, tsOut: U32, tsrIn: U32, tsrOut: U32, tsDelta: Delta, tsrDelta: Delta,
    sackOk: bool, wsOk: bool, wsIn: U16, wsOut: U16, wsDelta: U16)

  /** What DYSCO_SYN carries from the left anchor and the reconfiguration block keeps. */
  datatype Rcb = Rcb(leftIseq: U32, leftIack: U32, leftIts: U32, leftItsr: U32, leftIws: U16, leftIwsr: U16, sackOk: bool)

  const NoDelta := Delta(0, false)

  /** ws_delta: a magnitude only, since the rewrite shifts up by one scale and down by the other. */
  function ScaleDelta(wsIn: U16, wsOut: U16): U16 {
    if wsIn < wsOut then wsOut - wsIn else wsIn - wsOut
  }

  /** What an option parser makes of a window scale. */
  function CutScale(ws: U8): U16 {
    if ws > 14 then 14 else ws
  }

  // ----- session setup

  /** dysco_out_syn on a SYN+ACK: seqNum and ack of the packet, its timestamp and window scale options
      and whether it permits SACK. */
  function SynAckSent(o: OutNumbers, i: InNumbers, seqNum: U32, ack: U32, ts: Option<(U32, U32)>, ws: Option<U8>,
                      sack: bool)
    : (OutNumbers, InNumbers)
  {
    var iack := Wrap(ack - 1);
    var o0 := match ws
      case None => o
      case Some(w) => o.(wsOk := true, wsIn := CutScale(w), wsOut := CutScale(w), wsDelta := 0);
    var o1 := o0.(sackOk := sack, inIseq := seqNum, outIseq := seqNum, inIack := iack, outIack := iack);
    var o2 := match ts
      case None => o1
      case Some((val, echo)) => o1.(tsOk := true, tsIn := val, tsOut := val, tsrIn := echo, tsrOut := echo,
                                    tsDelta := NoDelta, tsrDelta := NoDelta);
    var i1 := i.(inIseq := iack, outIseq := iack, inIack := seqNum, outIack := seqNum,
                 seqDelta := NoDelta, ackDelta := NoDelta, sackOk := i.sackOk && sack);
    var i2 := if o2.tsOk
      then i1.(tsOk := true, tsIn := o2.tsrOut, tsOut := o2.tsrOut, tsrIn := o2.tsOut, tsrOut := o2.tsOut,
               tsDelta := NoDelta, tsrDelta := NoDelta)
      else i1.(tsOk := false);
    (o2, i2)
  }

  /** dysco_set_ack_number_out on a SYN+ACK that comes in. */
  function SynAckReceived(o: OutNumbers, i: InNumbers, seqNum: U32, ack: U32, ts: Option<(U32, U32)>, ws: Option<U8>,
                          sack: bool)
    : (OutNumbers, InNumbers)
  {
    var iack := Wrap(ack - 1);
    var i0 := match ws
      case None => i
      case Some(w) => i.(wsOk := true, wsIn := CutScale(w), wsOut := CutScale(w), wsDelta := 0);
    var i1 := i0.(inIseq := seqNum, outIseq := seqNum, inIack := iack, outIack := iack,
                 seqDelta := NoDelta, ackDelta := NoDelta, sackOk := sack);
    var i2 := match ts
      case None => i1
      case Some((val, echo)) => i1.(tsOk := true, tsIn := val, tsOut := val, tsrIn := echo, tsrOut := echo,
                                    tsDelta := NoDelta, tsrDelta := NoDelta);
    var o1 := o.(outIack := seqNum, inIack := seqNum, outIseq := iack, inIseq := iack, sackOk := o.sackOk && sack);
    var o2 := if i2.tsOk
      then o1.(tsOk := true, tsrOut := i2.tsIn, tsrIn := i2.tsIn, tsOut := i2.tsrIn, tsIn := i2.tsrIn,
               tsDelta := NoDelta, tsrDelta := NoDelta)
      else o1;
    (o2, i2)
  }

  /** The two blocks of one interface see the session from its two sides. */
  ghost predicate Paired(o: OutNumbers, i: InNumbers) {
    && i.outIseq == o.inIack && i.outIack == o.inIseq
    && (i.tsOk ==> i.tsOut == o.tsrIn && i.tsrOut == o.tsIn)
  }

  lemma SetupPairs(o: OutNumbers, i: InNumbers, seqNum: U32, ack: U32, ts: Option<(U32, U32)>, ws: Option<U8>, sack: bool)
    requires !o.tsOk && !i.tsOk
    ensures var sent := SynAckSent(o, i, seqNum, ack, ts, ws, sack);
            Paired(sent.0, sent.1) && sent.0.tsOk == sent.1.tsOk == ts.Some?
    ensures var rcvd := SynAckReceived(o, i, seqNum, ack, ts, ws, sack);
            Paired(rcvd.0, rcvd.1) && rcvd.0.tsOk == rcvd.1.tsOk == ts.Some?
  {
  }

  // ----- reconfiguration

  /** What the left anchor puts into DYSCO_SYN. */
  function SynMessage(leftOld: OutNumbers, leftOldIn: InNumbers): Rcb {
    Rcb(leftOld.inIseq, leftOld.inIack, leftOld.tsIn, leftOld.tsrIn, leftOld.wsIn, leftOldIn.wsIn, leftOld.sackOk)
  }

  /** dysco_control_output_syn: the left anchor's new output block. */
  function LeftOutNumbers(r: Rcb): OutNumbers {
    OutNumbers(r.leftIseq, r.leftIack, r.leftIseq, r.leftIack, NoDelta, NoDelta,
               r.leftIts != 0, r.leftIts, r.leftIts, r.leftItsr, r.leftItsr, NoDelta, NoDelta, r.sackOk,
               r.leftIws != 0, r.leftIws, r.leftIws, 0)
  }

  /** dysco_insert_cb_out_reverse: the input block of an output block. */
  function ReverseNumbers(o: OutNumbers): InNumbers {
    InNumbers(o.outIack, o.outIseq, o.outIack, o.outIseq, NoDelta, NoDelta,
              o.tsOk, o.tsrIn, o.tsrIn, o.tsIn, o.tsIn, NoDelta, NoDelta, o.sackOk, o.wsOk, o.wsIn, o.wsIn, 0)
  }

  /** dysco_build_cb_in_reverse: a zeroed output block with the wire's initial numbers. */
  function BuiltInReverse(r: Rcb): OutNumbers {
    OutNumbers(r.leftIack, r.leftIseq, r.leftIack, r.leftIseq, NoDelta, NoDelta,
               false, 0, 0, 0, 0, NoDelta, NoDelta, false, false, 0, 0, 0)
  }

  /** dysco_build_cb_in_reverse then dysco_compute_deltas_out: the right anchor's new output block. */
  function RightOutNumbers(rightOld: OutNumbers, r: Rcb): OutNumbers {
    var seqDelta := MakeDelta(rightOld.inIseq, r.leftIack);
    var ackDelta := MakeDelta(rightOld.inIack, r.leftIseq);
    var n := OutNumbers(rightOld.inIseq, rightOld.inIack, r.leftIack, r.leftIseq, seqDelta, ackDelta,
                        false, 0, 0, 0, 0, NoDelta, NoDelta, r.sackOk, false, 0, 0, 0);
    var n1 := if r.leftIts == 0 then n
      else n.(tsOk := true, tsIn := rightOld.tsIn, tsOut := r.leftItsr, tsrIn := rightOld.tsrIn, tsrOut := r.leftIts,
              tsDelta := MakeDelta(rightOld.tsIn, r.leftItsr), tsrDelta := MakeDelta(rightOld.tsrIn, r.leftIts));
    if r.leftIwsr == 0 then n1
    else n1.(wsOk := true, wsIn := rightOld.wsIn, wsOut := r.leftIwsr, wsDelta := ScaleDelta(rightOld.wsIn, r.leftIwsr))
  }

  /** dysco_control_reconfig_in then dysco_compute_deltas_in: the right anchor's new input block. `was`
      is the memory it is built in: without timestamps its timestamp fields are never written, and
      without a window scale those of the scale. */
  function RightInNumbers(was: InNumbers, rightOld: OutNumbers, rightOldIn: InNumbers, r: Rcb): InNumbers {
    var n := was.(inIseq := r.leftIseq, inIack := r.leftIack, outIseq := rightOld.inIack, outIack := rightOld.inIseq,
                  seqDelta := MakeDelta(r.leftIseq, rightOld.inIack), ackDelta := MakeDelta(r.leftIack, rightOld.inIseq),
                  sackOk := r.sackOk);
    var n1 := if r.leftIts != 0 then
      n.(tsOk := true, tsIn := r.leftIts, tsOut := rightOldIn.tsOut, tsrIn := r.leftItsr, tsrOut := rightOldIn.tsrOut,
         tsDelta := MakeDelta(r.leftIts, rightOldIn.tsOut), tsrDelta := MakeDelta(r.leftItsr, rightOldIn.tsrOut))
    else n.(tsOk := false);
    WithScale(n1, rightOld, r)
  }

  /** The window scale part of it: the block rescales to what the right stack itself announced. */
  function WithScale(n: InNumbers, rightOld: OutNumbers, r: Rcb): InNumbers {
    if r.leftIws != 0 then
      n.(wsOk := true, wsIn := r.leftIws, wsOut := rightOld.wsIn, wsDelta := ScaleDelta(r.leftIws, rightOld.wsIn))
    else n.(wsOk := false)
  }

  // ----- rewriting one segment

  /** The numbers of one segment: sequence and ack number, SACK edges, timestamp and its echo. */
  datatype Tcp = Tcp(num: U32, ack: U32, edges: seq<U32>, ts: Option<(U32, U32)>)

  function ShiftAll(d: Delta, edges: seq<U32>): (r: seq<U32>)
    ensures |r| == |edges| && forall i :: 0 <= i < |edges| ==> r[i] == Apply(d, edges[i])
  {
    if edges == [] then [] else [Apply(d, edges[0])] + ShiftAll(d, edges[1..])
  }

  function Rewrite(t: Tcp, seqDelta: Delta, ackDelta: Delta, sackOk: bool, tsOk: bool, tsDelta: Delta, tsrDelta: Delta): Tcp {
    Tcp(Apply(seqDelta, t.num), Apply(ackDelta, t.ack),
        if ackDelta.mag != 0 && sackOk then ShiftAll(ackDelta, t.edges) else t.edges,
        match t.ts
        case None => None
        case Some((val, echo)) => Some(if tsOk then (Apply(tsDelta, val), Apply(tsrDelta, echo)) else (val, echo)))
  }

  function RewriteOut(n: OutNumbers, t: Tcp): Tcp {
    Rewrite(t, n.seqDelta, n.ackDelta, n.sackOk, n.tsOk, n.tsDelta, n.tsrDelta)
  }

  function RewriteIn(n: InNumbers, t: Tcp): Tcp {
    Rewrite(t, n.seqDelta, n.ackDelta, n.sackOk, n.tsOk, n.tsDelta, n.tsrDelta)
  }

  // ----- transparency

  /** A segment by stream offsets: counted from the initial numbers of the session it is in. */
  datatype Offsets = Offsets(num: int, ack: int, edges: seq<int>, ts: Option<(int, int)>)

  function Edges(iack: U32, offsets: seq<int>): (r: seq<U32>)
    ensures |r| == |offsets| && forall i :: 0 <= i < |offsets| ==> r[i] == Wrap(iack + offsets[i])
  {
    if offsets == [] then [] else [Wrap(iack + offsets[0])] + Edges(iack, offsets[1..])
  }

  function InSession(iseq: U32, iack: U32, ts: U32, tsr: U32, k: Offsets): Tcp {
    Tcp(Wrap(iseq + k.num), Wrap(iack + k.ack), Edges(iack, k.edges),
        match k.ts
        case None => None
        case Some((val, echo)) => Some((Wrap(ts + val), Wrap(tsr + echo))))
  }

  lemma {:induction false} EdgesMove(a: U32, b: U32, offsets: seq<int>)
    ensures ShiftAll(MakeDelta(a, b), Edges(a, offsets)) == Edges(b, offsets)
  {
    forall i | 0 <= i < |offsets|
      ensures Apply(MakeDelta(a, b), Wrap(a + offsets[i])) == Wrap(b + offsets[i])
    {
      ApplyMovesOffset(a, b, offsets[i]);
    }
  }

  /** A full set of deltas moves a segment from one session's initial numbers to another's. */
  lemma RewriteMoves(k: Offsets, iseq: U32, iseq': U32, iack: U32, iack': U32, ts: U32, ts': U32, tsr: U32, tsr': U32,
                     sackOk: bool, tsOk: bool)
    requires sackOk || k.edges == []
    requires tsOk || k.ts.None?
    ensures Rewrite(InSession(iseq, iack, ts, tsr, k), MakeDelta(iseq, iseq'), MakeDelta(iack, iack'),
                    sackOk, tsOk, MakeDelta(ts, ts'), MakeDelta(tsr, tsr'))
            == InSession(iseq', iack', ts', tsr', k)
  {
    ApplyMovesOffset(iseq, iseq', k.num);
    ApplyMovesOffset(iack, iack', k.ack);
    EdgesMove(iack, iack', k.edges);
    match k.ts
    case None =>
    case Some((val, echo)) =>
      ApplyMovesOffset(ts, ts', val);
      ApplyMovesOffset(tsr, tsr', echo);
  }

  lemma RewriteByNothing(t: Tcp, sackOk: bool, tsOk: bool)
    ensures Rewrite(t, NoDelta, NoDelta, sackOk, tsOk, NoDelta, NoDelta) == t
  {
  }

  /** Timestamps are translated unless the left session's initial timestamp is zero, which the code takes
      for a session without timestamps; they then fit only by coincidence. */
  predicate TimestampsFit(left: OutNumbers, right: OutNumbers, k: Offsets) {
    left.tsIn != 0 || k.ts.None? || (right.tsrIn == left.tsIn && right.tsIn == left.tsrIn)
  }

  lemma SameOffset(a: U32, b: U32, k: int)
    ensures Wrap(a + k) == Wrap(b + k) <==> a == b
  {
    if Wrap(a + k) == Wrap(b + k) {
      var turns := (a + k) / TWO_32 - (b + k) / TWO_32;
      assert a - b == turns * TWO_32;
    }
  }

  /** A segment whose timestamps were left alone says what the other session says if and only if the
      initial timestamps are equal. */
  lemma OtherTimestamps(k: Offsets, iseq: U32, iack: U32, ts: U32, ts': U32, tsr: U32, tsr': U32)
    ensures InSession(iseq, iack, ts, tsr, k) == InSession(iseq, iack, ts', tsr', k)
            <==> k.ts.None? || (ts == ts' && tsr == tsr')
  {
    match k.ts
    case None =>
    case Some((val, echo)) =>
      SameOffset(ts, ts', val);
      SameOffset(tsr, tsr', echo);
  }

  lemma RewriteLeavesTimestamps(k: Offsets, iseq: U32, iseq': U32, iack: U32, iack': U32, ts: U32, tsr: U32, sackOk: bool,
                                tsDelta: Delta, tsrDelta: Delta)
    requires sackOk || k.edges == []
    ensures Rewrite(InSession(iseq, iack, ts, tsr, k), MakeDelta(iseq, iseq'), MakeDelta(iack, iack'),
                    sackOk, false, tsDelta, tsrDelta)
            == InSession(iseq', iack', ts, tsr, k)
  {
    ApplyMovesOffset(iseq, iseq', k.num);
    ApplyMovesOffset(iack, iack', k.ack);
    EdgesMove(iack, iack', k.edges);
  }

  /** Whatever the left stack says about offsets of its session, the right stack hears about the same
      offsets of its own, if and only if the timestamps fit. SACK is translated when the left session
      negotiated it. */
  lemma LeftToRightIsTransparent(left: OutNumbers, leftIn: InNumbers, was: InNumbers, right: OutNumbers, rightIn: InNumbers,
                                 k: Offsets)
    requires Paired(right, rightIn) && (left.tsIn != 0 && k.ts.Some? ==> rightIn.tsOk)
    requires left.sackOk || k.edges == []
    ensures var r := SynMessage(left, leftIn);
            var sent := InSession(left.inIseq, left.inIack, left.tsIn, left.tsrIn, k);
            RewriteIn(RightInNumbers(was, right, rightIn, r), RewriteOut(LeftOutNumbers(r), sent))
            == InSession(right.inIack, right.inIseq, right.tsrIn, right.tsIn, k)
            <==> TimestampsFit(left, right, k)
  {
    var r := SynMessage(left, leftIn);
    var sent := InSession(left.inIseq, left.inIack, left.tsIn, left.tsrIn, k);
    var n := RightInNumbers(was, right, rightIn, r);
    RewriteByNothing(sent, r.sackOk, r.leftIts != 0);
    if left.tsIn != 0 {
      RewriteMoves(k, r.leftIseq, right.inIack, r.leftIack, right.inIseq, r.leftIts, rightIn.tsOut, r.leftItsr,
                   rightIn.tsrOut, r.sackOk, true);
    } else {
      RewriteLeavesTimestamps(k, r.leftIseq, right.inIack, r.leftIack, right.inIseq, left.tsIn, left.tsrIn, r.sackOk,
                              n.tsDelta, n.tsrDelta);
      OtherTimestamps(k, right.inIack, right.inIseq, left.tsIn, right.tsrIn, left.tsrIn, right.tsIn);
    }
  }

  lemma RightToLeftIsTransparent(left: OutNumbers, leftIn: InNumbers, right: OutNumbers, k: Offsets)
    requires left.sackOk || k.edges == []
    ensures var r := SynMessage(left, leftIn);
            var sent := InSession(right.inIseq, right.inIack, right.tsIn, right.tsrIn, k);
            RewriteIn(ReverseNumbers(LeftOutNumbers(r)), RewriteOut(RightOutNumbers(right, r), sent))
            == InSession(left.inIack, left.inIseq, left.tsrIn, left.tsIn, k)
            <==> TimestampsFit(left, right, k)
  {
    var r := SynMessage(left, leftIn);
    if left.tsIn != 0 {
      RewriteMoves(k, right.inIseq, r.leftIack, right.inIack, r.leftIseq, right.tsIn, r.leftItsr, right.tsrIn, r.leftIts,
                   r.sackOk, true);
      RewriteByNothing(InSession(left.inIack, left.inIseq, left.tsrIn, left.tsIn, k), r.sackOk, true);
    } else {
      RewriteLeavesTimestamps(k, right.inIseq, r.leftIack, right.inIack, r.leftIseq, right.tsIn, right.tsrIn, r.sackOk,
                              NoDelta, NoDelta);
      RewriteByNothing(InSession(left.inIack, left.inIseq, right.tsIn, right.tsrIn, k), r.sackOk, false);
      OtherTimestamps(k, left.inIack, left.inIseq, right.tsIn, left.tsrIn, right.tsrIn, left.tsIn);
    }
  }

  // ----- what a SYN+ACK leaves is what it says

  /** The offsets of a SYN+ACK: its own number is its initial number, and it acknowledges the SYN. */
  function SynAckOffsets(timestamped: bool): Offsets {
    Offsets(0, 1, [], if timestamped then Some((0, 0)) else None)
  }

  /** The offsets of the ACK that answers it. */
  function AnswerOffsets(timestamped: bool): Offsets {
    Offsets(1, 1, [], if timestamped then Some((0, 0)) else None)
  }

  /** What that ACK says when it carries the timestamps of the SYN+ACK crosswise. */
  function Answer(seqNum: U32, ack: U32, ts: Option<(U32, U32)>): Tcp {
    Tcp(ack, Wrap(seqNum + 1), [], match ts case None => None case Some((val, echo)) => Some((echo, val)))
  }

  /** The scale a SYN+ACK announces, cut to what is legal, and no change of scale. */
  predicate ScaleTaken(wsOk: bool, wsIn: U16, wsOut: U16, wsDelta: U16, ws: Option<U8>) {
    ws.Some? ==> wsOk && wsIn == wsOut && wsDelta == 0 && wsIn <= 14 && wsIn <= ws.value && (ws.value <= 14 ==> wsIn == ws.value)
  }

  lemma InSynAck(seqNum: U32, ack: U32, ts: Option<(U32, U32)>, val: U32, echo: U32)
    requires ts.Some? ==> ts.value == (val, echo)
    ensures InSession(seqNum, Wrap(ack - 1), val, echo, SynAckOffsets(ts.Some?)) == Tcp(seqNum, ack, [], ts)
  {
    WrapShift(ack - 1, 1);
  }

  lemma InAnswer(seqNum: U32, ack: U32, ts: Option<(U32, U32)>, val: U32, echo: U32)
    requires ts.Some? ==> ts.value == (val, echo)
    ensures InSession(Wrap(ack - 1), seqNum, echo, val, AnswerOffsets(ts.Some?)) == Answer(seqNum, ack, ts)
  {
    WrapShift(ack - 1, 1);
  }

  /** Numbers and timestamps of an output and an input block on either of their sides. */
  ghost predicate Says(o: OutNumbers, i: InNumbers, ko: Offsets, to: Tcp, ki: Offsets, ti: Tcp) {
    && InSession(o.inIseq, o.inIack, o.tsIn, o.tsrIn, ko) == to
    && InSession(o.outIseq, o.outIack, o.tsOut, o.tsrOut, ko) == to
    && InSession(i.inIseq, i.inIack, i.tsIn, i.tsrIn, ki) == ti
    && InSession(i.outIseq, i.outIack, i.tsOut, i.tsrOut, ki) == ti
  }

  /** After a SYN+ACK of the local stack the output block counts as the SYN+ACK does, and the input block as
      the answer to it. */
  lemma SentNumbersArePackets(o: OutNumbers, i: InNumbers, seqNum: U32, ack: U32, ts: Option<(U32, U32)>, ws: Option<U8>,
                              sack: bool)
    ensures var (o', i') := SynAckSent(o, i, seqNum, ack, ts, ws, sack);
            Says(o', i', SynAckOffsets(ts.Some?), Tcp(seqNum, ack, [], ts), AnswerOffsets(ts.Some?), Answer(seqNum, ack, ts))
  {
    hide InSession, Wrap, SynAckOffsets, AnswerOffsets, Answer;
    var (o', i') := SynAckSent(o, i, seqNum, ack, ts, ws, sack);
    InSynAck(seqNum, ack, ts, o'.tsIn, o'.tsrIn);
    InSynAck(seqNum, ack, ts, o'.tsOut, o'.tsrOut);
    InAnswer(seqNum, ack, ts, i'.tsrIn, i'.tsIn);
    InAnswer(seqNum, ack, ts, i'.tsrOut, i'.tsOut);
    assert Says(o', i', SynAckOffsets(ts.Some?), Tcp(seqNum, ack, [], ts), AnswerOffsets(ts.Some?), Answer(seqNum, ack, ts));
  }

  /** After one that came in the input block counts as the SYN+ACK does, and the output block as the answer. */
  lemma ReceivedNumbersArePackets(o: OutNumbers, i: InNumbers, seqNum: U32, ack: U32, ts: Option<(U32, U32)>,
                                  ws: Option<U8>, sack: bool)
    ensures var (o', i') := SynAckReceived(o, i, seqNum, ack, ts, ws, sack);
            Says(o', i', AnswerOffsets(ts.Some?), Answer(seqNum, ack, ts), SynAckOffsets(ts.Some?), Tcp(seqNum, ack, [], ts))
  {
    hide InSession, Wrap, SynAckOffsets, AnswerOffsets, Answer;
    var (o', i') := SynAckReceived(o, i, seqNum, ack, ts, ws, sack);
    InSynAck(seqNum, ack, ts, i'.tsIn, i'.tsrIn);
    InSynAck(seqNum, ack, ts, i'.tsOut, i'.tsrOut);
    InAnswer(seqNum, ack, ts, o'.tsrIn, o'.tsIn);
    InAnswer(seqNum, ack, ts, o'.tsrOut, o'.tsOut);
    assert Says(o', i', AnswerOffsets(ts.Some?), Answer(seqNum, ack, ts), SynAckOffsets(ts.Some?), Tcp(seqNum, ack, [], ts));
  }

  /** The options recorded are those of the SYN+ACK: timestamps in both blocks, its scale in the block of its
      own direction only, SACK when both ends permit it; what it does not carry stays as the SYN left it. */
  lemma OptionsArePackets(o: OutNumbers, i: InNumbers, seqNum: U32, ack: U32, ts: Option<(U32, U32)>, ws: Option<U8>, sack: bool)
    requires !o.tsOk && !i.tsOk
    ensures var (o', i') := SynAckSent(o, i, seqNum, ack, ts, ws, sack);
            && o'.tsOk == i'.tsOk == ts.Some? && o'.sackOk == sack && i'.sackOk == (i.sackOk && sack)
            && ScaleTaken(o'.wsOk, o'.wsIn, o'.wsOut, o'.wsDelta, ws)
            && (ws.None? ==> o'.wsOk == o.wsOk && o'.wsIn == o.wsIn && o'.wsOut == o.wsOut && o'.wsDelta == o.wsDelta)
            && i'.wsOk == i.wsOk && i'.wsIn == i.wsIn && i'.wsOut == i.wsOut && i'.wsDelta == i.wsDelta
    ensures var (o', i') := SynAckReceived(o, i, seqNum, ack, ts, ws, sack);
            && o'.tsOk == i'.tsOk == ts.Some? && i'.sackOk == sack && o'.sackOk == (o.sackOk && sack)
            && ScaleTaken(i'.wsOk, i'.wsIn, i'.wsOut, i'.wsDelta, ws)
            && (ws.None? ==> i'.wsOk == i.wsOk && i'.wsIn == i.wsIn && i'.wsOut == i.wsOut && i'.wsDelta == i.wsDelta)
            && o'.wsOk == o.wsOk && o'.wsIn == o.wsIn && o'.wsOut == o.wsOut && o'.wsDelta == o.wsDelta
  {
  }

  lemma RewriteUnmoved(t: Tcp, seqD: Delta, ackD: Delta, sackOk: bool, tsOk: bool, ts: Delta, tsr: Delta)
    requires seqD.mag == ackD.mag == 0 && (tsOk ==> ts.mag == tsr.mag == 0)
    ensures Rewrite(t, seqD, ackD, sackOk, tsOk, ts, tsr) == t
  {
  }

  /** Before any reconfiguration nothing is rewritten in either direction. */
  lemma NothingRewrittenBefore(o: OutNumbers, i: InNumbers, seqNum: U32, ack: U32, ts: Option<(U32, U32)>, ws: Option<U8>,
                               sack: bool, t: Tcp)
    requires !o.tsOk && !i.tsOk && o.seqDelta.mag == o.ackDelta.mag == 0
    ensures var (o', i') := SynAckSent(o, i, seqNum, ack, ts, ws, sack);
            RewriteOut(o', t) == t && RewriteIn(i', t) == t
    ensures var (o', i') := SynAckReceived(o, i, seqNum, ack, ts, ws, sack);
            RewriteOut(o', t) == t && RewriteIn(i', t) == t
  {
    hide Rewrite;
    var (o1, i1) := SynAckSent(o, i, seqNum, ack, ts, ws, sack);
    var (o2, i2) := SynAckReceived(o, i, seqNum, ack, ts, ws, sack);
    RewriteUnmoved(t, o1.seqDelta, o1.ackDelta, o1.sackOk, o1.tsOk, o1.tsDelta, o1.tsrDelta);
    RewriteUnmoved(t, i1.seqDelta, i1.ackDelta, i1.sackOk, i1.tsOk, i1.tsDelta, i1.tsrDelta);
    RewriteUnmoved(t, o2.seqDelta, o2.ackDelta, o2.sackOk, o2.tsOk, o2.tsDelta, o2.tsrDelta);
    RewriteUnmoved(t, i2.seqDelta, i2.ackDelta, i2.sackOk, i2.tsOk, i2.tsDelta, i2.tsrDelta);
    assert RewriteOut(o1, t) == t && RewriteIn(i1, t) == t && RewriteOut(o2, t) == t && RewriteIn(i2, t) == t;
  }

  // ----- who counts how

  /** The initial numbers and timestamps of a session as one direction sees them. */
  datatype Numbering = Numbering(iseq: U32, iack: U32, ts: U32, tsr: U32)
  {
    function Mirror(): Numbering { Numbering(iack, iseq, tsr, ts) }
  }

  function OutStack(o: OutNumbers): Numbering { Numbering(o.inIseq, o.inIack, o.tsIn, o.tsrIn) }
  function OutWire(o: OutNumbers): Numbering { Numbering(o.outIseq, o.outIack, o.tsOut, o.tsrOut) }
  function InWire(i: InNumbers): Numbering { Numbering(i.inIseq, i.inIack, i.tsIn, i.tsrIn) }
  function InStack(i: InNumbers): Numbering { Numbering(i.outIseq, i.outIack, i.tsOut, i.tsrOut) }

  /** On the new path both anchors count as the left session does, and to its stack each counts as the
      session was before: whatever one anchor's output block puts on the wire the other's input block expects. */
  lemma NewPairsAgree(left: OutNumbers, leftIn: InNumbers, was: InNumbers, right: OutNumbers, rightIn: InNumbers)
    requires Paired(right, rightIn) && left.tsIn != 0 && rightIn.tsOk
    ensures var r := SynMessage(left, leftIn);
            var o, ro, ri := LeftOutNumbers(r), RightOutNumbers(right, r), RightInNumbers(was, right, rightIn, r);
            var i := ReverseNumbers(o);
            && OutWire(o) == InWire(ri) == OutStack(left) && OutWire(ro) == InWire(i) == OutStack(left).Mirror()
            && OutStack(o) == OutStack(left) && InStack(i) == OutStack(left).Mirror()
            && OutStack(ro) == OutStack(right) && InStack(ri) == OutStack(right).Mirror()
            && o.tsOk && i.tsOk && ro.tsOk && ri.tsOk
  {
  }

  /** SACK is translated on all four blocks or on none, and the left pair has the left scale when there is
      one, unchanged in either direction. */
  lemma NewPairsAgreeOnOptions(left: OutNumbers, leftIn: InNumbers, was: InNumbers, right: OutNumbers, rightIn: InNumbers)
    ensures var r := SynMessage(left, leftIn);
            var o, ro, ri := LeftOutNumbers(r), RightOutNumbers(right, r), RightInNumbers(was, right, rightIn, r);
            var i := ReverseNumbers(o);
            && left.sackOk == o.sackOk == i.sackOk == ro.sackOk == ri.sackOk
            && o.wsOk == i.wsOk == (left.wsIn != 0) && o.wsIn == o.wsOut == i.wsIn == i.wsOut == left.wsIn
            && o.wsDelta == i.wsDelta == 0 && ri.wsOk == o.wsOk
            && (left.tsIn == 0 ==> !o.tsOk && !i.tsOk && !ro.tsOk && !ri.tsOk)
  {
  }

  /** The right anchor's two blocks undo each other on every 32-bit number: what comes in as a sequence
      number (timestamp) goes back out as an ack (echo) and the other way round. */
  lemma RightBlocksAreInverse(was: InNumbers, right: OutNumbers, rightIn: InNumbers, r: Rcb, x: U32)
    requires Paired(right, rightIn)
    ensures var i, o := RightInNumbers(was, right, rightIn, r), RightOutNumbers(right, r);
            && Apply(o.ackDelta, Apply(i.seqDelta, x)) == x && Apply(i.seqDelta, Apply(o.ackDelta, x)) == x
            && Apply(i.ackDelta, Apply(o.seqDelta, x)) == x && Apply(o.seqDelta, Apply(i.ackDelta, x)) == x
            && (r.leftIts != 0 && rightIn.tsOk ==>
                  && Apply(o.tsrDelta, Apply(i.tsDelta, x)) == x && Apply(i.tsDelta, Apply(o.tsrDelta, x)) == x
                  && Apply(i.tsrDelta, Apply(o.tsDelta, x)) == x && Apply(o.tsDelta, Apply(i.tsrDelta, x)) == x)
  {
    ApplyRoundTrip(r.leftIseq, right.inIack, x);
    ApplyRoundTrip(right.inIack, r.leftIseq, x);
    ApplyRoundTrip(r.leftIack, right.inIseq, x);
    ApplyRoundTrip(right.inIseq, r.leftIack, x);
    ApplyRoundTrip(r.leftIts, rightIn.tsOut, x);
    ApplyRoundTrip(rightIn.tsOut, r.leftIts, x);
    ApplyRoundTrip(r.leftItsr, rightIn.tsrOut, x);
    ApplyRoundTrip(rightIn.tsrOut, r.leftItsr, x);
  }
}
