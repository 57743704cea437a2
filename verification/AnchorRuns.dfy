/** What one anchor does over any sequence of packets and control messages, however the rest of the
    network behaves: messages may be lost, repeated, reordered and carry any numbers. */
module AnchorRuns {
  import opened Serial
  import opened PathChoice

  datatype Event =
    | DataOut(end: U32)
    | AckOut(ack: U32, fin: bool)
    | NewPathDataIn(start: U32)
    | AckIn(onOldPath: bool, num: U32)
    | SynOut(semantic: bool)
    | SynIn(semantic: bool)
    | SynAckOut
    | SynAckIn(cutoff: U32)
    | AckMsgOut(semantic: bool)
    | AckMsgIn(cutoff: U32)
    | TransferredAtLeft
    | TransferredAtRight

  /** A DYSCO_SYN that finds its reconfiguration block is a retransmission and changes nothing. */
  function React(a: Anchor, e: Event): Anchor {
    match e
    case DataOut(end) => Send(a, true, end, 0, false).anchor
    case AckOut(ack, fin) => Send(a, false, 0, ack, fin).anchor
    case NewPathDataIn(start) => NoteNewPathData(a, start)
    case AckIn(onOldPath, num) => NoteAck(a, onOldPath, num).1
    case SynOut(semantic) => if a.forked then a else SynLeaves(a, semantic)
    case SynIn(semantic) => SynAccepted(a, semantic)
    case SynAckOut => SynAckLeaves(a)
    case SynAckIn(cutoff) => SynAckArrives(a, cutoff)
    case AckMsgOut(semantic) => AckLeaves(a, semantic)
    case AckMsgIn(cutoff) => AckArrives(a, cutoff)
    case TransferredAtLeft => LeftSwitches(a)
    case TransferredAtRight => RightTransferred(a)
  }

  /** The anchor after the first events. */
  function At(a: Anchor, events: seq<Event>): Anchor {
    if events == [] then a else React(At(a, events[..|events| - 1]), events[|events| - 1])
  }

  /** How the i-th event, a packet of the local stack, leaves. */
  function Leaves(a: Anchor, events: seq<Event>, i: nat): Departure
    requires i < |events| && (events[i].DataOut? || events[i].AckOut?)
  {
    var now := At(a, events[..i]);
    match events[i]
    case DataOut(end) => Send(now, true, end, 0, false)
    case AckOut(ack, fin) => Send(now, false, 0, ack, fin)
  }

  ghost predicate Fresh(a: Anchor) {
    a.phase == OnePath && !a.forked && !a.validAckCut && !a.useNpAck && !a.stateT && a.ackCtr == 0
  }

  // ----- at most two capped ACKs, then the new path for good

  predicate NoTransfer(events: seq<Event>) {
    forall i | 0 <= i < |events| ::
      && (events[i].SynOut? || events[i].SynIn? || events[i].AckMsgOut? ==> !events[i].semantic)
      && !events[i].TransferredAtLeft? && !events[i].TransferredAtRight?
  }

  /** A pure ACK that was sent on the old path with its number replaced by the cutoff. */
  predicate IsCapped(a: Anchor, e: Event) {
    e.AckOut? && a.forked && a.phase != OnePath && Caps(a, e.ack, e.fin)
  }

  function Capped(a: Anchor, events: seq<Event>): nat {
    if events == [] then 0
    else
      var before := events[..|events| - 1];
      Capped(a, before) + if IsCapped(At(a, before), events[|events| - 1]) then 1 else 0
  }

  /** The counter and the flag of an anchor that has sent n capped ACKs. */
  ghost predicate Counted(a: Anchor, n: nat) {
    && !a.stateT && (a.forked ==> a.phase != OnePath)
    && a.ackCtr == n <= 2 && (a.useNpAck <==> n == 2) && (a.useNpAck ==> a.validAckCut && a.forked)
  }

  lemma OneMoreCounted(a: Anchor, e: Event, n: nat)
    requires Counted(a, n)
    requires e.SynOut? || e.SynIn? || e.AckMsgOut? ==> !e.semantic
    requires !e.TransferredAtLeft? && !e.TransferredAtRight?
    ensures Counted(React(a, e), n + if IsCapped(a, e) then 1 else 0)
  {
    hide Before;
  }

  lemma {:induction false} CapCounter(a: Anchor, events: seq<Event>)
    requires Fresh(a) && NoTransfer(events)
    ensures Counted(At(a, events), Capped(a, events))
  {
    if events != [] {
      var before, last := events[..|events| - 1], events[|events| - 1];
      assert NoTransfer(before);
      assert last.SynOut? || last.SynIn? || last.AckMsgOut? ==> !last.semantic;
      hide React, IsCapped, Counted;
      CapCounter(a, before);
      OneMoreCounted(At(a, before), last, Capped(a, before));
    }
  }

  /** At most two ACKs are ever capped, whatever arrives and whenever. */
  lemma AtMostTwoCapped(a: Anchor, events: seq<Event>)
    requires Fresh(a) && NoTransfer(events)
    ensures Capped(a, events) <= 2
  {
    CapCounter(a, events);
  }

  lemma StepKeepsFlags(a: Anchor, e: Event)
    ensures var b := React(a, e);
            && (a.useNpAck ==> b.useNpAck) && (a.validAckCut ==> b.validAckCut) && (a.forked ==> b.forked)
            && (a.useNpSeq ==> b.useNpSeq) && (a.stateT ==> b.stateT)
  {
  }

  /** No flag is ever taken back. */
  lemma {:induction false} FlagsStay(a: Anchor, events: seq<Event>, i: nat, j: nat)
    requires i <= j <= |events|
    ensures var x, y := At(a, events[..i]), At(a, events[..j]);
            && (x.useNpAck ==> y.useNpAck) && (x.validAckCut ==> y.validAckCut) && (x.forked ==> y.forked)
            && (x.useNpSeq ==> y.useNpSeq) && (x.stateT ==> y.stateT)
    ensures Capped(a, events[..i]) <= Capped(a, events[..j])
  {
    if i < j {
      FlagsStay(a, events, i, j - 1);
      assert events[..j][..j - 1] == events[..j - 1];
      StepKeepsFlags(At(a, events[..j - 1]), events[j - 1]);
    }
  }

  /** Once two ACKs were capped, every later pure ACK takes the new path with its own number. */
  lemma AcksSwitchForGood(a: Anchor, events: seq<Event>, i: nat, j: nat)
    requires Fresh(a) && NoTransfer(events)
    requires i <= j < |events| && events[j].AckOut?
    requires Capped(a, events[..i]) == 2
    ensures var d := Leaves(a, events, j);
            d.route == NewPath && d.ack == events[j].ack
  {
    FlagsStay(a, events, i, j);
    CapCounter(a, events[..j]);
  }

  /** The sender has learned that the old path has delivered everything, and both paths are up. */
  predicate GivenUp(a: Anchor) {
    a.useNpSeq && a.forked && (a.phase == Established || a.phase == SynReceived)
  }

  /** From then on data takes the new path, however far it is from the cutoff. */
  lemma GivenUpSendsOnNewPath(a: Anchor, end: U32, ack: U32, fin: bool)
    requires GivenUp(a) && !a.stateT
    ensures Send(a, true, end, ack, fin).route == NewPath && Send(a, true, end, ack, fin).anchor == a
  {
  }

  /** Before that, and without state transfer, exactly the segments that do not end before the cutoff do,
      once the cutoff is frozen; none does at a left anchor that waits for its SYN_ACK. */
  lemma NotGivenUpSends(a: Anchor, end: U32, ack: U32, fin: bool)
    requires !a.useNpSeq && a.forked && !a.stateT
    ensures a.phase == Established || a.phase == SynReceived ==>
              (Send(a, true, end, ack, fin).route == OldPath <==> Wrap(end - a.seqCutoff) >= TWO_31)
    ensures a.phase == SynSent ==> Send(a, true, end, ack, fin).route == OldPath
  {
  }

  lemma StepKeepsGivenUp(a: Anchor, e: Event)
    requires GivenUp(a)
    ensures GivenUp(React(a, e))
  {
    hide Before;
  }

  lemma {:induction false} GivenUpStays(a: Anchor, events: seq<Event>, i: nat, j: nat)
    requires i <= j <= |events| && GivenUp(At(a, events[..i]))
    ensures GivenUp(At(a, events[..j]))
  {
    if i < j {
      GivenUpStays(a, events, i, j - 1);
      assert events[..j][..j - 1] == events[..j - 1];
      hide React;
      StepKeepsGivenUp(At(a, events[..j - 1]), events[j - 1]);
    }
  }

  /** Once it has given up the old path, every later data segment takes the new one, whatever arrives in
      between and whatever number the segment carries. */
  lemma DataSwitchesForGood(a: Anchor, events: seq<Event>, i: nat, j: nat)
    requires Fresh(a) && NoTransfer(events)
    requires i <= j < |events| && events[j].DataOut?
    requires GivenUp(At(a, events[..i]))
    ensures Leaves(a, events, j).route == NewPath
  {
    GivenUpStays(a, events, i, j);
    CapCounter(a, events[..j]);
    GivenUpSendsOnNewPath(At(a, events[..j]), events[j].end, 0, false);
  }

  /** Once a cutoff is known, a pure ACK that is not a FIN goes out on the old path only at or
      below the cutoff of that moment: unchanged when it is below, else as the cutoff itself. */
  lemma OldPathAcksAreCapped(a: Anchor, events: seq<Event>, i: nat)
    requires Fresh(a) && NoTransfer(events)
    requires i < |events| && events[i].AckOut?
    ensures var now, d := At(a, events[..i]), Leaves(a, events, i);
            now.forked && now.validAckCut ==>
              && (d.route == OldPath ==>
                    if After(now.ackCutoff, events[i].ack) then d.ack == events[i].ack
                    else d.ack == now.ackCutoff && !events[i].fin && Capped(a, events[..i]) < 2)
              && (d.route == NewPath ==> d.ack == events[i].ack)
  {
    CapCounter(a, events[..i]);
    CapCounter(a, events[..i + 1]);
    assert events[..i + 1][..i] == events[..i];
  }

  // ----- the left anchor moves forward only

  /** Events the left anchor processes: messages addressed to the right anchor are not its own. */
  predicate LeftEvents(events: seq<Event>) {
    forall i | 0 <= i < |events| :: LeftEvent(events[i])
  }

  function Rank(p: Phase): nat {
    match p
    case OnePath => 0
    case SynSent => 1
    case Established => 2
    case SynReceived => 3
  }

  predicate LeftEvent(e: Event) {
    !e.SynIn? && !e.SynAckOut? && !e.AckMsgIn? && !e.TransferredAtRight?
  }

  lemma LeftStepForward(a: Anchor, e: Event)
    requires LeftEvent(e) && Rank(a.phase) <= 2 && (a.forked <==> a.phase != OnePath)
    ensures var b := React(a, e);
            Rank(a.phase) <= Rank(b.phase) <= 2 && (b.forked <==> b.phase != OnePath)
  {
  }

  /** ONE_PATH, SYN_SENT, ESTABLISHED: under any redelivery the phase never moves back. */
  lemma {:induction false} LeftPhaseForward(a: Anchor, events: seq<Event>, i: nat, j: nat)
    requires Fresh(a) && LeftEvents(events) && i <= j <= |events|
    ensures Rank(At(a, events[..i]).phase) <= Rank(At(a, events[..j]).phase) <= 2
    ensures At(a, events[..j]).forked <==> At(a, events[..j]).phase != OnePath
  {
    if j > 0 {
      LeftPhaseForward(a, events, if i < j then i else j - 1, j - 1);
      assert events[..j][..j - 1] == events[..j - 1];
      LeftStepForward(At(a, events[..j - 1]), events[j - 1]);
    }
  }

  // ----- the right anchor moves forward as long as it does not resend DYSCO_SYN_ACK too late

  /** Events the right anchor processes: messages addressed to the left anchor are not its own. */
  predicate RightEvents(events: seq<Event>) {
    forall i | 0 <= i < |events| :: RightEvent(events[i])
  }

  predicate RightEvent(e: Event) {
    !e.SynOut? && !e.SynAckIn? && !e.AckMsgOut? && !e.TransferredAtLeft?
  }

  /** ONE_PATH, SYN_RECEIVED, ESTABLISHED. */
  function RightRank(p: Phase): nat {
    match p
    case OnePath => 0
    case SynReceived => 1
    case Established => 2
    case SynSent => 3
  }

  lemma RightStep(a: Anchor, e: Event)
    requires RightEvent(e) && RightRank(a.phase) <= 2
    ensures var b := React(a, e);
            RightRank(b.phase) <= 2 && (RightRank(b.phase) < RightRank(a.phase) <==> e.SynAckOut? && a.phase == Established)
  {
    hide Before, After, Wrap;
  }

  lemma {:induction false} RightPhases(a: Anchor, events: seq<Event>, i: nat)
    requires Fresh(a) && RightEvents(events) && i <= |events|
    ensures RightRank(At(a, events[..i]).phase) <= 2
  {
    if i > 0 {
      RightPhases(a, events, i - 1);
      assert events[..i][..i - 1] == events[..i - 1];
      RightStep(At(a, events[..i - 1]), events[i - 1]);
    }
  }

  /** The i-th event is a DYSCO_SYN_ACK sent, or sent again, by an anchor that is ESTABLISHED. */
  predicate ResentLate(a: Anchor, events: seq<Event>, i: nat)
    requires i < |events|
  {
    events[i].SynAckOut? && At(a, events[..i]).phase == Established
  }

  /** The phase drops in a step exactly when DYSCO_SYN_ACK leaves an ESTABLISHED anchor, and then it
      drops to SYN_RECEIVED. */
  lemma RightPhaseDropsExactlyWhen(a: Anchor, events: seq<Event>, i: nat)
    requires Fresh(a) && RightEvents(events) && i < |events|
    ensures var before, after := At(a, events[..i]).phase, At(a, events[..i + 1]).phase;
            && (RightRank(after) < RightRank(before) <==> ResentLate(a, events, i))
            && (ResentLate(a, events, i) ==> after == SynReceived)
  {
    RightPhases(a, events, i);
    assert events[..i + 1][..i] == events[..i];
    RightStep(At(a, events[..i]), events[i]);
  }

  /** The phase never moves back between any two moments of a run. */
  ghost predicate RightForward(a: Anchor, events: seq<Event>) {
    forall i, j :: 0 <= i <= j <= |events| ==> RightRank(At(a, events[..i]).phase) <= RightRank(At(a, events[..j]).phase)
  }

  /** A run moves the right anchor forward only if and only if no DYSCO_SYN_ACK leaves it while it is
      ESTABLISHED. */
  lemma RightPhaseForwardExactlyWhen(a: Anchor, events: seq<Event>)
    requires Fresh(a) && RightEvents(events)
    ensures RightForward(a, events) <==> forall i :: 0 <= i < |events| ==> !ResentLate(a, events, i)
  {
    if RightForward(a, events) {
      forall i | 0 <= i < |events|
        ensures !ResentLate(a, events, i)
      {
        RightPhaseDropsExactlyWhen(a, events, i);
      }
    }
    if forall i :: 0 <= i < |events| ==> !ResentLate(a, events, i) {
      forall i, j | 0 <= i <= j <= |events|
        ensures RightRank(At(a, events[..i]).phase) <= RightRank(At(a, events[..j]).phase)
      {
        RightForwardBetween(a, events, i, j);
      }
    }
  }

  lemma {:induction false} RightForwardBetween(a: Anchor, events: seq<Event>, i: nat, j: nat)
    requires Fresh(a) && RightEvents(events) && i <= j <= |events|
    requires forall k :: 0 <= k < |events| ==> !ResentLate(a, events, k)
    ensures RightRank(At(a, events[..i]).phase) <= RightRank(At(a, events[..j]).phase)
  {
    if i < j {
      RightForwardBetween(a, events, i, j - 1);
      RightPhaseDropsExactlyWhen(a, events, j - 1);
      assert !ResentLate(a, events, j - 1);
    }
  }

  /** It can happen, and with state transfer its packets then return to the old path: DYSCO_SYN accepted,
      SYN_ACK sent, STATE_TRANSFERRED received, SYN_ACK sent again. */
  lemma RightPhaseMovesBack(a: Anchor)
    requires Fresh(a)
    ensures var events := [SynIn(true), SynAckOut, TransferredAtRight, SynAckOut];
            var transferred, resent := At(a, events[..3]), At(a, events);
            && RightEvents(events) && ResentLate(a, events, 3)
            && transferred.phase == Established && resent.phase == SynReceived
            && (forall data, end, ack, fin ::
                  && Send(transferred, data, end, ack, fin).route == NewPath
                  && Send(resent, data, end, ack, fin).route == OldPath)
  {
    var events := [SynIn(true), SynAckOut, TransferredAtRight, SynAckOut];
    assert events[..0] == [];
    assert events[..1][..0] == events[..0] && events[..2][..1] == events[..1];
    assert events[..3][..2] == events[..2] && events[..4] == events;
    assert At(a, events[..1]) == React(a, SynIn(true));
    assert At(a, events[..2]) == React(At(a, events[..1]), SynAckOut);
    assert At(a, events[..3]) == React(At(a, events[..2]), TransferredAtRight);
    assert At(a, events) == React(At(a, events[..3]), SynAckOut);
  }

  // ----- with state transfer, one old-path prefix and one new-path suffix

  /** The switch has happened: STATE_TRANSFERRED arrived after the block had forked. */
  ghost predicate Switched(a: Anchor, events: seq<Event>, i: nat)
    requires i <= |events|
  {
    exists j :: 0 <= j < i && events[j].TransferredAtLeft? && At(a, events[..j]).forked
  }

  ghost predicate TransfersState(events: seq<Event>) {
    forall i | 0 <= i < |events| :: events[i].SynOut? ==> events[i].semantic
  }

  lemma {:induction false} SwitchMeansEstablished(a: Anchor, events: seq<Event>, i: nat)
    requires Fresh(a) && LeftEvents(events) && TransfersState(events) && i <= |events|
    ensures var now := At(a, events[..i]);
            && (now.phase == Established <==> Switched(a, events, i))
            && (now.forked <==> now.phase != OnePath) && (now.forked ==> now.stateT)
            && now.phase != SynReceived
  {
    if i > 0 {
      SwitchMeansEstablished(a, events, i - 1);
      assert events[..i][..i - 1] == events[..i - 1];
      assert At(a, events[..i]) == React(At(a, events[..i - 1]), events[i - 1]);
      var last := events[i - 1];
      assert LeftEvent(last);
      if Switched(a, events, i) && !Switched(a, events, i - 1) {
        assert last.TransferredAtLeft? && At(a, events[..i - 1]).forked;
      }
    }
  }

  /** Data and ACKs alike leave the left anchor on the new path exactly when STATE_TRANSFERRED has
      arrived after the SYN left, so the output is one old-path prefix and one new-path suffix. */
  lemma TransferSwitchesOnce(a: Anchor, events: seq<Event>, i: nat)
    requires Fresh(a) && LeftEvents(events) && TransfersState(events)
    requires i < |events| && (events[i].DataOut? || events[i].AckOut?)
    ensures Leaves(a, events, i).route == NewPath <==> Switched(a, events, i)
    ensures events[i].AckOut? ==> Leaves(a, events, i).ack == events[i].ack
  {
    SwitchMeansEstablished(a, events, i);
  }
}
