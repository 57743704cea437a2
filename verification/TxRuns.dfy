/** The transmit ring under any interleaving of the driver's steps and the hardware's: taking a context
    descriptor, mapping a frame, handing it over, writing back and reclaiming may follow each other in
    any order in which each is possible. */
module TxRuns {
  import opened TxReserve
  import opened TxRing

  datatype Step =
    | Context
    | Map(pieces: nat)
    | Queue
    | WriteBack(q: nat)
    | Reclaim

  /** The ring with its packets in flight; beside it every packet ever handed over, how many of them were
      reclaimed, and which the hardware has written back. */
  datatype State = State(v: Slots, m: Marks, flight: seq<Packet>, queued: seq<Packet>, gone: nat, written: set<nat>)

  predicate Enabled(count: nat, s: State, e: Step)
    requires Sized(count, s.v)
  {
    match e
    case Context => s.m.first == s.m.use == s.m.loaded && s.m.use + 1 < s.m.clean + count
    case Map(n) => n > 0 && s.m.loaded == s.m.use && s.m.use + n < s.m.clean + count
    case Queue => s.m.first <= s.m.use < s.m.loaded
    case WriteBack(q) => q < |s.flight|
    case Reclaim => s.flight != [] && s.v.done[Slot(count, s.flight[0].Last())]
  }

  /** n pieces in the slots from base on. */
  function Filled(count: nat, v: Slots, base: nat, n: nat): (r: Slots)
    requires Sized(count, v)
    ensures Sized(count, r)
  {
    if n == 0 then v else WithPiece(Filled(count, v, base, n - 1), Slot(count, base + n - 1))
  }

  /** n slots from lo on are emptied. */
  function Cleared(count: nat, v: Slots, lo: nat, n: nat): (r: Slots)
    requires Sized(count, v)
    ensures Sized(count, r)
  {
    if n == 0 then v
    else
      var b, j := Cleared(count, v, lo, n - 1), Slot(count, lo + n - 1);
      Slots(b.mapped[j := false], b.held[j := false], b.watch, b.done[j := false])
  }

  function Next(count: nat, s: State, e: Step): State
    requires Sized(count, s.v) && Enabled(count, s, e)
  {
    var v, m := s.v, s.m;
    match e
    case Context =>
      s.(v := v.(watch := v.watch[Slot(count, m.use) := Slot(count, m.use)]), m := m.(use := m.use + 1, loaded := m.use + 1))
    case Map(n) =>
      s.(v := Closed(Filled(count, v, m.use, n), Slot(count, m.first), Slot(count, m.use + n - 1)),
         m := m.(loaded := m.use + n))
    case Queue =>
      var p := Packet(m.first, m.loaded - m.first, m.use - m.first);
      s.(m := Marks(m.clean, m.loaded, m.loaded, m.loaded), flight := s.flight + [p], queued := s.queued + [p])
    case WriteBack(q) =>
      s.(v := v.(done := v.done[Slot(count, s.flight[q].Last()) := true]), written := s.written + {s.gone + q})
    case Reclaim =>
      var p := s.flight[0];
      s.(v := Cleared(count, v, p.start, p.n), m := m.(clean := p.End()), flight := s.flight[1..], gone := s.gone + 1)
  }

  function Start(count: nat): State
    requires count >= 2
  {
    State(Slots(seq(count, _ => false), seq(count, _ => false), seq(count, _ => 0), seq(count, _ => false)),
          Marks(0, 0, 0, 0), [], [], 0, {})
  }

  ghost predicate IsRun(count: nat, states: seq<State>, steps: seq<Step>) {
    && count >= 2 && |states| == |steps| + 1 && states[0] == Start(count)
    && forall i | 0 <= i < |steps| ::
         Sized(count, states[i].v) && Enabled(count, states[i], steps[i]) && states[i + 1] == Next(count, states[i], steps[i])
  }

  /** A packet in flight is marked done exactly when it was written back. */
  ghost predicate DoneIsWritten(count: nat, s: State)
    requires Sized(count, s.v)
  {
    forall q :: 0 <= q < |s.flight| ==> (IsDone(count, s.v, s.flight[q]) <==> s.gone + q in s.written)
  }

  predicate IsDone(count: nat, v: Slots, p: Packet)
    requires Sized(count, v)
  {
    v.done[Slot(count, p.Last())]
  }

  /** What is in flight is what was handed over and not reclaimed, in order, without gaps; whatever was
      reclaimed had been written back. */
  ghost predicate Inv(count: nat, s: State) {
    && Ring(count, s.v, s.m, s.flight)
    && s.gone <= |s.queued| && s.flight == s.queued[s.gone..] && Chained(s.queued, 0, s.m.first)
    && DoneIsWritten(count, s)
    && (forall k :: 0 <= k < s.gone ==> k in s.written) && (forall k :: k in s.written ==> k < |s.queued|)
  }

  lemma StartInv(count: nat)
    requires count >= 2
    ensures Inv(count, Start(count))
  {
  }

  lemma ContextStep(count: nat, s: State)
    requires Inv(count, s) && Enabled(count, s, Context)
    ensures Inv(count, Next(count, s, Context))
  {
    hide Slot, Chained, Ring;
    RingInside(count, s.v, s.m, s.flight);
    ContextKeeps(count, s.v, s.m, s.flight);
    SameDone(count, s, Next(count, s, Context));
  }

  /** Steps that touch neither done bits nor packets. */
  lemma SameDone(count: nat, s: State, s': State)
    requires Sized(count, s.v) && Sized(count, s'.v) && DoneIsWritten(count, s)
    requires s'.v.done == s.v.done && s'.flight == s.flight && s'.gone == s.gone && s'.written == s.written
    ensures DoneIsWritten(count, s')
  {
    hide Slot;
    forall q | 0 <= q < |s'.flight|
      ensures IsDone(count, s'.v, s'.flight[q]) <==> s'.gone + q in s'.written
    {
      assert IsDone(count, s.v, s.flight[q]) <==> s.gone + q in s.written;
    }
  }

  lemma {:induction false} FilledIsPiled(count: nat, v: Slots, m: Marks, flight: seq<Packet>, buffers: seq<Buf>, n: nat)
    returns (buffers': seq<Buf>, pieces: seq<Buf>)
    requires Ring(count, v, m, flight) && |buffers| == count && n < count
    ensures |pieces| == n && Piled(count, v, Filled(count, v, m.use, n), buffers', m.use, pieces)
  {
    hide Slot, Piled, Ring;
    RingInside(count, v, m, flight);
    if n == 0 {
      buffers', pieces := buffers, [];
      NothingPiled(count, v, m, flight, buffers);
    } else {
      buffers', pieces := FilledIsPiled(count, v, m, flight, buffers, n - 1);
      PiledLengths(count, v, Filled(count, v, m.use, n - 1), buffers', m.use, pieces);
      PileOne(count, v, Filled(count, v, m.use, n - 1), buffers', m.use, pieces, Buf(0, 0));
      buffers', pieces := buffers'[Slot(count, m.use + (n - 1)) := Buf(0, 0)], pieces + [Buf(0, 0)];
    }
  }

  lemma {:induction false} FilledDone(count: nat, v: Slots, base: nat, n: nat)
    requires Sized(count, v)
    ensures Filled(count, v, base, n).done == v.done
  {
    if n > 0 {
      FilledDone(count, v, base, n - 1);
    }
  }

  lemma MapStep(count: nat, s: State, n: nat)
    requires Inv(count, s) && Enabled(count, s, Map(n))
    ensures Inv(count, Next(count, s, Map(n)))
  {
    hide Slot, Chained, Ring, Piled;
    RingInside(count, s.v, s.m, s.flight);
    var buffers, pieces := FilledIsPiled(count, s.v, s.m, s.flight, seq(count, _ => Buf(0, 0)), n);
    FilledDone(count, s.v, s.m.use, n);
    MapKeeps(count, s.v, Filled(count, s.v, s.m.use, n), buffers, s.m, s.flight, pieces);
    SameDone(count, s, Next(count, s, Map(n)));
  }

  lemma QueueStep(count: nat, s: State)
    requires Inv(count, s) && Enabled(count, s, Queue)
    ensures Inv(count, Next(count, s, Queue))
  {
    hide Slot, Chained, Ring;
    RingInside(count, s.v, s.m, s.flight);
    var s' := Next(count, s, Queue);
    var p := Packet(s.m.first, s.m.loaded - s.m.first, s.m.use - s.m.first);
    QueueKeeps(count, s.v, s.m, s.flight);
    ChainedMore(s.queued, 0, s.m.first, p);
    StillQuiet(count, s.v, s.m, s.flight, p.Last());
    assert s'.queued[s.gone..] == s.queued[s.gone..] + [p];
    forall q | 0 <= q < |s'.flight|
      ensures IsDone(count, s'.v, s'.flight[q]) <==> s'.gone + q in s'.written
    {
      if q < |s.flight| {
        assert IsDone(count, s.v, s.flight[q]) <==> s.gone + q in s.written;
      }
    }
  }

  lemma WriteBackStep(count: nat, s: State, q: nat)
    requires Inv(count, s) && Enabled(count, s, WriteBack(q))
    ensures Inv(count, Next(count, s, WriteBack(q)))
  {
    hide Slot, Chained, Ring;
    RingInside(count, s.v, s.m, s.flight);
    WriteBackKeeps(count, s.v, s.m, s.flight, q);
    var s' := Next(count, s, WriteBack(q));
    forall r | 0 <= r < |s'.flight|
      ensures IsDone(count, s'.v, s'.flight[r]) <==> s'.gone + r in s'.written
    {
      assert IsDone(count, s.v, s.flight[r]) <==> s.gone + r in s.written;
      OwnLast(count, s.v, s.m, s.flight, q, r);
    }
  }

  /** Two packets in flight end in different slots. */
  lemma OwnLast(count: nat, v: Slots, m: Marks, flight: seq<Packet>, q: nat, r: nat)
    requires Ring(count, v, m, flight) && q < |flight| && r < |flight|
    ensures q != r ==> Slot(count, flight[q].Last()) != Slot(count, flight[r].Last())
  {
    hide Slot;
    ChainedBounds(flight, m.clean, m.first);
    if q < r {
      ChainedOrder(flight, m.clean, m.first, q, r);
      SlotsDiffer(count, flight[q].Last(), flight[r].Last());
    } else if r < q {
      ChainedOrder(flight, m.clean, m.first, r, q);
      SlotsDiffer(count, flight[r].Last(), flight[q].Last());
    }
  }

  lemma {:induction false} ClearedIsEmptied(count: nat, v: Slots, lo: nat, n: nat)
    requires Sized(count, v) && n <= count
    ensures Emptied(count, v, Cleared(count, v, lo, n), lo, lo + n)
  {
    hide Slot, Emptied;
    if n == 0 {
      NothingEmptied(count, v, lo);
    } else {
      ClearedIsEmptied(count, v, lo, n - 1);
      EmptyOne(count, v, Cleared(count, v, lo, n - 1), lo, lo + n - 1);
    }
  }

  lemma ReclaimStep(count: nat, s: State)
    requires Inv(count, s) && Enabled(count, s, Reclaim)
    ensures Inv(count, Next(count, s, Reclaim))
  {
    hide Slot, Chained, Ring, Emptied;
    RingInside(count, s.v, s.m, s.flight);
    var p, s' := s.flight[0], Next(count, s, Reclaim);
    FrontPacket(count, s.v, s.m, s.flight);
    ClearedIsEmptied(count, s.v, p.start, p.n);
    ReclaimKeeps(count, s.v, s'.v, s.m, s.flight);
    assert IsDone(count, s.v, p);
    forall q | 0 <= q < |s'.flight|
      ensures IsDone(count, s'.v, s'.flight[q]) <==> s'.gone + q in s'.written
    {
      LaterPacket(count, s.v, s'.v, s.m, s.flight, q + 1);
      assert IsDone(count, s.v, s.flight[q + 1]) <==> s.gone + (q + 1) in s.written;
    }
  }

  lemma StepKeeps(count: nat, s: State, e: Step)
    requires Inv(count, s) && Enabled(count, s, e)
    ensures Inv(count, Next(count, s, e))
  {
    match e
    case Context => ContextStep(count, s);
    case Map(n) => MapStep(count, s, n);
    case Queue => QueueStep(count, s);
    case WriteBack(q) => WriteBackStep(count, s, q);
    case Reclaim => ReclaimStep(count, s);
  }

  /** In every state of every run the ring is valid, the packets in flight are those handed over and not yet
      reclaimed, in order, and they and the reclaimed ones follow each other without gaps. */
  lemma {:induction false} RunKeepsRing(count: nat, states: seq<State>, steps: seq<Step>, i: nat)
    requires IsRun(count, states, steps) && i <= |steps|
    ensures Inv(count, states[i])
  {
    hide Enabled, Next, Inv;
    if i == 0 {
      StartInv(count);
    } else {
      RunKeepsRing(count, states, steps, i - 1);
      StepKeeps(count, states[i - 1], steps[i - 1]);
    }
  }

  /** Packets are reclaimed in the order in which they were handed over, each once, and none before the
      hardware wrote it back. */
  lemma ReclaimedInOrder(count: nat, states: seq<State>, steps: seq<Step>, i: nat)
    requires IsRun(count, states, steps) && i < |steps| && steps[i] == Reclaim
    ensures states[i].gone < |states[i].queued| && states[i].gone in states[i].written
    ensures states[i].flight[0] == states[i].queued[states[i].gone] && states[i + 1].gone == states[i].gone + 1
    ensures states[i + 1].queued == states[i].queued
  {
    RunKeepsRing(count, states, steps, i);
    assert IsDone(count, states[i].v, states[i].flight[0]);
  }
}
