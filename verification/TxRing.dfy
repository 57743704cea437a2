/** The transmit ring of e1000: frames are cut into descriptors, queued, written back by the hardware
    and reclaimed. Positions count descriptors since the start; a position lives in the slot it has
    modulo the ring size. */
module TxRing {
  import opened Powers
  import opened Serial
  import opened TxErrata
  import opened TxReserve

  function Slot(count: nat, pos: nat): (j: nat)
    requires count > 0
    ensures j < count
  {
    pos % count
  }

  lemma SlotOf(count: nat, pos: nat, turns: int, j: nat)
    requires count > 0 && j < count && pos == count * turns + j
    ensures Slot(count, pos) == j
  {
    SameQuotient(count, pos / count, turns, pos % count, j);
  }

  lemma SlotNext(count: nat, pos: nat)
    requires count > 0
    ensures Slot(count, pos + 1) == if Slot(count, pos) + 1 == count then 0 else Slot(count, pos) + 1
  {
    var q, j := pos / count, pos % count;
    assert pos == count * q + j;
    if j + 1 == count {
      assert pos + 1 == count * (q + 1) + 0;
      SlotOf(count, pos + 1, q + 1, 0);
    } else {
      SlotOf(count, pos + 1, q, j + 1);
    }
  }

  /** A whole turn later the slot is the same; within a turn all slots differ. */
  lemma SlotTurn(count: nat, pos: nat)
    requires count > 0
    ensures Slot(count, pos + count) == Slot(count, pos)
  {
    var q, j := pos / count, pos % count;
    assert pos == count * q + j;
    assert pos + count == count * (q + 1) + j;
    SlotOf(count, pos + count, q + 1, j);
  }

  lemma SlotAhead(count: nat, pos: nat, d: nat)
    requires count > 0 && d < count
    ensures var j := Slot(count, pos);
            Slot(count, pos + d) == if j + d < count then j + d else j + d - count
  {
    var q, j := pos / count, pos % count;
    assert pos == count * q + j;
    if j + d < count {
      SlotOf(count, pos + d, q, j + d);
    } else {
      assert pos + d == count * (q + 1) + (j + d - count);
      SlotOf(count, pos + d, q + 1, j + d - count);
    }
  }

  lemma SlotsDiffer(count: nat, p: nat, q: nat)
    requires count > 0 && p < q < p + count
    ensures Slot(count, p) != Slot(count, q)
  {
    SlotAhead(count, p, q - p);
  }

  /** Within a turn nobody else has the slot of p. */
  lemma OnlySlot(count: nat, lo: nat, p: nat)
    requires count > 0 && lo <= p < lo + count
    ensures forall pos :: lo <= pos < lo + count && pos != p ==> Slot(count, pos) != Slot(count, p)
  {
    forall pos | lo <= pos < lo + count && pos != p
      ensures Slot(count, pos) != Slot(count, p)
    {
      if pos < p {
        SlotsDiffer(count, pos, p);
      } else {
        SlotsDiffer(count, p, pos);
      }
    }
  }

  /** Every slot is met once in a turn. */
  lemma SlotMet(count: nat, lo: nat, j: nat) returns (pos: nat)
    requires count > 0 && j < count
    ensures lo <= pos < lo + count && Slot(count, pos) == j
  {
    var s := Slot(count, lo);
    pos := lo + if j >= s then j - s else j + count - s;
    SlotAhead(count, lo, pos - lo);
  }

  /** A frame in the ring: n descriptors from start on, the first for the context if it has one. */
  datatype Packet = Packet(start: nat, n: nat, context: nat)
  {
    function Last(): nat { if n == 0 then start else start + n - 1 }
    function End(): nat { start + n }
  }

  /** The packets follow each other from lo to hi. */
  predicate Chained(pkts: seq<Packet>, lo: nat, hi: nat) {
    if pkts == [] then lo == hi
    else pkts[0].start == lo && pkts[0].n > 0 && pkts[0].context < pkts[0].n && Chained(pkts[1..], pkts[0].End(), hi)
  }

  lemma {:induction false} ChainedBounds(pkts: seq<Packet>, lo: nat, hi: nat)
    requires Chained(pkts, lo, hi)
    ensures lo <= hi && (pkts != [] ==> pkts[0].End() <= hi)
    ensures forall q :: 0 <= q < |pkts| ==> lo <= pkts[q].start && pkts[q].n > 0 && pkts[q].End() <= hi && pkts[q].context < pkts[q].n
  {
    if pkts != [] {
      ChainedBounds(pkts[1..], pkts[0].End(), hi);
      forall q | 0 < q < |pkts|
        ensures lo <= pkts[q].start && pkts[q].n > 0 && pkts[q].End() <= hi && pkts[q].context < pkts[q].n
      {
        assert pkts[q] == pkts[1..][q - 1];
      }
    }
  }

  lemma {:induction false} ChainedOrder(pkts: seq<Packet>, lo: nat, hi: nat, i: nat, j: nat)
    requires Chained(pkts, lo, hi) && i < j < |pkts|
    ensures pkts[i].End() <= pkts[j].start
  {
    ChainedBounds(pkts[1..], pkts[0].End(), hi);
    if i == 0 {
      assert pkts[j] == pkts[1..][j - 1];
    } else {
      ChainedOrder(pkts[1..], pkts[0].End(), hi, i - 1, j - 1);
    }
  }

  /** The last descriptor of one packet is not among the others of any packet. */
  lemma LastIsOwn(pkts: seq<Packet>, lo: nat, hi: nat, q: nat, r: nat, pos: nat)
    requires Chained(pkts, lo, hi) && q < |pkts| && r < |pkts| && pkts[r].start <= pos < pkts[r].Last()
    ensures pos != pkts[q].Last() && lo <= pos < hi
  {
    ChainedBounds(pkts, lo, hi);
    if r < q {
      ChainedOrder(pkts, lo, hi, r, q);
    } else if q < r {
      ChainedOrder(pkts, lo, hi, q, r);
    }
  }

  lemma {:induction false} ChainedMore(pkts: seq<Packet>, lo: nat, hi: nat, p: Packet)
    requires Chained(pkts, lo, hi) && p.start == hi && p.n > 0 && p.context < p.n
    ensures Chained(pkts + [p], lo, p.End())
  {
    if pkts == [] {
      assert pkts + [p] == [p];
      assert [p][1..] == [];
    } else {
      ChainedMore(pkts[1..], pkts[0].End(), hi, p);
      assert (pkts + [p])[1..] == pkts[1..] + [p];
    }
  }

  // ----- what the ring holds, as values

  /** dma != 0, skb != NULL, next_to_watch and the DD bit of every slot. */
  datatype Slots = Slots(mapped: seq<bool>, held: seq<bool>, watch: seq<nat>, done: seq<bool>)

  /** Descriptors before clean are reclaimed, those before first belong to queued packets; then come the
      context and the pieces of the frame being prepared, up to loaded. */
  datatype Marks = Marks(clean: nat, first: nat, use: nat, loaded: nat)

  predicate Sized(count: nat, v: Slots) {
    |v.mapped| == count && |v.held| == count && |v.watch| == count && |v.done| == count && count >= 2
  }

  predicate Empty(count: nat, v: Slots, pos: nat)
    requires Sized(count, v)
  {
    !v.mapped[Slot(count, pos)] && !v.held[Slot(count, pos)] && !v.done[Slot(count, pos)]
  }

  predicate Loaded(count: nat, v: Slots, pos: nat)
    requires Sized(count, v)
  {
    v.mapped[Slot(count, pos)]
  }

  predicate Quiet(count: nat, v: Slots, pos: nat)
    requires Sized(count, v)
  {
    !v.done[Slot(count, pos)]
  }

  /** The pieces are mapped, the last descriptor holds the frame, the first one names the last, and
      only the last may have been written back. */
  ghost predicate Carries(count: nat, v: Slots, p: Packet)
    requires Sized(count, v)
  {
    && p.n > 0
    && (forall pos :: p.start + p.context <= pos < p.End() ==> Loaded(count, v, pos))
    && v.held[Slot(count, p.Last())] && v.watch[Slot(count, p.start)] == Slot(count, p.Last())
    && (forall pos :: p.start <= pos < p.Last() ==> Quiet(count, v, pos))
  }

  ghost predicate AllCarry(count: nat, v: Slots, pkts: seq<Packet>)
    requires Sized(count, v)
  {
    forall q :: 0 <= q < |pkts| ==> Carries(count, v, pkts[q])
  }

  /** The frame being prepared is mapped as one packet but not handed over. */
  ghost predicate Prepared(count: nat, v: Slots, m: Marks)
    requires Sized(count, v)
  {
    && m.first <= m.use <= m.first + 1 && m.use <= m.loaded
    && (m.loaded > m.use ==> Carries(count, v, Packet(m.first, m.loaded - m.first, m.use - m.first)))
    && (forall pos :: m.first <= pos < m.loaded ==> Quiet(count, v, pos))
  }

  ghost predicate Ring(count: nat, v: Slots, m: Marks, pkts: seq<Packet>) {
    && Sized(count, v) && m.loaded < m.clean + count
    && Chained(pkts, m.clean, m.first) && AllCarry(count, v, pkts)
    && Prepared(count, v, m)
    && (forall pos :: m.loaded <= pos < m.clean + count ==> Empty(count, v, pos))
    && (forall j :: 0 <= j < count ==> v.watch[j] < count)
  }

  /** The hardware writes back the last descriptor of a queued packet. */
  lemma WriteBackKeeps(count: nat, v: Slots, m: Marks, pkts: seq<Packet>, q: nat)
    requires Ring(count, v, m, pkts) && q < |pkts|
    ensures Ring(count, v.(done := v.done[Slot(count, pkts[q].Last()) := true]), m, pkts)
  {
    hide Slot, Chained;
    var last := pkts[q].Last();
    var v' := v.(done := v.done[Slot(count, last) := true]);
    ChainedBounds(pkts, m.clean, m.first);
    OnlySlot(count, m.clean, last);
    forall r | 0 <= r < |pkts|
      ensures Carries(count, v', pkts[r])
    {
      assert Carries(count, v, pkts[r]);
      forall pos | pkts[r].start <= pos < pkts[r].Last()
        ensures Quiet(count, v', pos)
      {
        LastIsOwn(pkts, m.clean, m.first, q, r, pos);
        assert Quiet(count, v, pos);
      }
      assert forall pos :: pkts[r].start + pkts[r].context <= pos < pkts[r].End() ==> Loaded(count, v', pos)
      by {
        assert forall pos :: Loaded(count, v', pos) <==> Loaded(count, v, pos);
      }
    }
    forall pos | m.first <= pos < m.clean + count
      ensures SameSlot(count, v, v', pos)
    {
    }
    if m.loaded > m.use {
      CarriesSame(count, v, v', Packet(m.first, m.loaded - m.first, m.use - m.first));
    }
    forall pos | m.first <= pos < m.loaded
      ensures Quiet(count, v', pos)
    {
      assert Quiet(count, v, pos) && SameSlot(count, v, v', pos);
    }
    forall pos | m.loaded <= pos < m.clean + count
      ensures Empty(count, v', pos)
    {
      assert Empty(count, v, pos) && SameSlot(count, v, v', pos);
    }
  }

  /** With nothing in flight no descriptor is written back, whatever next_to_watch says. */
  lemma NothingDone(count: nat, v: Slots, m: Marks)
    requires Ring(count, v, m, [])
    ensures forall j :: 0 <= j < count ==> !v.done[j]
  {
    forall j | 0 <= j < count
      ensures !v.done[j]
    {
      var pos := SlotMet(count, m.clean, j);
      assert pos < m.loaded ==> Quiet(count, v, pos);
      assert pos >= m.loaded ==> Empty(count, v, pos);
    }
  }

  /** The slots of the positions from lo up to hi are emptied, all others stay. */
  ghost predicate Emptied(count: nat, v: Slots, v': Slots, lo: nat, hi: nat) {
    && Sized(count, v) && Sized(count, v') && v'.watch == v.watch
    && (forall pos :: lo <= pos < hi ==> Empty(count, v', pos))
    && (forall pos :: hi <= pos < lo + count ==> SameSlot(count, v, v', pos))
  }

  predicate SameSlot(count: nat, v: Slots, v': Slots, pos: nat)
    requires Sized(count, v) && Sized(count, v')
  {
    var j := Slot(count, pos);
    v'.mapped[j] == v.mapped[j] && v'.held[j] == v.held[j] && v'.watch[j] == v.watch[j] && v'.done[j] == v.done[j]
  }

  lemma CarriesSame(count: nat, v: Slots, v': Slots, p: Packet)
    requires Sized(count, v) && Sized(count, v') && Carries(count, v, p)
    requires forall pos :: p.start <= pos < p.End() ==> SameSlot(count, v, v', pos)
    ensures Carries(count, v', p)
  {
    hide Slot;
    assert SameSlot(count, v, v', p.Last()) && SameSlot(count, v, v', p.start);
    forall pos | p.start + p.context <= pos < p.End()
      ensures Loaded(count, v', pos)
    {
      assert Loaded(count, v, pos) && SameSlot(count, v, v', pos);
    }
    forall pos | p.start <= pos < p.Last()
      ensures Quiet(count, v', pos)
    {
      assert Quiet(count, v, pos) && SameSlot(count, v, v', pos);
    }
  }

  /** Reclaiming the oldest packet leaves a ring with one packet less. */
  lemma ReclaimKeeps(count: nat, v: Slots, v': Slots, m: Marks, pkts: seq<Packet>)
    requires Ring(count, v, m, pkts) && pkts != []
    requires Emptied(count, v, v', pkts[0].start, pkts[0].End())
    ensures Ring(count, v', m.(clean := pkts[0].End()), pkts[1..])
  {
    hide Slot;
    var next := pkts[0].End();
    ChainedBounds(pkts, m.clean, m.first);
    ChainedBounds(pkts[1..], next, m.first);
    forall q | 0 <= q < |pkts[1..]|
      ensures Carries(count, v', pkts[1..][q])
    {
      assert Carries(count, v, pkts[q + 1]);
      CarriesSame(count, v, v', pkts[1..][q]);
    }
    if m.loaded > m.use {
      CarriesSame(count, v, v', Packet(m.first, m.loaded - m.first, m.use - m.first));
    }
    forall pos | m.first <= pos < m.loaded
      ensures Quiet(count, v', pos)
    {
      assert Quiet(count, v, pos) && SameSlot(count, v, v', pos);
    }
    forall pos | m.loaded <= pos < next + count
      ensures Empty(count, v', pos)
    {
      if pos < m.clean + count {
        assert Empty(count, v, pos) && SameSlot(count, v, v', pos);
      } else {
        SlotTurn(count, pos - count);
        assert Empty(count, v', pos - count);
      }
    }
  }

  // ----- preparing and queueing a frame

  lemma SameElsewhere(count: nat, v: Slots, v': Slots, m: Marks, pkts: seq<Packet>, upTo: nat)
    requires Ring(count, v, m, pkts) && Sized(count, v')
    requires m.loaded <= upTo <= m.clean + count
    requires forall pos :: m.clean <= pos < m.first ==> SameSlot(count, v, v', pos)
    requires forall pos :: upTo <= pos < m.clean + count ==> SameSlot(count, v, v', pos)
    ensures AllCarry(count, v', pkts)
    ensures forall pos :: upTo <= pos < m.clean + count ==> Empty(count, v', pos)
  {
    hide Slot;
    ChainedBounds(pkts, m.clean, m.first);
    forall q | 0 <= q < |pkts|
      ensures Carries(count, v', pkts[q])
    {
      assert Carries(count, v, pkts[q]);
      CarriesSame(count, v, v', pkts[q]);
    }
    forall pos | upTo <= pos < m.clean + count
      ensures Empty(count, v', pos)
    {
      assert Empty(count, v, pos) && SameSlot(count, v, v', pos);
    }
  }

  /** The context descriptor takes the next slot. */
  lemma ContextKeeps(count: nat, v: Slots, m: Marks, pkts: seq<Packet>)
    requires Ring(count, v, m, pkts) && m.first == m.use == m.loaded && m.use + 1 < m.clean + count
    ensures Ring(count, v.(watch := v.watch[Slot(count, m.use) := Slot(count, m.use)]),
                 m.(use := m.use + 1, loaded := m.use + 1), pkts)
  {
    hide Slot, Chained, AllCarry, Carries;
    var v' := v.(watch := v.watch[Slot(count, m.use) := Slot(count, m.use)]);
    ChainedBounds(pkts, m.clean, m.first);
    OnlySlot(count, m.clean, m.use);
    forall pos | m.clean <= pos < m.clean + count && pos != m.use
      ensures SameSlot(count, v, v', pos)
    {
    }
    SameElsewhere(count, v, v', m, pkts, m.use + 1);
    assert Empty(count, v, m.use);
  }

  /** Pieces of the given pieces were put into the slots from base on, nothing else changed. */
  ghost predicate Piled(count: nat, v0: Slots, v: Slots, buffers: seq<Buf>, base: nat, pieces: seq<Buf>) {
    && Sized(count, v0) && Sized(count, v) && |buffers| == count && |pieces| < count
    && v.held == v0.held && v.done == v0.done
    && (forall k :: 0 <= k < |pieces| ==> HasPiece(count, v, buffers, base, pieces, k))
    && (forall pos :: base + |pieces| <= pos < base + count ==> SameSlot(count, v0, v, pos))
    && (forall j :: 0 <= j < count ==> v.watch[j] < count)
  }

  predicate HasPiece(count: nat, v: Slots, buffers: seq<Buf>, base: nat, pieces: seq<Buf>, k: nat)
    requires Sized(count, v) && |buffers| == count && k < |pieces|
  {
    v.mapped[Slot(count, base + k)] && buffers[Slot(count, base + k)] == pieces[k]
  }

  /** The buffer_info of one slot is filled in. */
  function WithPiece(v: Slots, j: nat): Slots
    requires j < |v.mapped| && j < |v.watch|
  {
    v.(mapped := v.mapped[j := true], watch := v.watch[j := j])
  }

  lemma PileOne(count: nat, v0: Slots, v: Slots, buffers: seq<Buf>, base: nat, pieces: seq<Buf>, piece: Buf)
    requires Piled(count, v0, v, buffers, base, pieces) && |pieces| + 1 < count
    ensures var j := Slot(count, base + |pieces|);
            Piled(count, v0, WithPiece(v, j), buffers[j := piece], base, pieces + [piece])
  {
    hide Slot;
    var pos := base + |pieces|;
    var j := Slot(count, pos);
    var v', buffers' := WithPiece(v, j), buffers[j := piece];
    OnlySlot(count, base, pos);
    forall k | 0 <= k < |pieces| + 1
      ensures HasPiece(count, v', buffers', base, pieces + [piece], k)
    {
      if k < |pieces| {
        assert HasPiece(count, v, buffers, base, pieces, k);
      }
    }
    forall k | pos + 1 <= k < base + count
      ensures SameSlot(count, v0, v', k)
    {
      assert SameSlot(count, v0, v, k);
    }
  }

  /** What e1000_tx_map leaves: the last slot holds the frame, the first names the last. */
  function Closed(v: Slots, first: nat, last: nat): Slots
    requires last < |v.held| && first < |v.watch|
  {
    v.(held := v.held[last := true], watch := v.watch[first := last])
  }

  lemma MapKeeps(count: nat, v0: Slots, v: Slots, buffers: seq<Buf>, m: Marks, pkts: seq<Packet>, pieces: seq<Buf>)
    requires Ring(count, v0, m, pkts) && m.loaded == m.use
    requires Piled(count, v0, v, buffers, m.use, pieces) && pieces != [] && m.use + |pieces| < m.clean + count
    ensures var v' := Closed(v, Slot(count, m.first), Slot(count, m.use + |pieces| - 1));
            Ring(count, v', m.(loaded := m.use + |pieces|), pkts)
  {
    hide Slot, Chained, AllCarry, Piled;
    ChainedBounds(pkts, m.clean, m.first);
    PiledElsewhere(count, v0, v, buffers, m.use, pieces, m.clean, m.first);
    var last := m.use + |pieces| - 1;
    var v' := Closed(v, Slot(count, m.first), Slot(count, last));
    OnlySlot(count, m.clean, m.first);
    OnlySlot(count, m.clean, last);
    forall pos | m.clean <= pos < m.first || last + 1 <= pos < m.clean + count
      ensures SameSlot(count, v0, v', pos)
    {
      assert SameSlot(count, v0, v, pos);
    }
    SameElsewhere(count, v0, v', m, pkts, last + 1);
    PreparedFrame(count, v0, v, buffers, m, pkts, pieces);
  }

  /** In positions before the pieces, too, nothing changed. */
  lemma PiledElsewhere(count: nat, v0: Slots, v: Slots, buffers: seq<Buf>, base: nat, pieces: seq<Buf>, lo: nat, first: nat)
    requires Piled(count, v0, v, buffers, base, pieces)
    requires lo <= first <= base && base + |pieces| < lo + count
    ensures forall pos :: lo <= pos < base ==> SameSlot(count, v0, v, pos)
    ensures forall pos :: base + |pieces| <= pos < lo + count ==> SameSlot(count, v0, v, pos)
    ensures forall j :: 0 <= j < count ==> v.watch[j] < count
    ensures v.held == v0.held && v.done == v0.done && Sized(count, v)
    ensures forall k :: base <= k < base + |pieces| ==> Loaded(count, v, k)
  {
    hide Slot;
    forall pos | lo <= pos < base
      ensures SameSlot(count, v0, v, pos)
    {
      SlotTurn(count, pos);
      assert SameSlot(count, v0, v, pos + count);
    }
    forall k | base <= k < base + |pieces|
      ensures Loaded(count, v, k)
    {
      assert HasPiece(count, v, buffers, base, pieces, k - base);
    }
  }

  lemma PreparedFrame(count: nat, v0: Slots, v: Slots, buffers: seq<Buf>, m: Marks, pkts: seq<Packet>, pieces: seq<Buf>)
    requires Ring(count, v0, m, pkts) && m.loaded == m.use
    requires Piled(count, v0, v, buffers, m.use, pieces) && pieces != [] && m.use + |pieces| < m.clean + count
    ensures var v' := Closed(v, Slot(count, m.first), Slot(count, m.use + |pieces| - 1));
            Sized(count, v') && Prepared(count, v', m.(loaded := m.use + |pieces|))
            && forall j :: 0 <= j < count ==> v'.watch[j] < count
  {
    hide Slot, Piled, Chained, AllCarry;
    var last := m.use + |pieces| - 1;
    ChainedBounds(pkts, m.clean, m.first);
    PiledElsewhere(count, v0, v, buffers, m.use, pieces, m.clean, m.first);
    var v' := Closed(v, Slot(count, m.first), Slot(count, last));
    forall pos | m.first <= pos < m.use + |pieces|
      ensures Quiet(count, v', pos)
    {
      assert pos < m.loaded ==> Quiet(count, v0, pos);
      assert pos >= m.loaded ==> Empty(count, v0, pos);
    }
    forall pos | m.use <= pos < m.use + |pieces|
      ensures Loaded(count, v', pos)
    {
      assert Loaded(count, v, pos);
    }
  }

  /** Handing the frame over makes it the newest packet. */
  lemma QueueKeeps(count: nat, v: Slots, m: Marks, pkts: seq<Packet>)
    requires Ring(count, v, m, pkts) && m.loaded > m.use
    ensures var p := Packet(m.first, m.loaded - m.first, m.use - m.first);
            Ring(count, v, Marks(m.clean, m.loaded, m.loaded, m.loaded), pkts + [p])
  {
    hide Slot, Carries;
    ChainedMore(pkts, m.clean, m.first, Packet(m.first, m.loaded - m.first, m.use - m.first));
  }

  /** One more slot is emptied. */
  lemma EmptyOne(count: nat, v0: Slots, v: Slots, lo: nat, pos: nat)
    requires Emptied(count, v0, v, lo, pos) && lo <= pos < lo + count
    ensures var j := Slot(count, pos);
            Emptied(count, v0, Slots(v.mapped[j := false], v.held[j := false], v.watch, v.done[j := false]), lo, pos + 1)
  {
    hide Slot;
    var j := Slot(count, pos);
    var v' := Slots(v.mapped[j := false], v.held[j := false], v.watch, v.done[j := false]);
    OnlySlot(count, lo, pos);
    forall k | lo <= k < pos + 1
      ensures Empty(count, v', k)
    {
      assert k < pos ==> Empty(count, v, k);
    }
    forall k | pos + 1 <= k < lo + count
      ensures SameSlot(count, v0, v', k)
    {
      assert SameSlot(count, v0, v, k);
    }
  }

  lemma NothingEmptied(count: nat, v: Slots, lo: nat)
    requires Sized(count, v)
    ensures Emptied(count, v, v, lo, lo)
  {
  }

  lemma RingInside(count: nat, v: Slots, m: Marks, pkts: seq<Packet>)
    requires Ring(count, v, m, pkts)
    ensures Sized(count, v) && m.clean <= m.first <= m.use <= m.loaded < m.clean + count
    ensures forall j :: 0 <= j < count ==> v.watch[j] < count
  {
    ChainedBounds(pkts, m.clean, m.first);
  }

  lemma FrontPacket(count: nat, v: Slots, m: Marks, pkts: seq<Packet>)
    requires Ring(count, v, m, pkts) && pkts != []
    ensures var p := pkts[0];
            && p.start == m.clean && 0 < p.n < count && p.End() <= m.first < m.clean + count
            && Sized(count, v) && v.watch[Slot(count, m.clean)] == Slot(count, p.Last())
  {
    ChainedBounds(pkts, m.clean, m.first);
    hide Slot;
    assert Carries(count, v, pkts[0]);
  }

  lemma LaterPacket(count: nat, v: Slots, v': Slots, m: Marks, pkts: seq<Packet>, q: nat)
    requires Ring(count, v, m, pkts) && 0 < q < |pkts|
    requires Emptied(count, v, v', pkts[0].start, pkts[0].End())
    ensures Sized(count, v) && Sized(count, v')
    ensures v'.done[Slot(count, pkts[q].Last())] == v.done[Slot(count, pkts[q].Last())]
  {
    hide Slot;
    ChainedBounds(pkts, m.clean, m.first);
    ChainedOrder(pkts, m.clean, m.first, 0, q);
    assert SameSlot(count, v, v', pkts[q].Last());
  }

  lemma NothingPiled(count: nat, v: Slots, m: Marks, pkts: seq<Packet>, buffers: seq<Buf>)
    requires Ring(count, v, m, pkts) && |buffers| == count
    ensures Piled(count, v, v, buffers, m.use, [])
  {
  }

  /** The head is cut up to the offset; len bytes are left. */
  ghost predicate HeadLeft(f: Frame, e: Errata, pieces: seq<Buf>, offset: nat, len: nat)
    requires Sendable(f, e)
  {
    && len + offset == f.head.size
    && Located(f.head.addr, HeadOf(f, e))
       == pieces + Located(f.head.addr + offset,
                           if offset == 0 then HeadOf(f, e)
                           else Pieces(f.head.addr + offset, len, MaxPerTxd(f), f.mss != 0 && f.frags == [], e.pcix82544))
  }

  lemma HeadStart(f: Frame, e: Errata)
    requires Sendable(f, e)
    ensures HeadLeft(f, e, [], 0, f.head.size)
  {
    hide HeadOf, Located;
  }

  /** The next piece of the head. */
  lemma HeadStep(f: Frame, e: Errata, pieces: seq<Buf>, offset: nat, len: nat, size: nat)
    requires Sendable(f, e) && HeadLeft(f, e, pieces, offset, len) && len > 0
    requires var sentinel := f.mss != 0 && f.frags == [];
             size == if offset == 0 then FirstSize(f.head.addr, len, MaxPerTxd(f), sentinel, e)
                     else PieceSize(f.head.addr + offset, len, MaxPerTxd(f), sentinel, e.pcix82544)
    ensures 0 < size <= len && HeadLeft(f, e, pieces + [Buf(f.head.addr + offset, size)], offset + size, len - size)
    ensures |pieces| < |HeadOf(f, e)|
  {
    hide FirstSize, PieceSize, Located, MaxPerTxd, HeadOf, Pieces;
    var at, sentinel := f.head.addr + offset, f.mss != 0 && f.frags == [];
    if offset == 0 {
      FirstOfHead(f, e);
    } else {
      PiecesInFront(at, len, MaxPerTxd(f), sentinel, e.pcix82544);
    }
    var rest := Pieces(at + size, len - size, MaxPerTxd(f), sentinel, e.pcix82544);
    FrontOfAll(pieces, at, size, rest);
    assert Located(f.head.addr, HeadOf(f, e)) == pieces + Located(at, [size] + rest);
    assert HeadLeft(f, e, pieces + [Buf(at, size)], offset + size, len - size);
  }

  lemma HeadDone(f: Frame, e: Errata, pieces: seq<Buf>, offset: nat)
    requires Sendable(f, e) && HeadLeft(f, e, pieces, offset, 0)
    ensures pieces == Located(f.head.addr, HeadOf(f, e))
  {
    hide HeadOf;
    NoPieces(f.head.addr + offset, MaxPerTxd(f), f.mss != 0 && f.frags == [], e.pcix82544);
  }

  lemma PiecesInFront(addr: nat, len: nat, max: nat, sentinel: bool, hang: bool)
    requires max > 0 && len > 0
    ensures var size := PieceSize(addr, len, max, sentinel, hang);
            && 0 < size <= len
            && Pieces(addr, len, max, sentinel, hang) == [size] + Pieces(addr + size, len - size, max, sentinel, hang)
  {
  }

  lemma NoPieces(addr: nat, max: nat, sentinel: bool, hang: bool)
    requires max > 0
    ensures Pieces(addr, 0, max, sentinel, hang) == [] && forall at :: Located(at, []) == []
  {
  }

  lemma {:induction false} PiecesUpTo(f: Frame, e: Errata, n: nat)
    requires Sendable(f, e) && n <= |f.frags|
    ensures |FramePieces(f, e, n)| <= |FramePieces(f, e, |f.frags|)|
    decreases |f.frags| - n
  {
    hide HeadOf, FragPieces;
    if n < |f.frags| {
      PiecesUpTo(f, e, n + 1);
    }
  }

  lemma PiledLengths(count: nat, v0: Slots, v: Slots, buffers: seq<Buf>, base: nat, pieces: seq<Buf>)
    requires Piled(count, v0, v, buffers, base, pieces)
    ensures |buffers| == count && forall k :: 0 <= k < |pieces| ==> buffers[Slot(count, base + k)] == pieces[k]
  {
    hide Slot;
    forall k | 0 <= k < |pieces|
      ensures buffers[Slot(count, base + k)] == pieces[k]
    {
      assert HasPiece(count, v, buffers, base, pieces, k);
    }
  }

  lemma StillQuiet(count: nat, v: Slots, m: Marks, pkts: seq<Packet>, pos: nat)
    requires Ring(count, v, m, pkts) && m.first <= pos < m.loaded
    ensures Sized(count, v) && !v.done[Slot(count, pos)]
  {
    assert Quiet(count, v, pos);
  }

  class TxRing {
    const count: nat
    const buffers: array<Buf>
    const watch: array<nat>
    const mapped: array<bool>
    const held: array<bool>
    const done: array<bool>
    const pcix: bool
    const is82544: bool
    const pcix82544: bool

    var nextToUse: nat
    var nextToClean: nat
    var lastTxTso: bool

    ghost var marks: Marks
    ghost var flight: seq<Packet>

    ghost predicate Arrays() {
      && count >= 2 && buffers.Length == count && watch.Length == count && mapped.Length == count
      && held.Length == count && done.Length == count
      && mapped != held && held != done && done != mapped
    }

    ghost function View(): Slots
      reads watch, mapped, held, done
    {
      Slots(mapped[..], held[..], watch[..], done[..])
    }

    ghost predicate Valid()
      reads this, watch, mapped, held, done
    {
      && Arrays()
      && nextToUse == Slot(count, marks.use) && nextToClean == Slot(count, marks.clean)
      && Ring(count, View(), marks, flight)
    }

    constructor (size: nat, onPcix: bool, mac82544: bool)
      requires size >= 2
      ensures Valid() && count == size && flight == [] && marks == Marks(0, 0, 0, 0)
      ensures fresh(buffers) && fresh(watch) && fresh(mapped) && fresh(held) && fresh(done)
    {
      count, pcix, is82544, pcix82544 := size, onPcix, mac82544, onPcix && mac82544;
      buffers := new Buf[size](_ => Buf(0, 0));
      watch := new nat[size](_ => 0);
      mapped := new bool[size](_ => false);
      held := new bool[size](_ => false);
      done := new bool[size](_ => false);
      nextToUse, nextToClean, lastTxTso := 0, 0, false;
      marks, flight := Marks(0, 0, 0, 0), [];
      new;
      SlotOf(count, 0, 0, 0);
    }

    /** E1000_DESC_UNUSED: the descriptors in flight, those prepared, the unused ones and one more make
        up the ring. */
    method Unused() returns (n: nat)
      requires Valid()
      ensures n + (marks.use - marks.clean) + 1 == count
    {
      hide Slot;
      ChainedBounds(flight, marks.clean, marks.first);
      SlotAhead(count, marks.clean, marks.use - marks.clean);
      var unused: int := (if nextToClean > nextToUse then 0 else count) + nextToClean as int - nextToUse as int - 1;
      n := unused;
    }

    /** The hardware writes back the end of any queued packet. */
    method WriteBack(ghost q: nat, slot: nat)
      requires Valid() && q < |flight| && slot == Slot(count, flight[q].Last())
      modifies done
      ensures Valid() && done[..] == old(done[..])[slot := true]
    {
      hide Slot, Ring;
      WriteBackKeeps(count, View(), marks, flight, q);
      done[slot] := true;
    }

    /** The inner loop of e1000_clean_tx_irq: from the first slot of a packet to its last. */
    method ReclaimPacket(i0: nat, eop: nat, n0: nat, ghost p: Packet) returns (i: nat, n: nat)
      requires Arrays() && 0 < p.n < count && i0 == Slot(count, p.start) && eop == Slot(count, p.Last())
      modifies mapped, held, done
      ensures i == Slot(count, p.End()) && n == n0 + p.n
      ensures Emptied(count, old(View()), View(), p.start, p.End())
    {
      hide Slot, Emptied;
      ghost var v0, pos := View(), p.start;
      NothingEmptied(count, v0, p.start);
      i, n := i0, n0;
      var cleaned := false;
      while !cleaned
        invariant p.start <= pos <= p.End() && i == Slot(count, pos) && n == n0 + (pos - p.start)
        invariant cleaned <==> pos == p.End()
        invariant Emptied(count, v0, View(), p.start, pos)
        decreases p.End() - pos
      {
        if pos < p.Last() {
          SlotsDiffer(count, pos, p.Last());
        }
        cleaned := i == eop;
        EmptyOne(count, v0, View(), p.start, pos);
        mapped[i] := false;
        held[i] := false;
        done[i] := false;
        SlotNext(count, pos);
        i := i + 1;
        if i == count {
          i := 0;
        }
        n, pos := n + 1, pos + 1;
      }
    }

    /** e1000_clean_tx_irq: reclaims exactly the packets in front that were written back, up to the first
        that was not, and nothing of the frame being prepared. */
    method Clean() returns (ghost k: nat)
      requires Valid()
      modifies mapped, held, done, this`nextToClean, this`marks, this`flight
      ensures Valid() && k <= |old(flight)| && flight == old(flight)[k..]
      ensures marks == old(marks).(clean := marks.clean)
      ensures forall q :: 0 <= q < k ==> old(done[Slot(count, flight[q].Last())])
      ensures k < |old(flight)| ==> !old(done[Slot(count, flight[k].Last())])
    {
      hide Slot, Ring, Emptied;
      ghost var d0 := done[..];
      ghost var all := flight;
      var i := nextToClean;
      RingInside(count, View(), marks, flight);
      var eop := watch[i];
      var n := 0;
      k := 0;
      while done[eop] && n < count
        invariant Ring(count, View(), marks, flight) && i == Slot(count, marks.clean) && i < count && eop < count
        invariant eop == watch[i] && n == marks.clean - old(marks.clean)
        invariant marks == old(marks).(clean := marks.clean) && old(marks.clean) <= marks.clean <= marks.first
        invariant marks.first < old(marks.clean) + count
        invariant k <= |all| && flight == all[k..]
        invariant forall q :: 0 <= q < k ==> d0[Slot(count, all[q].Last())]
        invariant forall q :: k <= q < |all| ==> done[Slot(count, all[q].Last())] == d0[Slot(count, all[q].Last())]
        decreases |flight|
      {
        if flight == [] {
          NothingDone(count, View(), marks);
        }
        ghost var v, was, p := View(), flight, flight[0];
        FrontPacket(count, v, marks, flight);
        i, n := ReclaimPacket(i, eop, n, p);
        ReclaimKeeps(count, v, View(), marks, flight);
        forall q | k < q < |all|
          ensures done[Slot(count, all[q].Last())] == d0[Slot(count, all[q].Last())]
        {
          LaterPacket(count, v, View(), marks, was, q - k);
        }
        marks := marks.(clean := p.End());
        flight, k := flight[1..], k + 1;
        RingInside(count, View(), marks, flight);
        eop := watch[i];
      }
      if k < |all| {
        FrontPacket(count, View(), marks, flight);
      }
      nextToClean := i;
    }

    // ----- sending

    /** The slot of the context descriptor, in e1000_tso and e1000_tx_csum. */
    method PutContext()
      requires Valid() && marks.first == marks.use == marks.loaded && marks.use + 1 < marks.clean + count
      modifies watch, this`nextToUse, this`marks
      ensures Valid() && marks == old(marks).(use := old(marks.use) + 1, loaded := old(marks.use) + 1)
    {
      hide Slot, Ring;
      ContextKeeps(count, View(), marks, flight);
      RingInside(count, View(), marks, flight);
      SlotNext(count, marks.use);
      var i := nextToUse;
      watch[i] := i;
      i := i + 1;
      if i == count {
        i := 0;
      }
      nextToUse := i;
      marks := marks.(use := marks.use + 1, loaded := marks.use + 1);
    }

    /** One buffer_info on the way through e1000_tx_map. */
    method PutPiece(i: nat, piece: Buf, ghost v0: Slots, ghost base: nat, ghost pieces: seq<Buf>)
      requires Arrays() && Piled(count, v0, View(), buffers[..], base, pieces) && |pieces| + 1 < count
      requires i == Slot(count, base + |pieces|)
      modifies buffers, mapped, watch
      ensures Piled(count, v0, View(), buffers[..], base, pieces + [piece])
    {
      hide Slot, Piled;
      PileOne(count, v0, View(), buffers[..], base, pieces, piece);
      buffers[i] := piece;
      mapped[i] := true;
      watch[i] := i;
    }

    /** How much of the linear part the next descriptor takes: the errata one after the other. */
    method NextHeadSize(f: Frame, len: nat, offset: nat, n: nat, ghost e: Errata) returns (size: nat)
      requires len > 0 && Sendable(f, e) && e.pcix == pcix && e.pcix82544 == pcix82544
      requires n == 0 ==> len == f.head.size && offset == 0 && e == ErrataFor(pcix, pcix82544, lastTxTso, f)
      requires n > 0 ==> !(DataLen(f.frags) == 0 && lastTxTso && f.mss == 0)
      modifies this`lastTxTso
      ensures var sentinel := f.mss != 0 && f.frags == [];
              size == if n == 0 then FirstSize(f.head.addr, len, MaxPerTxd(f), sentinel, e)
                      else PieceSize(f.head.addr + offset, len, MaxPerTxd(f), sentinel, pcix82544)
      ensures lastTxTso == (old(lastTxTso) && !(DataLen(f.frags) == 0 && f.mss == 0))
    {
      hide EvenDword, DataLen;
      size := Min(len, MaxPerTxd(f));
      if DataLen(f.frags) == 0 && lastTxTso && f.mss == 0 {
        lastTxTso := false;
        size := size - 4;
      }
      if f.mss != 0 && |f.frags| == 0 && size == len && size > 8 {
        size := size - 4;
      }
      if pcix && size > 2015 && n == 0 {
        size := 2015;
      }
      if pcix82544 && EvenDword(f.head.addr + offset + size - 1) && size > 4 {
        size := size - 4;
      }
    }

    /** The loop over the linear part. */
    method MapHead(f: Frame) returns (i: nat, n: nat, ghost pieces: seq<Buf>)
      requires Arrays() && nextToUse == Slot(count, marks.use)
      requires Ring(count, View(), marks, flight)
      requires Sendable(f, ErrataFor(pcix, pcix82544, lastTxTso, f))
      requires |HeadOf(f, ErrataFor(pcix, pcix82544, lastTxTso, f))| + 1 < count
      modifies buffers, mapped, watch, this`lastTxTso
      ensures pieces == Located(f.head.addr, HeadOf(f, old(ErrataFor(pcix, pcix82544, lastTxTso, f)))) && n == |pieces| > 0
      ensures Piled(count, old(View()), View(), buffers[..], marks.use, pieces) && i == Slot(count, marks.use + n - 1)
      ensures lastTxTso == (old(lastTxTso) && !(DataLen(f.frags) == 0 && f.mss == 0))
    {
      ghost var v0, e := View(), ErrataFor(pcix, pcix82544, lastTxTso, f);
      hide Slot, Piled, Ring, EvenDword, HeadLeft, FirstSize, PieceSize, DataLen, HeadOf, MaxPerTxd, Located;
      var len, offset := f.head.size, 0;
      i, n, pieces := nextToUse, 0, [];
      NothingPiled(count, v0, marks, flight, buffers[..]);
      HeadStart(f, e);
      while len > 0
        invariant HeadLeft(f, e, pieces, offset, len) && (n == 0 <==> offset == 0) && n == |pieces|
        invariant len + offset == f.head.size
        invariant Piled(count, v0, View(), buffers[..], marks.use, pieces)
        invariant i == Slot(count, if len > 0 then marks.use + n else marks.use + n - 1)
        invariant lastTxTso == (old(lastTxTso) && !(n > 0 && DataLen(f.frags) == 0 && f.mss == 0))
        decreases len
      {
        var size := NextHeadSize(f, len, offset, n, e);
        HeadStep(f, e, pieces, offset, len, size);
        PutPiece(i, Buf(f.head.addr + offset, size), v0, marks.use, pieces);
        SlotNext(count, marks.use + n);
        pieces := pieces + [Buf(f.head.addr + offset, size)];
        len, offset, n := len - size, offset + size, n + 1;
        if len > 0 {
          i := i + 1;
          if i == count {
            i := 0;
          }
        }
      }
      HeadDone(f, e, pieces, offset);
    }

    /** The loop over one fragment, with i at the last slot filled so far. */
    method MapFrag(f: Frame, k: nat, i0: nat, n0: nat, ghost v0: Slots, ghost before: seq<Buf>)
      returns (i: nat, n: nat, ghost pieces: seq<Buf>)
      requires k < |f.frags| && n0 == |before| > 0
      requires Arrays() && Piled(count, v0, View(), buffers[..], marks.use, before) && i0 == Slot(count, marks.use + n0 - 1)
      requires |before| + |FragPieces(f, k, pcix82544)| + 1 < count
      modifies buffers, mapped, watch
      ensures pieces == before + FragAt(f, k, pcix82544) && n == |pieces|
      ensures Piled(count, v0, View(), buffers[..], marks.use, pieces) && i == Slot(count, marks.use + n - 1)
    {
      hide Slot, Piled, EvenDword, Pieces, Located, MaxPerTxd;
      ghost var sentinel := f.mss != 0 && k == |f.frags| - 1;
      ghost var all := FragAt(f, k, pcix82544);
      var frag := f.frags[k];
      ghost var start := frag.page + frag.skip;
      var len: nat, offset: nat := frag.size, 0;
      i, n, pieces := i0, n0, before;
      while len > 0
        invariant len + offset == frag.size && n == |pieces| > 0
        invariant Piled(count, v0, View(), buffers[..], marks.use, pieces)
        invariant before + all == pieces + Located(start + offset, Pieces(frag.page + offset, len, MaxPerTxd(f), sentinel, pcix82544))
        invariant i == Slot(count, marks.use + n - 1)
        decreases len
      {
        SlotNext(count, marks.use + n - 1);
        i := i + 1;
        if i == count {
          i := 0;
        }
        var size := Min(len, MaxPerTxd(f));
        if f.mss != 0 && k == |f.frags| - 1 && size == len && size > 8 {
          size := size - 4;
        }
        if pcix82544 && EvenDword(frag.page + offset + size - 1) && size > 4 {
          size := size - 4;
        }
        assert size == PieceSize(frag.page + offset, len, MaxPerTxd(f), sentinel, pcix82544);
        PiecesInFront(frag.page + offset, len, MaxPerTxd(f), sentinel, pcix82544);
        FrontOfAll(pieces, start + offset, size, Pieces(frag.page + offset + size, len - size, MaxPerTxd(f), sentinel, pcix82544));
        var piece := Buf(frag.page + frag.skip + offset, size);
        PutPiece(i, piece, v0, marks.use, pieces);
        len, offset, n, pieces := len - size, offset + size, n + 1, pieces + [piece];
      }
      NoPieces(frag.page + offset, MaxPerTxd(f), sentinel, pcix82544);
      assert pieces + [] == pieces;
    }

    /** e1000_tx_map: fills one buffer_info per piece and returns their number. */
    method TxMap(f: Frame, first: nat) returns (n: nat, ghost pieces: seq<Buf>)
      requires Valid() && marks.loaded == marks.use && first == Slot(count, marks.first)
      requires Sendable(f, ErrataFor(pcix, pcix82544, lastTxTso, f))
      requires marks.use + |FramePieces(f, ErrataFor(pcix, pcix82544, lastTxTso, f), |f.frags|)| + 1 < marks.clean + count
      modifies buffers, mapped, watch, held, this`lastTxTso, this`marks
      ensures Valid() && marks == old(marks).(loaded := old(marks.use) + n)
      ensures pieces == FramePieces(f, old(ErrataFor(pcix, pcix82544, lastTxTso, f)), |f.frags|) && n == |pieces| > 0
      ensures WorksAround(f, old(ErrataFor(pcix, pcix82544, lastTxTso, f)), pieces)
      ensures forall k :: 0 <= k < n ==> buffers[Slot(count, marks.use + k)] == pieces[k]
      ensures lastTxTso == (old(lastTxTso) && !(DataLen(f.frags) == 0 && f.mss == 0))
    {
      ghost var v0, e := View(), ErrataFor(pcix, pcix82544, lastTxTso, f);
      hide Slot, Piled, Ring, DataLen, HeadOf, FragPieces, FragAt, Located, MaxPerTxd, FragCount, WorksAround;
      ErrataWorkedAround(f, e);
      RingInside(count, v0, marks, flight);
      PiecesUpTo(f, e, 0);
      var i;
      i, n, pieces := MapHead(f);
      var k := 0;
      while k < |f.frags|
        invariant marks == old(marks) && lastTxTso == (old(lastTxTso) && !(DataLen(f.frags) == 0 && f.mss == 0))
        invariant k <= |f.frags| && pieces == FramePieces(f, e, k) && n == |pieces| > 0
        invariant Piled(count, v0, View(), buffers[..], marks.use, pieces) && i == Slot(count, marks.use + n - 1)
      {
        PiecesUpTo(f, e, k + 1);
        i, n, pieces := MapFrag(f, k, i, n, v0, pieces);
        k := k + 1;
      }
      Close(first, i, v0, pieces);
    }

    /** The end of e1000_tx_map: the last slot gets the frame, the first one the number of the last. */
    method Close(first: nat, i: nat, ghost v0: Slots, ghost pieces: seq<Buf>)
      requires Arrays() && nextToUse == Slot(count, marks.use) && nextToClean == Slot(count, marks.clean)
      requires Ring(count, v0, marks, flight) && marks.loaded == marks.use && first == Slot(count, marks.first)
      requires Piled(count, v0, View(), buffers[..], marks.use, pieces) && pieces != []
      requires i == Slot(count, marks.use + |pieces| - 1) && marks.use + |pieces| < marks.clean + count
      modifies held, watch, this`marks
      ensures Valid() && marks == old(marks).(loaded := old(marks.use) + |pieces|)
      ensures forall k :: 0 <= k < |pieces| ==> buffers[Slot(count, marks.use + k)] == pieces[k]
    {
      hide Slot, Piled, Ring;
      MapKeeps(count, v0, View(), buffers[..], marks, flight, pieces);
      PiledLengths(count, v0, View(), buffers[..], marks.use, pieces);
      held[i] := true;
      watch[first] := i;
      marks := marks.(loaded := marks.use + |pieces|);
    }

    /** e1000_tx_queue: writes one descriptor per piece, none of them marked done, and hands them over. */
    method TxQueue(n: nat)
      requires Valid() && marks.loaded == marks.use + n && n > 0
      modifies done, this`nextToUse, this`marks, this`flight
      ensures Valid() && marks == Marks(old(marks.clean), old(marks.loaded), old(marks.loaded), old(marks.loaded))
      ensures flight == old(flight) + [Packet(old(marks.first), old(marks.loaded) - old(marks.first), old(marks.use) - old(marks.first))]
    {
      hide Slot, Ring;
      ghost var d0 := done[..];
      RingInside(count, View(), marks, flight);
      var i, left: nat := nextToUse, n;
      while left > 0
        invariant left <= n && i == Slot(count, marks.use + (n - left)) && done[..] == d0
        invariant marks == old(marks) && flight == old(flight)
      {
        StillQuiet(count, View(), marks, flight, marks.use + (n - left));
        SlotNext(count, marks.use + (n - left));
        done[i] := false;
        assert done[..] == d0;
        i, left := i + 1, left - 1;
        if i == count {
          i := 0;
        }
      }
      QueueKeeps(count, View(), marks, flight);
      nextToUse := i;
      flight := flight + [Packet(marks.first, marks.loaded - marks.first, marks.use - marks.first)];
      marks := Marks(marks.clean, marks.loaded, marks.loaded, marks.loaded);
    }

    /** e1000_xmit_frame from the descriptor count on: busy when there is no room for what it counts and
        two more, and never with room for twice what the frame takes and a few; otherwise the frame becomes
        one packet of exactly its context and its pieces, the pieces hold its bytes and work around the
        errata, and at least two descriptors stay unused. After TSO the next linear frame is told. */
    method XmitFrame(f: Frame) returns (busy: bool, ghost pieces: seq<Buf>)
      requires Valid() && marks.first == marks.use == marks.loaded
      requires Sendable(f, ErrataFor(pcix, pcix82544, lastTxTso, f))
      modifies buffers, mapped, watch, held, done, this`lastTxTso, this`nextToUse, this`marks, this`flight
      ensures Valid() && marks.first == marks.use == marks.loaded && marks.clean == old(marks.clean)
      ensures busy <==> old(count - 1 - (marks.use - marks.clean)) < Reserve(f, old(ErrataFor(pcix, pcix82544, lastTxTso, f))) + 2
      ensures busy ==> marks == old(marks) && flight == old(flight) && lastTxTso == old(lastTxTso)
      ensures old(count - 1 - (marks.use - marks.clean))
              >= ContextCount(f) + 2 * |FramePieces(f, old(ErrataFor(pcix, pcix82544, lastTxTso, f)), |f.frags|)| + 2 * |f.frags| + 6
              ==> !busy
      ensures !busy ==> pieces == FramePieces(f, old(ErrataFor(pcix, pcix82544, lastTxTso, f)), |f.frags|)
      ensures !busy ==> WorksAround(f, old(ErrataFor(pcix, pcix82544, lastTxTso, f)), pieces)
      ensures !busy ==> lastTxTso == if f.mss != 0 then old(lastTxTso) || !is82544 else old(lastTxTso) && DataLen(f.frags) != 0
      ensures !busy ==> flight == old(flight) + [Packet(old(marks.use), ContextCount(f) + |pieces|, ContextCount(f))]
      ensures !busy ==> forall k :: 0 <= k < |pieces| ==> buffers[Slot(count, old(marks.use) + ContextCount(f) + k)] == pieces[k]
      ensures !busy ==> count - 1 - (marks.use - marks.clean) >= 2
    {
      hide Slot, Ring, HeadOf, FragCount, Reserve, Sendable, ErrataFor, WorksAround, DataLen;
      pieces := [];
      RingInside(count, View(), marks, flight);
      ReservationCovers(f, ErrataFor(pcix, pcix82544, lastTxTso, f));
      ReservationIsModest(f, ErrataFor(pcix, pcix82544, lastTxTso, f));
      ErrataWorkedAround(f, ErrataFor(pcix, pcix82544, lastTxTso, f));
      var reserved := CountDescriptors(f);
      var unused := Unused();
      busy := unused < reserved + 2;
      if !busy {
        pieces := SendFrame(f);
      }
    }

    /** Context, pieces and hand-over of a frame there is room for. */
    method SendFrame(f: Frame) returns (ghost pieces: seq<Buf>)
      requires Valid() && marks.first == marks.use == marks.loaded
      requires Sendable(f, ErrataFor(pcix, pcix82544, lastTxTso, f))
      requires marks.use + ContextCount(f) + |FramePieces(f, ErrataFor(pcix, pcix82544, lastTxTso, f), |f.frags|)| + 2
               < marks.clean + count
      modifies buffers, mapped, watch, held, done, this`lastTxTso, this`nextToUse, this`marks, this`flight
      ensures Valid() && marks.first == marks.use == marks.loaded && marks.clean == old(marks.clean)
      ensures marks.use == old(marks.use) + ContextCount(f) + |pieces|
      ensures lastTxTso == if f.mss != 0 then old(lastTxTso) || !is82544 else old(lastTxTso) && DataLen(f.frags) != 0
      ensures pieces == FramePieces(f, old(ErrataFor(pcix, pcix82544, lastTxTso, f)), |f.frags|)
      ensures flight == old(flight) + [Packet(old(marks.use), ContextCount(f) + |pieces|, ContextCount(f))]
      ensures forall k :: 0 <= k < |pieces| ==> buffers[Slot(count, old(marks.use) + ContextCount(f) + k)] == pieces[k]
    {
      hide Slot, Ring, HeadOf, FragCount, DataLen, FragPieces;
      RingInside(count, View(), marks, flight);
      var first := nextToUse;
      if f.mss != 0 || f.partial {
        PutContext();
      }
      if f.mss != 0 && !is82544 {
        lastTxTso := true;
      }
      var n;
      n, pieces := TxMap(f, first);
      TxQueue(n);
    }

    /** The count e1000_xmit_frame makes before it maps anything. */
    method CountDescriptors(f: Frame) returns (n: nat)
      ensures n == Reserve(f, ErrataFor(pcix, pcix82544, lastTxTso, f))
    {
      hide DataLen, MaxTxdPwr, UseCount;
      n := 0;
      if f.mss != 0 || f.partial {
        n := n + 1;
      }
      n := n + 1;
      if DataLen(f.frags) == 0 && lastTxTso && f.mss == 0 {
        n := n + 1;
      }
      n := n + UseCount(f.head.size, MaxTxdPwr(f));
      if pcix82544 {
        n := n + 1;
      }
      if pcix && f.head.size > 2015 {
        n := n + 1;
      }
      ghost var n0 := n;
      var k := 0;
      while k < |f.frags|
        invariant k <= |f.frags| && n == n0 + FragReserve(f, k)
      {
        n := n + UseCount(f.frags[k].size, MaxTxdPwr(f));
        k := k + 1;
      }
      if pcix82544 {
        n := n + |f.frags|;
      }
    }
  }
}
