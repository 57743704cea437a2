/** Rewriting one segment in place, field after field: addresses and ports, sequence and ack number,
    SACK edges, timestamps and window. */
module Rewrite {
  import opened ByteOrder
  import opened Serial
  import opened Translation
  import opened Checksum
  import opened Options
  import opened Packet
  import opened Powers
  import opened Sessions
  import opened Window
  import opened Skb
  import opened Wrappers
  import N = Numbers

  // ----- one field of the segment

  lemma SeqChange(h: Header, b: seq<U8>, n: nat, v: U32)
    requires n <= |b|
    ensures var h' := h.(seqNum := v);
            PseudoSum(h', n) == PseudoSum(h, n) && Same(BodySum(h', b, n), BodySum(h, b, n) + (v - h.seqNum))
  {
    WordChange(h.seqNum, v, BodySum(h, b, n), BodySum(h.(seqNum := v), b, n));
  }

  lemma AckChange(h: Header, b: seq<U8>, n: nat, v: U32)
    requires n <= |b|
    ensures var h' := h.(ackNum := v);
            PseudoSum(h', n) == PseudoSum(h, n) && Same(BodySum(h', b, n), BodySum(h, b, n) + (v - h.ackNum))
  {
    WordChange(h.ackNum, v, BodySum(h, b, n), BodySum(h.(ackNum := v), b, n));
  }

  lemma WordChange(from: U32, to: U32, sum: int, sum': int)
    requires sum' - sum == W32(to) - W32(from)
    ensures Same(sum', sum + (to - from))
  {
    W32Residue(from);
    W32Residue(to);
    hide W32;
    SameTogether(W32(to), to, W32(from), from);
    SameMoved(W32(to) - W32(from), to - from, sum);
  }

  /** One repair for a change of the segment's own words. */
  lemma BodyRepaired(s: Sums, h: Header, b: seq<U8>, h': Header, b': seq<U8>, n: nat, from: U32, to: U32)
    requires n <= |b| == |b'| && n + 20 < 0x1_0000
    requires PseudoSum(h', n) == PseudoSum(h, n) && Same(BodySum(h', b', n), BodySum(h, b, n) + (to - from))
    ensures var s' := Repaired(s, from, to, false);
            && s'.mode == s.mode && Reduced(s')
            && Drifts(s.mode, GapOf(s, h, b, n), GapOf(s', h', b', n), 0, 0)
  {
    hide *;
    SameMoved(PseudoSum(h, n), PseudoSum(h, n), 0);
    RepairReduces(s, from, to, false);
    RepairDrifts(s, h, b, h', b', n, from, to, false, 0);
  }

  /** The part of a field's change that its repair misses 255 times. */
  function AtOdd(p: nat, change: int): int {
    if p % 2 == 0 then 0 else change
  }

  /** A 32-bit value inside the bytes. */
  lemma FieldRepaired(s: Sums, h: Header, b: seq<U8>, p: nat, v: U32, n: nat)
    requires p + 4 <= n <= |b| && n + 20 < 0x1_0000
    ensures var s', b' := Repaired(s, Get32(b, p), v, false), Put32(b, p, v);
            && s'.mode == s.mode && Reduced(s')
            && Drifts(s.mode, GapOf(s, h, b, n), GapOf(s', h, b', n), 255 * AtOdd(p, v - Get32(b, p)), 0)
  {
    hide Repaired, Get32, Put32, ByteSum, Same, Drifts, GapOf, Reduced;
    var b', diff := Put32(b, p, v), v - Get32(b, p);
    FieldMoves(b, b', p, n);
    SameMoved(PseudoSum(h, n), PseudoSum(h, n), 0);
    SameMoved(ByteSum(b', n) - ByteSum(b, n), if p % 2 == 0 then diff else 256 * diff, BodySum(h, b, n));
    RepairReduces(s, Get32(b, p), v, false);
    RepairDrifts(s, h, b, h, b', n, Get32(b, p), v, false, 255 * AtOdd(p, diff));
  }

  /** At an odd offset one repair is right exactly for changes that 257 divides. */
  lemma OddFieldRepair(s: Sums, h: Header, b: seq<U8>, p: nat, v: U32, n: nat)
    requires p % 2 == 1 && p + 4 <= n <= |b| && n + 20 < 0x1_0000 && Consistent(s, h, b, n)
    ensures var s', b' := Repaired(s, Get32(b, p), v, false), Put32(b, p, v);
            Consistent(s', h, b', n) <==> s.mode == Partial || (v - Get32(b, p)) % 257 == 0
  {
    hide Repaired, Get32, Put32, Same, Drifts, GapOf, Reduced, Consistent;
    FieldRepaired(s, h, b, p, v, n);
    BodyDriftShows(s, h, b, Repaired(s, Get32(b, p), v, false), h, Put32(b, p, v), n, v - Get32(b, p));
  }

  /** A drift of 255 times a change. */
  lemma BodyDriftShows(s: Sums, h: Header, b: seq<U8>, s': Sums, h': Header, b': seq<U8>, n: nat, change: int)
    requires n <= |b| && n <= |b'| && n + 20 < 0x1_0000 && s'.mode == s.mode
    requires Drifts(s.mode, GapOf(s, h, b, n), GapOf(s', h', b', n), 255 * change, 0)
    ensures change == 0 ==> (Consistent(s', h', b', n) <==> Consistent(s, h, b, n))
    ensures Consistent(s, h, b, n) ==> (Consistent(s', h', b', n) <==> s.mode == Partial || change % 257 == 0)
  {
    hide Same, Drifts, GapOf, Consistent;
    DriftedChecksums(s, h, b, s', h', b', n, 255 * change, 0);
    OddErrorShows(change);
    SameMoved(0, 0, 0);
  }

  /** Shifting SACK edges with one repair per edge. */
  lemma SackRepaired(s: Sums, h: Header, b: seq<U8>, edges: seq<nat>, d: Delta, n: nat, check': U16)
    requires n <= |b| && n + 20 < 0x1_0000 && Apart(edges, 0, n) && Apart(edges, 0, |b|)
    requires check' == SackChecked(s.mode, s.check, edges, Growth(b, edges, d))
    ensures var s' := s.(check := check');
            && (Reduced(s) ==> Reduced(s'))
            && Drifts(s.mode, GapOf(s, h, b, n), GapOf(s', h, Shift(b, edges, d), n), 255 * OddGrowth(b, edges, d), 0)
  {
    hide Growth, OddGrowth, Shift, ByteSum, Same, Apart, Drifts, GapOf, Adjusted;
    ShiftMovesSum(b, edges, d, n);
    SumThenHeader(b, Shift(b, edges, d), n, Growth(b, edges, d) + 255 * OddGrowth(b, edges, d), h);
    if edges != [] {
      AdjustmentDrifts(s, h, b, h, Shift(b, edges, d), n, Growth(b, edges, d), 255 * OddGrowth(b, edges, d));
    } else {
      GrowthOfNone(b, edges, d);
      SameMoved(PseudoSum(h, n), PseudoSum(h, n), 0);
      WordsDrift(s, h, b, h, b, n, 0, 0);
    }
  }

  /** dysco_tcp_sack on a good segment leaves a good one exactly when 257 divides the sum of the changes
      of the edges at odd offsets. */
  lemma SackRepairExactlyWhen(s: Sums, h: Header, b: seq<U8>, edges: seq<nat>, d: Delta, n: nat, check': U16)
    requires n <= |b| && n + 20 < 0x1_0000 && Apart(edges, 0, n) && Apart(edges, 0, |b|)
    requires check' == SackChecked(s.mode, s.check, edges, Growth(b, edges, d)) && Consistent(s, h, b, n)
    ensures Consistent(s.(check := check'), h, Shift(b, edges, d), n)
            <==> s.mode == Partial || OddGrowth(b, edges, d) % 257 == 0
  {
    hide Growth, OddGrowth, Shift, Same, Apart, Drifts, GapOf, SackChecked, Consistent;
    SackRepaired(s, h, b, edges, d, n, check');
    BodyDriftShows(s, h, b, s.(check := check'), h, Shift(b, edges, d), n, OddGrowth(b, edges, d));
  }

  /** The errors of two edges may cancel though neither change is divisible. */
  lemma OddErrorsCancel(b: seq<U8>)
    requires |b| >= 11 && Get32(b, 3) == 0xFFFF_FFFB && Get32(b, 7) == 100
    ensures var d := Delta(129, true);
            && (Apply(d, Get32(b, 3)) - Get32(b, 3)) % 257 != 0 && (Apply(d, Get32(b, 7)) - Get32(b, 7)) % 257 != 0
            && Apart([3, 7], 0, |b|) && OddGrowth(b, [3, 7], d) % 257 == 0
  {
    var d := Delta(129, true);
    assert [3, 7][..1] == [3];
    assert [3][..0] == [];
    assert OddGrowth(b, [3], d) == 129 - TWO_32;
  }

  lemma SumThenHeader(b: seq<U8>, b': seq<U8>, n: nat, growth: int, h: Header)
    requires n <= |b| == |b'| && SumFollows(b, b', n, growth)
    ensures Same(BodySum(h, b', n), BodySum(h, b, n) + growth)
  {
    SameMoved(ByteSum(b', n) - ByteSum(b, n), growth, BodySum(h, b, n));
  }

  // ----- where the timestamp is

  lemma TsInFront(buf: seq<U8>, pos: nat, end: int)
    requires pos < end < |buf| && buf[pos] != EOL && buf[pos] != NOP && 2 <= buf[pos + 1] <= end - pos
    ensures TsPosition(Decode(buf, pos, end).0)
            == if buf[pos] == TIMESTAMP && buf[pos + 1] == 10 then pos + 2
               else TsPosition(Decode(buf, pos + buf[pos + 1], end).0)
  {
    hide Decode;
    DecodeOption(buf, pos, end);
  }

  /** Eight bytes from p on lie inside the options and outside all edges. */
  ghost predicate Separate(p: int, edges: seq<nat>, lo: int, hi: int) {
    lo <= p && p + 8 <= hi && forall k :: 0 <= k < |edges| ==> edges[k] + 4 <= p || p + 8 <= edges[k]
  }

  lemma SeparateWider(p: int, edges: seq<nat>, lo: int, mid: int, hi: int, hi': int)
    requires Separate(p, edges, mid, hi) && lo <= mid && hi <= hi'
    ensures Separate(p, edges, lo, hi')
  {
  }

  lemma SeparateTogether(p: int, own: seq<nat>, rest: seq<nat>, lo: int, mid: int, hi: int)
    requires Separate(p, rest, mid, hi) && Apart(own, lo, mid) && lo <= mid
    ensures Separate(p, own + rest, lo, hi)
  {
  }

  lemma SeparateFromLater(p: int, rest: seq<nat>, lo: int, hi: int)
    requires Apart(rest, p + 8, hi) && lo <= p && p + 8 <= hi
    ensures Separate(p, rest, lo, hi)
  {
  }

  /** The timestamp's bytes hold no edge. */
  lemma {:induction false} TsApart(buf: seq<U8>, pos: nat, end: int)
    requires pos < end ==> end < |buf|
    requires TsPosition(Decode(buf, pos, end).0) >= 0
    ensures Separate(TsPosition(Decode(buf, pos, end).0), Edges(Decode(buf, pos, end).0), pos, end)
    decreases end - pos
  {
    hide Decode, Edges, Span, Separate, Apart;
    DecodeOther(buf, pos, end);
    if buf[pos] == NOP {
      TsApart(buf, pos + 1, end);
      SeparateWider(TsPosition(Decode(buf, pos, end).0), Edges(Decode(buf, pos + 1, end).0), pos, pos + 1, end, end);
    } else {
      var size := buf[pos + 1];
      var rest := Edges(Decode(buf, pos + size, end).0);
      TsInFront(buf, pos, end);
      EdgesInFront(buf, pos, end);
      if buf[pos] == TIMESTAMP && size == 10 {
        EdgesApart(buf, pos + size, end);
        SeparateFromLater(pos + 2, rest, pos, end);
      } else {
        var p := TsPosition(Decode(buf, pos + size, end).0);
        TsApart(buf, pos + size, end);
        if buf[pos] == SACK && size >= 10 && (size - 2) % 8 == 0 {
          SpanApart(pos + 2, (size - 2) / 4);
          SeparateTogether(p, Span(pos + 2, (size - 2) / 4), rest, pos + 2, pos + size, end);
          SeparateWider(p, Span(pos + 2, (size - 2) / 4) + rest, pos, pos + 2, end, end);
        } else {
          SeparateWider(p, rest, pos, pos + size, end, end);
        }
      }
    }
  }

  /** The bytes of the timestamp are contents of an option. */
  lemma TsInContents(opts: seq<Opt>, i: int)
    requires TsPosition(opts) >= 0 && TsPosition(opts) <= i < TsPosition(opts) + 8
    ensures InContents(opts, i)
  {
    var k := TsPositionIsFirst(opts);
    assert InOpt(opts[k], i);
  }

  // ----- what the segment says

  ghost function EdgeValues(buf: seq<U8>, edges: seq<nat>): (r: seq<U32>)
    requires Apart(edges, 0, |buf|)
    ensures |r| == |edges| && forall k :: 0 <= k < |edges| ==> r[k] == Get32(buf, edges[k])
  {
    if edges == [] then [] else EdgeValues(buf, edges[..|edges| - 1]) + [Get32(buf, edges[|edges| - 1])]
  }

  /** The timestamp and its echo at p. */
  function TsValues(buf: seq<U8>, p: int): Option<(U32, U32)>
    requires p >= 0 ==> p + 8 <= |buf|
  {
    if p < 0 then None else Some((Get32(buf, p), Get32(buf, p + 4)))
  }

  lemma TsInside(buf: seq<U8>, end: int)
    requires 0 < end ==> end < |buf|
    ensures 0 <= TsPosition(Decode(buf, 0, end).0) <= end - 8 || TsPosition(Decode(buf, 0, end).0) == -1
  {
    var i := TsPositionIsFirst(Decode(buf, 0, end).0);
  }

  /** Sequence and ack number, SACK edges and timestamp of a segment in memory. */
  ghost function TcpOf(h: Header, buf: seq<U8>, end: int): N.Tcp
    requires 0 < end ==> end < |buf|
  {
    EdgesApart(buf, 0, end);
    TsInside(buf, end);
    var opts := Decode(buf, 0, end).0;
    N.Tcp(h.seqNum, h.ackNum, EdgeValues(buf, Edges(opts)), TsValues(buf, TsPosition(opts)))
  }

  lemma SameBytesSameValue(a: seq<U8>, b: seq<U8>, p: nat)
    requires p + 4 <= |a| == |b| && forall i :: p <= i < p + 4 ==> a[i] == b[i]
    ensures Get32(a, p) == Get32(b, p)
  {
  }

  lemma SameBytesSameTs(a: seq<U8>, b: seq<U8>, p: nat)
    requires p + 8 <= |a| == |b| && forall i :: p <= i < p + 8 ==> a[i] == b[i]
    ensures TsValues(a, p) == TsValues(b, p)
  {
    SameBytesSameValue(a, b, p);
    SameBytesSameValue(a, b, p + 4);
  }

  lemma NoEdgeNear(p: int, edges: seq<nat>, lo: int, hi: int, i: int)
    requires Separate(p, edges, lo, hi) && p <= i < p + 8
    ensures !InEdge(edges, i)
  {
  }

  /** Shifting the edges changes what the segment says in its edges only. */
  lemma TcpAfterShift(h: Header, buf: seq<U8>, end: int, d: Delta)
    requires 0 < end ==> end < |buf|
    requires Apart(Edges(Decode(buf, 0, end).0), 0, |buf|)
    ensures var buf' := Shift(buf, Edges(Decode(buf, 0, end).0), d);
            && Decode(buf', 0, end) == Decode(buf, 0, end)
            && TcpOf(h, buf', end) == TcpOf(h, buf, end).(edges := N.ShiftAll(d, TcpOf(h, buf, end).edges))
  {
    var opts := Decode(buf, 0, end).0;
    var edges, p := Edges(opts), TsPosition(opts);
    var buf' := Shift(buf, edges, d);
    ShiftKeepsOptions(buf, end, d);
    hide Decode, Edges, Shift, Get32, Apply, TsPosition;
    assert EdgeValues(buf', edges) == N.ShiftAll(d, EdgeValues(buf, edges));
    if p >= 0 {
      TsInside(buf, end);
      TsApart(buf, 0, end);
      forall i | p <= i < p + 8
        ensures buf'[i] == buf[i]
      {
        NoEdgeNear(p, edges, 0, end, i);
      }
      SameBytesSameTs(buf, buf', p);
    }
  }

  /** Both halves of the timestamp moved. */
  function TsWritten(buf: seq<U8>, p: int, ts: Delta, tsr: Delta): (r: seq<U8>)
    requires p >= 0 ==> p + 8 <= |buf|
    ensures |r| == |buf|
    ensures forall i :: 0 <= i < |buf| && !(0 <= p <= i < p + 8) ==> r[i] == buf[i]
  {
    if p < 0 then buf
    else
      var b := Put32(buf, p, Apply(ts, Get32(buf, p)));
      Put32(b, p + 4, Apply(tsr, Get32(b, p + 4)))
  }

  lemma TsWrittenValues(buf: seq<U8>, p: nat, ts: Delta, tsr: Delta)
    requires p + 8 <= |buf|
    ensures TsValues(TsWritten(buf, p, ts, tsr), p) == Some((Apply(ts, Get32(buf, p)), Apply(tsr, Get32(buf, p + 4))))
  {
    hide Apply, Get32, Put32;
    var b := Put32(buf, p, Apply(ts, Get32(buf, p)));
    SameBytesSameValue(buf, b, p + 4);
    SameBytesSameValue(b, TsWritten(buf, p, ts, tsr), p);
  }

  lemma TsKeepsList(buf: seq<U8>, buf': seq<U8>, end: int)
    requires (0 < end ==> end < |buf|) && |buf'| == |buf|
    requires var p := TsPosition(Decode(buf, 0, end).0);
             p >= 0 && forall i :: 0 <= i < |buf| && !(p <= i < p + 8) ==> buf'[i] == buf[i]
    ensures Decode(buf', 0, end) == Decode(buf, 0, end)
  {
    var opts := Decode(buf, 0, end).0;
    hide Decode, InContents, TsPosition;
    forall i | TsPosition(opts) <= i < TsPosition(opts) + 8
      ensures InContents(opts, i)
    {
      TsInContents(opts, i);
    }
    DecodeIgnoresContents(buf, buf', 0, end);
  }

  lemma EdgesStay(buf: seq<U8>, buf': seq<U8>, edges: seq<nat>, p: int)
    requires |buf'| == |buf| && Apart(edges, 0, |buf|) && Separate(p, edges, 0, |buf|)
    requires forall i :: 0 <= i < |buf| && !(p <= i < p + 8) ==> buf'[i] == buf[i]
    ensures EdgeValues(buf', edges) == EdgeValues(buf, edges)
  {
    hide Get32;
    forall k | 0 <= k < |edges|
      ensures Get32(buf', edges[k]) == Get32(buf, edges[k])
    {
      SameBytesSameValue(buf, buf', edges[k]);
    }
  }

  /** Writing the timestamp changes what the segment says in its timestamp only. */
  lemma TcpAfterTs(h: Header, buf: seq<U8>, end: int, ts: Delta, tsr: Delta)
    requires 0 < end ==> end < |buf|
    requires TsPosition(Decode(buf, 0, end).0) >= 0 ==> TsPosition(Decode(buf, 0, end).0) + 8 <= |buf|
    ensures var buf' := TsWritten(buf, TsPosition(Decode(buf, 0, end).0), ts, tsr);
            var t := TcpOf(h, buf, end);
            && Decode(buf', 0, end) == Decode(buf, 0, end)
            && TcpOf(h, buf', end)
               == t.(ts := match t.ts case None => None case Some((val, echo)) => Some((Apply(ts, val), Apply(tsr, echo))))
  {
    var p := TsPosition(Decode(buf, 0, end).0);
    var buf' := TsWritten(buf, p, ts, tsr);
    if p < 0 {
      assert buf' == buf;
    } else {
      hide Decode, Edges, Apply, Get32, TsPosition, EdgeValues, Apart, Separate, TsWritten;
      TsKeepsList(buf, buf', end);
      TsWrittenValues(buf, p, ts, tsr);
      TsApart(buf, 0, end);
      EdgesApart(buf, 0, end);
      SeparateWider(p, Edges(Decode(buf, 0, end).0), 0, 0, end, |buf|);
      ApartWithin(Edges(Decode(buf, 0, end).0), end, |buf|);
      EdgesStay(buf, buf', Edges(Decode(buf, 0, end).0), p);
    }
  }

  // ----- the methods of one field

  /** The bytes after the translation of the ack number: SACK edges follow it. */
  ghost function AckWritten(buf: seq<U8>, end: int, d: Delta, sackOk: bool): (r: seq<U8>)
    requires 0 < end ==> end < |buf|
    ensures |r| == |buf|
  {
    EdgesApart(buf, 0, end);
    if d.mag != 0 && sackOk then Shift(buf, Edges(Decode(buf, 0, end).0), d) else buf
  }

  /** By how much the edges at odd offsets grow when the ack number is translated. */
  ghost function AckOdd(buf: seq<U8>, end: int, d: Delta, sackOk: bool): int
    requires 0 < end ==> end < |buf|
  {
    EdgesApart(buf, 0, end);
    if d.mag != 0 && sackOk then OddGrowth(buf, Edges(Decode(buf, 0, end).0), d) else 0
  }

  /** By how much a timestamp at an odd offset grows together with its echo. */
  function TsOdd(buf: seq<U8>, p: int, ts: Delta, tsr: Delta): int
    requires p >= 0 ==> p + 8 <= |buf|
  {
    if p < 0 then 0
    else AtOdd(p, Apply(ts, Get32(buf, p)) - Get32(buf, p)) + AtOdd(p, Apply(tsr, Get32(buf, p + 4)) - Get32(buf, p + 4))
  }

  /** The checksums of a segment drifted by 255 times a change of its own fields, from the promise they
      had before; the field is exact again if it was. */
  twostate predicate Drifted(skb: Skb, change: int)
    requires old(skb.Sane()) && skb.Sane()
    reads skb, skb.data
  {
    && skb.mode == old(skb.mode)
    && Drifts(skb.mode, old(skb.Gap()), skb.Gap(), 255 * change, 0)
    && (old(Reduced(skb.Sum())) ==> Reduced(skb.Sum()))
  }

  /** A good field that was exact, or was repaired, is exact. */
  twostate lemma ExactAgain(skb: Skb)
    requires old(skb.Sane()) && skb.Sane()
    ensures Reduced(skb.Sum()) && skb.Good() ==> skb.Exact()
    ensures (old(Reduced(skb.Sum())) ==> Reduced(skb.Sum())) && old(skb.Good() && skb.Exact()) && skb.Good() ==> skb.Exact()
  {
    hide Consistent, Reduced, IsExact;
    if old(skb.Good()) {
      ExactIsReduced(old(skb.Sum()), old(skb.Hdr()), old(skb.data[..]), skb.segLen);
    }
    if skb.Good() {
      ExactIsReduced(skb.Sum(), skb.Hdr(), skb.data[..], skb.segLen);
    }
  }

  method RewriteSeq(skb: Skb, d: Delta)
    requires skb.Sane()
    modifies skb`seqNum, skb`check, skb`csum
    ensures skb.seqNum == Apply(d, old(skb.seqNum))
    ensures Drifted(skb, 0) && (d.mag != 0 ==> Reduced(skb.Sum()))
    ensures skb.Good() <==> old(skb.Good())
    ensures skb.Good() && (d.mag != 0 || old(skb.Exact())) ==> skb.Exact()
  {
    hide Repaired, Consistent, GapOf, Drifts, Reduced, IsExact, BodySum, PseudoSum, Same;
    ghost var s, h, b := skb.Sum(), skb.Hdr(), skb.data[..];
    if d.mag != 0 {
      var newSeq := MovedBy(d, skb.seqNum);
      skb.Replace4(skb.seqNum, newSeq, false);
      SeqChange(h, b, skb.segLen, newSeq);
      BodyRepaired(s, h, b, h.(seqNum := newSeq), b, skb.segLen, h.seqNum, newSeq);
      skb.seqNum := newSeq;
    } else {
      NothingDrifts(s, h, b, skb.segLen);
    }
    BodyDriftShows(s, h, b, skb.Sum(), skb.Hdr(), b, skb.segLen, 0);
    ExactAgain(skb);
  }

  lemma NothingDrifts(s: Sums, h: Header, b: seq<U8>, n: nat)
    requires n <= |b|
    ensures Drifts(s.mode, GapOf(s, h, b, n), GapOf(s, h, b, n), 0, 0)
  {
    hide PseudoSum, BodySum, Same;
    SameMoved(PseudoSum(h, n), PseudoSum(h, n), 0);
    SameMoved(BodySum(h, b, n), BodySum(h, b, n), 0);
    WordsDrift(s, h, b, h, b, n, 0, 0);
  }

  lemma MoreDrift(mode: Mode, g: Gap, g': Gap, g'': Gap, change: int, change': int)
    requires Drifts(mode, g, g', 255 * change, 0) && Drifts(mode, g', g'', 255 * change', 0)
    ensures Drifts(mode, g, g'', 255 * (change + change'), 0)
  {
    hide Drifts;
    DriftsTogether(mode, g, g', g'', 255 * change, 0, 255 * change', 0);
  }

  /** dysco_out_rewrite_ack and dysco_in_rewrite_ack. */
  method RewriteAck(skb: Skb, d: Delta, sackOk: bool)
    requires skb.Sane()
    modifies skb.data, skb`ackNum, skb`check, skb`csum
    ensures skb.ackNum == Apply(d, old(skb.ackNum))
    ensures skb.data[..] == AckWritten(old(skb.data[..]), skb.optLen, d, sackOk)
    ensures skb.Whole() ==> Drifted(skb, AckOdd(old(skb.data[..]), skb.optLen, d, sackOk))
    ensures d.mag != 0 ==> Reduced(skb.Sum())
    ensures skb.Whole() && old(skb.Good()) ==>
              (skb.Good() <==> skb.mode == Partial || AckOdd(old(skb.data[..]), skb.optLen, d, sackOk) % 257 == 0)
    ensures skb.Whole() && skb.Good() && (d.mag != 0 || old(skb.Good() && skb.Exact())) ==> skb.Exact()
  {
    hide Repaired, Consistent, GapOf, Drifts, Reduced, IsExact, BodySum, PseudoSum, Same, SackChecked, Growth, OddGrowth,
         Shift, Edges, Decode, Apart;
    ghost var s0, h0, b0 := skb.Sum(), skb.Hdr(), skb.data[..];
    ghost var odd := AckOdd(b0, skb.optLen, d, sackOk);
    if d.mag != 0 {
      var newAck := MovedBy(d, skb.ackNum);
      if sackOk {
        TranslateSack(skb, d);
      } else {
        NothingDrifts(s0, h0, b0, skb.segLen);
      }
      ghost var s, h, b := skb.Sum(), skb.Hdr(), skb.data[..];
      skb.Replace4(skb.ackNum, newAck, false);
      AckChange(h, b, skb.segLen, newAck);
      BodyRepaired(s, h, b, h.(ackNum := newAck), b, skb.segLen, h.ackNum, newAck);
      skb.ackNum := newAck;
      if skb.Whole() {
        MoreDrift(skb.mode, GapOf(s0, h0, b0, skb.segLen), GapOf(s, h, b, skb.segLen), skb.Gap(), odd, 0);
      }
    } else {
      NothingDrifts(s0, h0, b0, skb.segLen);
    }
    if skb.Whole() {
      BodyDriftShows(s0, h0, b0, skb.Sum(), skb.Hdr(), skb.data[..], skb.segLen, odd);
      ExactAgain(skb);
    }
  }

  /** dysco_pick_path_ack where it caps an ACK: the cutoff takes the place of the ack number. */
  method CapAck(skb: Skb, cutoff: U32)
    requires skb.Sane()
    modifies skb`ackNum, skb`check, skb`csum
    ensures skb.ackNum == cutoff
    ensures skb.Good() <==> old(skb.Good())
    ensures skb.Good() ==> skb.Exact()
  {
    hide Repaired, Consistent, GapOf, Drifts, Reduced, BodySum, PseudoSum, Same, IsExact;
    ghost var s, h, b := skb.Sum(), skb.Hdr(), skb.data[..];
    skb.Replace4(skb.ackNum, cutoff, false);
    AckChange(h, b, skb.segLen, cutoff);
    BodyRepaired(s, h, b, h.(ackNum := cutoff), b, skb.segLen, h.ackNum, cutoff);
    skb.ackNum := cutoff;
    BodyDriftShows(s, h, b, skb.Sum(), skb.Hdr(), b, skb.segLen, 0);
    if skb.Good() {
      ExactIsReduced(skb.Sum(), skb.Hdr(), b, skb.segLen);
    }
  }

  /** dysco_tcp_sack and the checksum. */
  method TranslateSack(skb: Skb, d: Delta)
    requires skb.Sane()
    modifies skb.data, skb`check, skb`csum
    ensures skb.data[..] == Shift(old(skb.data[..]), old(skb.EdgeList()), d)
    ensures skb.Whole() ==> Drifted(skb, OddGrowth(old(skb.data[..]), old(skb.EdgeList()), d))
  {
    hide Consistent, GapOf, Drifts, Reduced, SackChecked, Growth, OddGrowth, Shift, Edges, Decode;
    ghost var s, h, b, edges := skb.Sum(), skb.Hdr(), skb.data[..], skb.EdgeList();
    EdgesApart(b, 0, skb.optLen);
    skb.TcpSack(d);
    if skb.Whole() {
      ApartWithin(edges, skb.optLen, skb.segLen);
      SackRepaired(s, h, b, edges, d, skb.segLen, skb.check);
    }
  }

  /** One half of the timestamp. */
  method RewriteWord(skb: Skb, at: nat, d: Delta)
    requires skb.Sane() && at + 4 <= skb.data.Length
    modifies skb.data, skb`check, skb`csum
    ensures skb.data[..] == Put32(old(skb.data[..]), at, Apply(d, Get32(old(skb.data[..]), at)))
    ensures var was := Get32(old(skb.data[..]), at);
            at + 4 <= skb.segLen ==> Drifted(skb, AtOdd(at, Apply(d, was) - was))
  {
    hide Repaired, Consistent, GapOf, Drifts, Reduced, BodySum, PseudoSum, Same, Get32, Put32;
    ghost var s, h, b := skb.Sum(), skb.Hdr(), skb.data[..];
    if d.mag != 0 {
      var from := skb.Load32(at);
      var to := MovedBy(d, from);
      skb.Replace4(from, to, false);
      skb.Store32(at, to);
      if at + 4 <= skb.segLen {
        FieldRepaired(s, h, b, at, to, skb.segLen);
      }
    } else {
      PutBack(skb.data[..], at);
      NothingDrifts(s, h, b, skb.segLen);
    }
  }

  lemma PutBack(b: seq<U8>, p: nat)
    requires p + 4 <= |b|
    ensures Put32(b, p, Get32(b, p)) == b
  {
    var v := Get32(b, p);
    SameDigits(Put32(b, p, v), b, p);
  }

  /** Four bytes are known by the number they make. */
  lemma SameDigits(a: seq<U8>, b: seq<U8>, p: nat)
    requires p + 4 <= |a| == |b| && Get32(a, p) == Get32(b, p)
    requires forall i :: 0 <= i < |a| && !(p <= i < p + 4) ==> a[i] == b[i]
    ensures a == b
  {
    assert a[p] == b[p] && a[p + 1] == b[p + 1] && a[p + 2] == b[p + 2] && a[p + 3] == b[p + 3];
  }

  /** dysco_out_rewrite_ts and dysco_in_rewrite_ts. */
  method RewriteTs(skb: Skb, ts: Delta, tsr: Delta)
    requires skb.Sane()
    modifies skb.data, skb`check, skb`csum
    ensures 0 <= TsPosition(old(skb.OptionList())) <= skb.optLen - 8 || TsPosition(old(skb.OptionList())) == -1
    ensures skb.data[..] == TsWritten(old(skb.data[..]), TsPosition(old(skb.OptionList())), ts, tsr)
    ensures skb.Whole() ==> Drifted(skb, TsOdd(old(skb.data[..]), TsPosition(old(skb.OptionList())), ts, tsr))
    ensures skb.Whole() && old(skb.Good()) ==>
              (skb.Good() <==>
                 skb.mode == Partial || TsOdd(old(skb.data[..]), TsPosition(old(skb.OptionList())), ts, tsr) % 257 == 0)
    ensures skb.Whole() && skb.Good() && old(skb.Good() && skb.Exact()) ==> skb.Exact()
  {
    hide Consistent, GapOf, Drifts, Reduced, IsExact, Get32, Put32, Decode, TsPosition, Apply, AtOdd;
    ghost var s0, h0, b0 := skb.Sum(), skb.Hdr(), skb.data[..];
    var at := skb.GetTsOption();
    TsInside(skb.data[..], skb.optLen);
    if at == -1 {
      NothingDrifts(s0, h0, b0, skb.segLen);
    } else {
      RewriteWord(skb, at, ts);
      ghost var s, b := skb.Sum(), skb.data[..];
      SameBytesSameValue(b0, b, at + 4);
      RewriteWord(skb, at + 4, tsr);
      SecondWord(at, ts, tsr, b0);
      if skb.Whole() {
        MoreDrift(skb.mode, GapOf(s0, h0, b0, skb.segLen), GapOf(s, h0, b, skb.segLen), skb.Gap(),
                  AtOdd(at, Apply(ts, Get32(b0, at)) - Get32(b0, at)),
                  AtOdd(at + 4, Apply(tsr, Get32(b0, at + 4)) - Get32(b0, at + 4)));
      }
    }
    if skb.Whole() {
      BodyDriftShows(s0, h0, b0, skb.Sum(), skb.Hdr(), skb.data[..], skb.segLen, TsOdd(b0, at, ts, tsr));
      ExactAgain(skb);
    }
  }

  /** Both words have the same parity. */
  lemma SecondWord(at: nat, ts: Delta, tsr: Delta, b: seq<U8>)
    requires at + 8 <= |b|
    ensures TsOdd(b, at, ts, tsr) == AtOdd(at, Apply(ts, Get32(b, at)) - Get32(b, at))
                                     + AtOdd(at + 4, Apply(tsr, Get32(b, at + 4)) - Get32(b, at + 4))
  {
  }

  lemma WindowChange(h: Header, b: seq<U8>, n: nat, v: U16)
    requires n <= |b|
    ensures var h' := h.(window := v);
            PseudoSum(h', n) == PseudoSum(h, n) && Same(BodySum(h', b, n), BodySum(h, b, n) + (v - h.window))
  {
  }

  /** dysco_out_rewrite_rcv_wnd and dysco_in_rewrite_rcv_wnd. */
  method RewriteWnd(skb: Skb, ws: Scales)
    requires skb.Sane()
    modifies skb`window, skb`check, skb`csum
    ensures skb.window == Through(old(skb.window), true, ws)
    ensures Drifted(skb, 0)
    ensures skb.Good() <==> old(skb.Good())
    ensures old(skb.Good() && skb.Exact()) ==> skb.Exact()
  {
    hide Consistent, GapOf, Drifts, Reduced, IsExact;
    ghost var s, h, b := skb.Sum(), skb.Hdr(), skb.data[..];
    if ws.changed {
      var wnd: U32 := skb.window;
      wnd := Wrap(wnd * Pow2(ws.wsIn));
      wnd := wnd / Pow2(ws.wsOut);
      var newWin: U16 := wnd % 0x1_0000;
      SetWindow(skb, newWin);
    } else {
      NothingDrifts(s, h, b, skb.segLen);
    }
    ExactAgain(skb);
  }

  /** inet_proto_csum_replace2 on the window. */
  method SetWindow(skb: Skb, newWin: U16)
    requires skb.Sane()
    modifies skb`window, skb`check, skb`csum
    ensures skb.window == newWin
    ensures Drifted(skb, 0) && Reduced(skb.Sum())
    ensures skb.Good() <==> old(skb.Good())
  {
    hide Repaired, Consistent, GapOf, Drifts, Reduced, BodySum, PseudoSum, Same;
    ghost var s, h, b := skb.Sum(), skb.Hdr(), skb.data[..];
    skb.Replace4(skb.window, newWin, false);
    WindowChange(h, b, skb.segLen, newWin);
    BodyRepaired(s, h, b, h.(window := newWin), b, skb.segLen, h.window, newWin);
    skb.window := newWin;
    BodyDriftShows(s, h, b, skb.Sum(), skb.Hdr(), b, skb.segLen, 0);
  }

  /** dysco_fix_rcv_window: the window a spliced proxy announces while it drains. */
  method FixRcvWindow(skb: Skb, wscale: nat, rcvNxt: U32, copied: U32, otherCopied: U32, sndWnd: U32)
    requires skb.Sane()
    modifies skb`window, skb`check, skb`csum
    ensures skb.window == Throttled(old(skb.window), wscale, Unread(rcvNxt, copied, otherCopied))
    ensures skb.Good() <==> old(skb.Good())
    ensures old(skb.Good() && skb.Exact()) ==> skb.Exact()
  {
    hide Consistent, GapOf, Drifts, Reduced, IsExact, Wrap, Pow2;
    if skb.window == 0 {
      return;
    }
    var oldWnd := Wrap(skb.window * Pow2(wscale));
    var newWnd := oldWnd;
    var rcvBuf := Unread(rcvNxt, copied, otherCopied);
    if rcvBuf > sndWnd {
      newWnd := 0;
    } else if sndWnd - rcvBuf < oldWnd {
      newWnd := sndWnd - rcvBuf;
    }
    if wscale == 0 {
      newWnd := 0;
    }
    if rcvBuf > MAX_WND_REC {
      newWnd := 0;
    } else {
      newWnd := MAX_WND_REC;
      if newWnd > oldWnd {
        newWnd := oldWnd;
      }
    }
    SetWindow(skb, newWnd / Pow2(wscale) % 0x1_0000);
    if skb.Good() {
      ExactIsReduced(skb.Sum(), skb.Hdr(), skb.data[..], skb.segLen);
    }
  }

  // ----- addresses and ports

  lemma AddressSums(o: Order, sip: U32, dip: U32, sip': U32, dip': U32, test: U32)
    ensures var from, to := Load(o, HostSum(o, sip, dip, dip)), Load(o, HostSum(o, sip', dip', test));
            Same(W32(sip') + W32(dip'), W32(sip) + W32(dip) + (to as int - from as int + CarryError(o, sip', dip', test)))
  {
    hide *;
    var from, to := Load(o, HostSum(o, sip, dip, dip)), Load(o, HostSum(o, sip', dip', test));
    WordsOfAddresses(sip, dip);
    WordsOfAddresses(sip', dip');
    HostSumError(o, sip, dip, dip);
    HostSumError(o, sip', dip', test);
    SameOperand(o, sip, dip);
    ResiduesMeet(W32(sip) + W32(dip), sip as int + dip as int, from, W32(sip') + W32(dip'), sip' as int + dip' as int,
                 to as int + CarryError(o, sip', dip', test));
  }

  lemma WordsOfAddresses(sip: U32, dip: U32)
    ensures Same(W32(sip) + W32(dip), sip + dip)
  {
    W32Residue(sip);
    W32Residue(dip);
    hide W32;
    SameTogether(W32(sip), sip, W32(dip), dip);
  }

  lemma SameOperand(o: Order, a: U32, b: U32)
    ensures CarryError(o, a, b, b) == 0
  {
  }

  lemma ResiduesMeet(oldWords: int, oldSum: int, from: int, newWords: int, newSum: int, to: int)
    requires Same(oldWords, oldSum) && Same(oldSum, from) && Same(newWords, newSum) && Same(newSum, to)
    ensures Same(newWords, oldWords + (to - from))
  {
    hide Same;
    SameChain(oldWords, oldSum, from);
    SameChain(newWords, newSum, to);
    SameBack(oldWords, from);
    SameTogether(newWords, to, from, oldWords);
    SameAcross(newWords + from, to + oldWords, newWords, oldWords + (to - from), 0 - from);
  }

  lemma AddressChange(o: Order, h: Header, n: nat, sip: U32, dip: U32, test: U32)
    ensures var from, to := Load(o, HostSum(o, h.saddr, h.daddr, h.daddr)), Load(o, HostSum(o, sip, dip, test));
            Same(PseudoSum(h.(saddr := sip, daddr := dip), n),
                 PseudoSum(h, n) + (to as int - from as int + CarryError(o, sip, dip, test)))
  {
    hide Same, W32, Load, HostSum, CarryError;
    var from, to := Load(o, HostSum(o, h.saddr, h.daddr, h.daddr)), Load(o, HostSum(o, sip, dip, test));
    AddressSums(o, h.saddr, h.daddr, sip, dip, test);
    SameMoved(W32(sip) + W32(dip), W32(h.saddr) + W32(h.daddr) + (to as int - from as int + CarryError(o, sip, dip, test)),
              IPPROTO_TCP + n + 20);
  }

  /** The IP header's checksum after its addresses were replaced. */
  function IpRepaired(o: Order, check: U16, sip: U32, dip: U32, sip': U32, dip': U32, test: U32): U16 {
    Load16(o, Replaced4(Load16(o, check), HostSum(o, sip, dip, dip), HostSum(o, sip', dip', test)))
  }

  lemma IpRepairedIs(o: Order, check: U16, sip: U32, dip: U32, sip': U32, dip': U32, test: U32)
    ensures IpRepaired(o, check, sip, dip, sip', dip', test)
            == Adjusted(check, Load(o, HostSum(o, sip', dip', test)) as int - Load(o, HostSum(o, sip, dip, dip)) as int)
  {
    hide Load, HostSum, Replaced4, Load16, Adjusted, Same;
    var from, to := HostSum(o, sip, dip, dip), HostSum(o, sip', dip', test);
    LoadResidue(o, Load(o, from));
    LoadResidue(o, Load(o, to));
    LoadResidue(o, from);
    LoadResidue(o, to);
    HostRepair(o, check, Load(o, from), Load(o, to), from, to);
    Replaced4IsAdjusted(check, Load(o, from), Load(o, to));
  }

  /** It is accepted exactly when the comparison with test finds the carry. */
  lemma IpChange(o: Order, rest: seq<U16>, sip: U32, dip: U32, sip': U32, dip': U32, check: U16, test: U32)
    requires Sum(rest) > 0 && Accepted(AddressWords(sip, dip) + rest, check)
    ensures var check' := IpRepaired(o, check, sip, dip, sip', dip', test);
            && (Accepted(AddressWords(sip', dip') + rest, check') <==> FindsCarry(o, sip', dip', test))
            && (FindsCarry(o, sip', dip', test) ==> check' == Recomputed(AddressWords(sip', dip') + rest))
  {
    SumOfAddresses(sip, dip, rest);
    SumOfAddresses(sip', dip', rest);
    hide Load, HostSum, CarryError, W32, Accepted, Recomputed, Same, FindsCarry, AddressWords, Sum, IpRepaired, Adjusted;
    var from, to := Load(o, HostSum(o, sip, dip, dip)), Load(o, HostSum(o, sip', dip', test));
    var diff, e := to as int - from as int, CarryError(o, sip', dip', test);
    IpRepairedIs(o, check, sip, dip, sip', dip', test);
    AddressSums(o, sip, dip, sip', dip', test);
    var was, now := Sum(AddressWords(sip, dip) + rest), Sum(AddressWords(sip', dip') + rest);
    SameMoved(W32(sip') + W32(dip'), W32(sip) + W32(dip) + (diff + e), Sum(rest));
    ExcessShows(now, was + diff, e);
    RepairIsRecomputation(AddressWords(sip, dip) + rest, AddressWords(sip', dip') + rest, check, diff);
  }

  lemma ExcessShows(sum': int, sum: int, e: int)
    requires Same(sum', sum + e) && (e == 0 || e == 1 || e == -1 || e == 256 || e == -256)
    ensures Same(sum', sum) <==> e == 0
  {
    ErrorsShow(e, 0);
    hide Same;
    SameShift(sum + e, sum, 0 - sum);
    if Same(sum', sum) {
      SameBack(sum', sum + e);
      SameChain(sum + e, sum', sum);
    }
  }

  lemma SumOfAddresses(sip: U32, dip: U32, rest: seq<U16>)
    ensures Sum(AddressWords(sip, dip) + rest) == W32(sip) + W32(dip) + Sum(rest)
  {
    SumOfFour(sip / 0x1_0000, sip % 0x1_0000, dip / 0x1_0000, dip % 0x1_0000, rest);
  }

  /** A packet for 10.0.0.5 whose session is 10.0.0.1 to 10.0.0.2, from whatever address: a big-endian
      host leaves an accepted IP checksum, a little-endian one finds a carry that is not there. */
  lemma CarryMissedInLittleEndian(rest: seq<U16>, sip: U32, check: U16)
    requires Sum(rest) > 0 && Accepted(AddressWords(sip, 0x0A00_0005) + rest, check)
    ensures var words := AddressWords(0x0A00_0001, 0x0A00_0002) + rest;
            && Accepted(words, IpRepaired(Big, check, sip, 0x0A00_0005, 0x0A00_0001, 0x0A00_0002, 0x0A00_0005))
            && !Accepted(words, IpRepaired(Little, check, sip, 0x0A00_0005, 0x0A00_0001, 0x0A00_0002, 0x0A00_0005))
  {
    assert FindsCarry(Big, 0x0A00_0001, 0x0A00_0002, 0x0A00_0005);
    assert Swap32(0x0A00_0001) == 0x0100_000A && Swap32(0x0A00_0002) == 0x0200_000A && Swap32(0x0A00_0005) == 0x0500_000A;
    assert !FindsCarry(Little, 0x0A00_0001, 0x0A00_0002, 0x0A00_0005);
    hide *;
    IpChange(Big, rest, sip, 0x0A00_0005, 0x0A00_0001, 0x0A00_0002, check, 0x0A00_0005);
    IpChange(Little, rest, sip, 0x0A00_0005, 0x0A00_0001, 0x0A00_0002, check, 0x0A00_0005);
  }

  lemma PortChange(h: Header, b: seq<U8>, n: nat, h': Header, from: U16, to: U16)
    requires n <= |b|
    requires (from == h.sport && h' == h.(sport := to)) || (from == h.dport && h' == h.(dport := to))
    ensures PseudoSum(h', n) == PseudoSum(h, n) && Same(BodySum(h', b, n), BodySum(h, b, n) + (to - from))
  {
  }

  /** The common part of dysco_out_hdr_rewrite_csum and dysco_in_hdr_rewrite_csum on a host with byte order
      o; `test` is the operand each compares with the sum of the new addresses. */
  method RewriteHeader(skb: Skb, to: Session, o: Order, test: U32)
    requires skb.Sane()
    modifies skb`saddr, skb`daddr, skb`sport, skb`dport, skb`ipCheck, skb`check, skb`csum
    ensures Session(skb.saddr, skb.daddr, skb.sport, skb.dport) == to
    ensures Drifts(skb.mode, old(skb.Gap()), skb.Gap(), 0, CarryError(o, to.sip, to.dip, test)) && Reduced(skb.Sum())
    ensures old(skb.Good()) ==> (skb.Good() <==> FindsCarry(o, to.sip, to.dip, test))
    ensures skb.Good() ==> skb.Exact()
    ensures old(skb.IpGood()) ==> (skb.IpGood() <==> FindsCarry(o, to.sip, to.dip, test))
  {
    hide Consistent, GapOf, Drifts, Reduced, IsExact, HostSum, Accepted, FindsCarry, CarryError, Same;
    ghost var s, h, b := skb.Sum(), skb.Hdr(), skb.data[..];
    ReplaceAddresses(skb, to, o, test);
    ghost var s1, h1 := skb.Sum(), skb.Hdr();
    RewritePorts(skb, to.sport, to.dport);
    ghost var e := CarryError(o, to.sip, to.dip, test);
    DriftsTogether(skb.mode, GapOf(s, h, b, skb.segLen), GapOf(s1, h1, b, skb.segLen), skb.Gap(), 0, e, 0, 0);
    DriftedChecksums(s, h, b, skb.Sum(), skb.Hdr(), b, skb.segLen, 0, e);
    ErrorsShow(e, 0);
    SameMoved(0, 0, 0);
    if skb.Good() {
      ExactIsReduced(skb.Sum(), skb.Hdr(), b, skb.segLen);
    }
  }

  method ReplaceAddresses(skb: Skb, to: Session, o: Order, test: U32)
    requires skb.Sane()
    modifies skb`saddr, skb`daddr, skb`ipCheck, skb`check, skb`csum
    ensures skb.saddr == to.sip && skb.daddr == to.dip
    ensures Drifts(skb.mode, old(skb.Gap()), skb.Gap(), 0, CarryError(o, to.sip, to.dip, test))
    ensures old(skb.IpGood()) ==> (skb.IpGood() <==> FindsCarry(o, to.sip, to.dip, test))
  {
    hide Repaired, Consistent, GapOf, Drifts, BodySum, PseudoSum, Same, HostSum, Load, Load16, Accepted, Replaced4,
         FindsCarry, CarryError;
    ghost var s, h, b := skb.Sum(), skb.Hdr(), skb.data[..];
    var from := HostSum(o, skb.saddr, skb.daddr, skb.daddr);
    var newSum := HostSum(o, to.sip, to.dip, test);
    if skb.IpGood() {
      IpChange(o, skb.ipRest, skb.saddr, skb.daddr, to.sip, to.dip, skb.ipCheck, test);
    }
    skb.ipCheck := Load16(o, Replaced4(Load16(o, skb.ipCheck), from, newSum));
    skb.saddr := to.sip;
    skb.daddr := to.dip;
    skb.Replace4(Load(o, from), Load(o, newSum), true);
    AddressChange(o, h, skb.segLen, to.sip, to.dip, test);
    BodyWithoutAddresses(h, to.sip, to.dip, b, skb.segLen);
    RepairDrifts(s, h, b, h.(saddr := to.sip, daddr := to.dip), b, skb.segLen, Load(o, from), Load(o, newSum), true,
                 CarryError(o, to.sip, to.dip, test));
  }

  lemma BodyWithoutAddresses(h: Header, sip: U32, dip: U32, b: seq<U8>, n: nat)
    requires n <= |b|
    ensures Same(BodySum(h.(saddr := sip, daddr := dip), b, n), BodySum(h, b, n) + 0)
  {
  }

  method RewritePorts(skb: Skb, sport: U16, dport: U16)
    requires skb.Sane()
    modifies skb`sport, skb`dport, skb`check, skb`csum
    ensures skb.sport == sport && skb.dport == dport
    ensures Drifts(skb.mode, old(skb.Gap()), skb.Gap(), 0, 0) && Reduced(skb.Sum())
  {
    hide Repaired, Consistent, GapOf, Drifts, Reduced, BodySum, PseudoSum, Same;
    ghost var s, h, b := skb.Sum(), skb.Hdr(), skb.data[..];
    skb.Replace4(skb.sport, sport, false);
    PortChange(h, b, skb.segLen, h.(sport := sport), h.sport, sport);
    BodyRepaired(s, h, b, h.(sport := sport), b, skb.segLen, h.sport, sport);
    skb.sport := sport;
    ghost var s1, h1 := skb.Sum(), skb.Hdr();
    skb.Replace4(skb.dport, dport, false);
    PortChange(h1, b, skb.segLen, h1.(dport := dport), h1.dport, dport);
    BodyRepaired(s1, h1, b, h1.(dport := dport), b, skb.segLen, h1.dport, dport);
    skb.dport := dport;
    DriftsTogether(skb.mode, GapOf(s, h, b, skb.segLen), GapOf(s1, h1, b, skb.segLen), skb.Gap(), 0, 0, 0, 0);
  }

  // ----- the whole segment

  ghost function Says(skb: Skb): N.Tcp
    requires skb.Sane()
    reads skb, skb.data
  {
    TcpOf(skb.Hdr(), skb.data[..], skb.optLen)
  }

  /** The bytes after the translation of ack number and timestamps. */
  ghost function Written(buf: seq<U8>, end: int, ackD: Delta, sackOk: bool, tsOk: bool, ts: Delta, tsr: Delta): (r: seq<U8>)
    requires 0 < end ==> end < |buf|
    ensures |r| == |buf|
  {
    TsInside(buf, end);
    var b := AckWritten(buf, end, ackD, sackOk);
    if tsOk then TsWritten(b, TsPosition(Decode(buf, 0, end).0), ts, tsr) else b
  }

  /** The sum of the changes of all fields at odd offsets. */
  ghost function OddChange(buf: seq<U8>, end: int, ackD: Delta, sackOk: bool, tsOk: bool, ts: Delta, tsr: Delta): int
    requires 0 < end ==> end < |buf|
  {
    TsInside(buf, end);
    AckOdd(buf, end, ackD, sackOk) + if tsOk then TsOdd(buf, TsPosition(Decode(buf, 0, end).0), ts, tsr) else 0
  }

  lemma TcpAfterAck(h: Header, buf: seq<U8>, end: int, d: Delta, sackOk: bool)
    requires 0 < end ==> end < |buf|
    ensures var buf' := AckWritten(buf, end, d, sackOk);
            && Decode(buf', 0, end) == Decode(buf, 0, end)
            && TcpOf(h, buf', end)
               == TcpOf(h, buf, end).(edges := if d.mag != 0 && sackOk then N.ShiftAll(d, TcpOf(h, buf, end).edges)
                                               else TcpOf(h, buf, end).edges)
  {
    EdgesApart(buf, 0, end);
    ApartWithin(Edges(Decode(buf, 0, end).0), if end > 0 then end else 0, |buf|);
    TcpAfterShift(h, buf, end, d);
  }

  /** The edges leave the timestamp alone. */
  lemma TsAfterAck(h: Header, buf: seq<U8>, end: int, d: Delta, sackOk: bool, ts: Delta, tsr: Delta)
    requires 0 < end ==> end < |buf|
    ensures var p, buf' := TsPosition(Decode(buf, 0, end).0), AckWritten(buf, end, d, sackOk);
            (p >= 0 ==> p + 8 <= |buf|) && TsOdd(buf', p, ts, tsr) == TsOdd(buf, p, ts, tsr)
  {
    hide Decode, Edges, TsPosition, Get32, Apply, AckWritten, EdgeValues;
    TcpAfterAck(h, buf, end, d, sackOk);
    TsInside(buf, end);
  }

  /** The translation of the TCP numbers: what the segment says afterwards is the rewriting of what it
      said, its option list is the same, and a good segment stays good exactly when 257 divides the sum
      of the changes of all fields at odd offsets, or the device fills the field in. */
  method RewriteNumbers(skb: Skb, seqD: Delta, ackD: Delta, sackOk: bool, tsOk: bool, ts: Delta, tsr: Delta, wsOk: bool,
                        ws: Scales)
    requires skb.Sane()
    modifies skb.data, skb`seqNum, skb`ackNum, skb`window, skb`check, skb`csum
    ensures Says(skb) == N.Rewrite(old(Says(skb)), seqD, ackD, sackOk, tsOk, ts, tsr)
    ensures skb.data[..] == Written(old(skb.data[..]), skb.optLen, ackD, sackOk, tsOk, ts, tsr)
    ensures skb.window == Through(old(skb.window), wsOk, ws)
    ensures skb.OptionList() == old(skb.OptionList())
    ensures skb.Whole() ==> Drifted(skb, OddChange(old(skb.data[..]), skb.optLen, ackD, sackOk, tsOk, ts, tsr))
    ensures skb.Whole() && old(skb.Good()) ==>
              (skb.Good() <==>
                 skb.mode == Partial || OddChange(old(skb.data[..]), skb.optLen, ackD, sackOk, tsOk, ts, tsr) % 257 == 0)
    ensures skb.Whole() && skb.Good() && old(skb.Good() && skb.Exact()) ==> skb.Exact()
  {
    hide Consistent, GapOf, Drifts, Reduced, IsExact, Decode, Edges, TsPosition, Apply, AckWritten, TsWritten, TcpOf,
         Through, AckOdd, TsOdd;
    ghost var s, h, buf, end, n := skb.Sum(), skb.Hdr(), skb.data[..], skb.optLen, skb.segLen;
    RewriteFront(skb, seqD, ackD, sackOk);
    ghost var g, h1, buf1 := skb.Gap(), skb.Hdr(), skb.data[..];
    TcpAfterAck(h1, buf, end, ackD, sackOk);
    TsAfterAck(h1, buf, end, ackD, sackOk, ts, tsr);
    RewriteTail(skb, tsOk, ts, tsr, wsOk, ws);
    WrittenSays(h, skb.Hdr(), buf, end, seqD, ackD, sackOk, tsOk, ts, tsr);
    if skb.Whole() {
      ghost var a := AckOdd(buf, end, ackD, sackOk);
      ghost var t := if tsOk then TsOdd(buf, TsPosition(Decode(buf, 0, end).0), ts, tsr) else 0;
      MoreDrift(skb.mode, GapOf(s, h, buf, n), g, skb.Gap(), a, t);
      BodyDriftShows(s, h, buf, skb.Sum(), skb.Hdr(), skb.data[..], n, a + t);
      ExactAgain(skb);
    }
  }

  /** What the rewritten segment says. */
  lemma WrittenSays(h: Header, h': Header, buf: seq<U8>, end: int, seqD: Delta, ackD: Delta, sackOk: bool,
                    tsOk: bool, ts: Delta, tsr: Delta)
    requires 0 < end ==> end < |buf|
    requires h'.seqNum == Apply(seqD, h.seqNum) && h'.ackNum == Apply(ackD, h.ackNum)
    ensures var buf' := Written(buf, end, ackD, sackOk, tsOk, ts, tsr);
            && Decode(buf', 0, end) == Decode(buf, 0, end)
            && TcpOf(h', buf', end) == N.Rewrite(TcpOf(h, buf, end), seqD, ackD, sackOk, tsOk, ts, tsr)
  {
    hide Decode, Edges, TsPosition, Apply, Get32, AckWritten, TsWritten, EdgeValues;
    var b := AckWritten(buf, end, ackD, sackOk);
    TcpAfterAck(h', buf, end, ackD, sackOk);
    TsInside(b, end);
    TcpAfterTs(h', b, end, ts, tsr);
  }

  /** Sequence and ack number. */
  method RewriteFront(skb: Skb, seqD: Delta, ackD: Delta, sackOk: bool)
    requires skb.Sane()
    modifies skb.data, skb`seqNum, skb`ackNum, skb`check, skb`csum
    ensures skb.seqNum == Apply(seqD, old(skb.seqNum)) && skb.ackNum == Apply(ackD, old(skb.ackNum))
    ensures skb.data[..] == AckWritten(old(skb.data[..]), skb.optLen, ackD, sackOk)
    ensures skb.Whole() ==> Drifted(skb, AckOdd(old(skb.data[..]), skb.optLen, ackD, sackOk))
  {
    hide Consistent, GapOf, Drifts, Reduced, Decode, Apply, AckWritten, AckOdd;
    ghost var s, h, buf, n := skb.Sum(), skb.Hdr(), skb.data[..], skb.segLen;
    RewriteSeq(skb, seqD);
    ghost var g := skb.Gap();
    RewriteAck(skb, ackD, sackOk);
    if skb.Whole() {
      MoreDrift(skb.mode, GapOf(s, h, buf, n), g, skb.Gap(), 0, AckOdd(buf, skb.optLen, ackD, sackOk));
    }
  }

  /** Timestamps and window. */
  method RewriteTail(skb: Skb, tsOk: bool, ts: Delta, tsr: Delta, wsOk: bool, ws: Scales)
    requires skb.Sane()
    modifies skb.data, skb`window, skb`check, skb`csum
    ensures 0 <= TsPosition(old(skb.OptionList())) <= skb.optLen - 8 || TsPosition(old(skb.OptionList())) == -1
    ensures skb.data[..] == if tsOk then TsWritten(old(skb.data[..]), TsPosition(old(skb.OptionList())), ts, tsr)
                            else old(skb.data[..])
    ensures skb.window == Through(old(skb.window), wsOk, ws)
    ensures skb.Whole() ==>
              Drifted(skb, if tsOk then TsOdd(old(skb.data[..]), TsPosition(old(skb.OptionList())), ts, tsr) else 0)
  {
    hide Consistent, GapOf, Drifts, Reduced, Decode, TsPosition, Apply, Get32, TsWritten, Rescaled, TsOdd;
    ghost var s, h, b, n := skb.Sum(), skb.Hdr(), skb.data[..], skb.segLen;
    TsInside(b, skb.optLen);
    if tsOk {
      RewriteTs(skb, ts, tsr);
    } else {
      NothingDrifts(s, h, b, n);
    }
    ghost var g := skb.Gap();
    if wsOk {
      RewriteWnd(skb, ws);
    } else {
      NothingDrifts(skb.Sum(), skb.Hdr(), skb.data[..], n);
    }
    if skb.Whole() {
      MoreDrift(skb.mode, GapOf(s, h, b, n), g, skb.Gap(),
                if tsOk then TsOdd(b, TsPosition(Decode(b, 0, skb.optLen).0), ts, tsr) else 0, 0);
    }
  }

  /** Option lists padded with NOPs, as TCPs send them, keep every field at an even offset: nothing ever
      drifts. */
  lemma AlignedNeverDrifts(buf: seq<U8>, end: int, ackD: Delta, sackOk: bool, tsOk: bool, ts: Delta, tsr: Delta)
    requires 0 < end ==> end < |buf|
    requires AllEven(Edges(Decode(buf, 0, end).0))
    requires TsPosition(Decode(buf, 0, end).0) == -1 || TsPosition(Decode(buf, 0, end).0) % 2 == 0
    ensures OddChange(buf, end, ackD, sackOk, tsOk, ts, tsr) == 0
  {
    hide Decode, Edges, TsPosition, OddGrowth, AllEven, Apply, Get32;
    EdgesApart(buf, 0, end);
    TsInside(buf, end);
    if end > 0 {
      ApartWithin(Edges(Decode(buf, 0, end).0), end, |buf|);
    } else {
      DecodeOther(buf, 0, end);
      NoEdgesAtEnd(buf, 0, end);
    }
    EvenEdgesOnly(buf, Edges(Decode(buf, 0, end).0), ackD);
  }

  /** What an output or input block does to the fields at odd offsets. */
  ghost function OutOdd(n: N.OutNumbers, buf: seq<U8>, end: int): int
    requires 0 < end ==> end < |buf|
  {
    OddChange(buf, end, n.ackDelta, n.sackOk, n.tsOk, n.tsDelta, n.tsrDelta)
  }

  ghost function InOdd(n: N.InNumbers, buf: seq<U8>, end: int): int
    requires 0 < end ==> end < |buf|
  {
    OddChange(buf, end, n.ackDelta, n.sackOk, n.tsOk, n.tsDelta, n.tsrDelta)
  }

  /** The rewriting half of dysco_out_translate: numbers when the session has two paths, then the
      header. `n` holds the fields of the output block of the chosen path. */
  method OutRewrite(skb: Skb, twoPaths: bool, n: N.OutNumbers, sub: Session, o: Order)
    requires skb.Sane()
    modifies skb.data, skb`seqNum, skb`ackNum, skb`window, skb`saddr, skb`daddr, skb`sport, skb`dport
    modifies skb`ipCheck, skb`check, skb`csum
    ensures Session(skb.saddr, skb.daddr, skb.sport, skb.dport) == sub
    ensures Says(skb) == if twoPaths then N.RewriteOut(n, old(Says(skb))) else old(Says(skb))
    ensures skb.data[..] == if twoPaths then Written(old(skb.data[..]), skb.optLen, n.ackDelta, n.sackOk, n.tsOk, n.tsDelta,
                                                     n.tsrDelta)
                            else old(skb.data[..])
    ensures skb.window == if twoPaths then Through(old(skb.window), n.wsOk, OutScales(n)) else old(skb.window)
    ensures skb.OptionList() == old(skb.OptionList())
    ensures skb.Whole() && old(skb.Good()) ==>
              (skb.Good() <==> !twoPaths || skb.mode == Partial || OutOdd(n, old(skb.data[..]), skb.optLen) % 257 == 0)
    ensures skb.Good() ==> skb.Exact()
    ensures old(skb.IpGood()) ==> skb.IpGood()
  {
    hide Consistent, GapOf, Drifts, Reduced, IsExact, Decode, TcpOf, Accepted, Rescaled, OddChange, Written,
         FindsCarry, CarryError;
    ghost var s0, h0, b0 := skb.Sum(), skb.Hdr(), skb.data[..];
    if twoPaths {
      RewriteNumbers(skb, n.seqDelta, n.ackDelta, n.sackOk, n.tsOk, n.tsDelta, n.tsrDelta, n.wsOk, OutScales(n));
    }
    ghost var s, h := skb.Sum(), skb.Hdr();
    RewriteHeader(skb, sub, o, sub.dip);
    HeaderSaysNothing(h, skb.Hdr(), skb.data[..], skb.optLen);
    SameOperand(o, sub.sip, sub.dip);
    DriftedChecksums(s, h, skb.data[..], skb.Sum(), skb.Hdr(), skb.data[..], skb.segLen, 0, 0);
  }

  /** Addresses, ports and window are not among what a segment says. */
  lemma HeaderSaysNothing(h: Header, h': Header, buf: seq<U8>, end: int)
    requires 0 < end ==> end < |buf|
    requires h'.seqNum == h.seqNum && h'.ackNum == h.ackNum
    ensures TcpOf(h', buf, end) == TcpOf(h, buf, end)
  {
  }

  /** dysco_in_hdr_rewrite_csum: the header first, with the carry looked for in sub.dip. Good checksums
      come out good exactly when that finds the carry of the two new addresses as the host loads them and,
      unless the device fills the field in, 257 divides the sum of the odd changes: neither error ever
      makes up for the other. */
  method InRewrite(skb: Skb, n: N.InNumbers, super: Session, sub: Session, o: Order)
    requires skb.Sane()
    modifies skb.data, skb`seqNum, skb`ackNum, skb`window, skb`saddr, skb`daddr, skb`sport, skb`dport
    modifies skb`ipCheck, skb`check, skb`csum
    ensures Session(skb.saddr, skb.daddr, skb.sport, skb.dport) == super
    ensures Says(skb) == N.RewriteIn(n, old(Says(skb)))
    ensures skb.data[..] == Written(old(skb.data[..]), skb.optLen, n.ackDelta, n.sackOk, n.tsOk, n.tsDelta, n.tsrDelta)
    ensures skb.window == Through(old(skb.window), n.wsOk, InScales(n))
    ensures skb.OptionList() == old(skb.OptionList())
    ensures skb.Whole() && old(skb.Good()) ==>
              (skb.Good() <==> FindsCarry(o, super.sip, super.dip, sub.dip)
                               && (skb.mode == Partial || InOdd(n, old(skb.data[..]), skb.optLen) % 257 == 0))
    ensures skb.Whole() && skb.Good() ==> skb.Exact()
    ensures old(skb.IpGood()) ==> (skb.IpGood() <==> FindsCarry(o, super.sip, super.dip, sub.dip))
  {
    hide Consistent, GapOf, Drifts, Reduced, IsExact, Decode, TcpOf, Accepted, Rescaled, OddChange, Written,
         FindsCarry, CarryError, Same;
    ghost var s0, h0, b0, k := skb.Sum(), skb.Hdr(), skb.data[..], skb.segLen;
    RewriteHeader(skb, super, o, sub.dip);
    HeaderSaysNothing(h0, skb.Hdr(), skb.data[..], skb.optLen);
    ghost var g := skb.Gap();
    RewriteNumbers(skb, n.seqDelta, n.ackDelta, n.sackOk, n.tsOk, n.tsDelta, n.tsrDelta, n.wsOk, InScales(n));
    if skb.Whole() {
      ghost var e, odd := CarryError(o, super.sip, super.dip, sub.dip), InOdd(n, b0, skb.optLen);
      BothErrorsShow(s0, h0, b0, g, skb.Sum(), skb.Hdr(), skb.data[..], k, odd, e);
      if skb.Good() {
        ExactIsReduced(skb.Sum(), skb.Hdr(), skb.data[..], k);
      }
    }
  }

  lemma BothErrorsShow(s: Sums, h: Header, b: seq<U8>, g: Gap, s': Sums, h': Header, b': seq<U8>, n: nat, odd: int, e: int)
    requires n <= |b| && n <= |b'| && n + 20 < 0x1_0000 && s'.mode == s.mode
    requires Drifts(s.mode, GapOf(s, h, b, n), g, 0, e) && Drifts(s.mode, g, GapOf(s', h', b', n), 255 * odd, 0)
    requires e == 0 || e == 1 || e == -1 || e == 256 || e == -256
    ensures Consistent(s, h, b, n) ==> (Consistent(s', h', b', n) <==> e == 0 && (s.mode == Partial || odd % 257 == 0))
  {
    hide Consistent, GapOf, Drifts, Same;
    DriftsTogether(s.mode, GapOf(s, h, b, n), g, GapOf(s', h', b', n), 0, e, 255 * odd, 0);
    DriftedChecksums(s, h, b, s', h', b', n, 255 * odd, e);
    ErrorsShow(e, odd);
  }

  /** Zero deltas write every field back as it was. */
  lemma WrittenByNothing(buf: seq<U8>, end: int, sackOk: bool, tsOk: bool)
    requires 0 < end ==> end < |buf|
    ensures Written(buf, end, N.NoDelta, sackOk, tsOk, N.NoDelta, N.NoDelta) == buf
    ensures OddChange(buf, end, N.NoDelta, sackOk, tsOk, N.NoDelta, N.NoDelta) == 0
  {
    var p := TsPosition(Decode(buf, 0, end).0);
    TsInside(buf, end);
    hide Decode, Edges, TsPosition, Get32, Put32;
    if p >= 0 {
      PutBack(buf, p);
      PutBack(buf, p + 4);
    }
  }

  /** A segment of the left stack travels the new path: the right stack reads the same offsets in its
      own session if and only if the timestamps fit, and good checksums arrive good exactly when the right
      anchor's carry test works and the odd changes it makes are divisible. */
  method LeftToRight(skb: Skb, left: N.OutNumbers, leftIn: N.InNumbers, was: N.InNumbers, right: N.OutNumbers,
                     rightIn: N.InNumbers, sub: Session, super: Session, o: Order, o': Order, ghost k: N.Offsets)
    requires skb.Sane()
    requires Says(skb) == N.InSession(left.inIseq, left.inIack, left.tsIn, left.tsrIn, k)
    requires N.Paired(right, rightIn) && (left.tsIn != 0 && k.ts.Some? ==> rightIn.tsOk)
    requires left.sackOk || k.edges == []
    modifies skb.data, skb`seqNum, skb`ackNum, skb`window, skb`saddr, skb`daddr, skb`sport, skb`dport
    modifies skb`ipCheck, skb`check, skb`csum
    ensures Session(skb.saddr, skb.daddr, skb.sport, skb.dport) == super
    ensures Says(skb) == N.InSession(right.inIack, right.inIseq, right.tsrIn, right.tsIn, k)
            <==> N.TimestampsFit(left, right, k)
    ensures skb.window == SeenAtRight(left, leftIn, was, right, rightIn, old(skb.window))
    ensures var n := N.RightInNumbers(was, right, rightIn, N.SynMessage(left, leftIn));
            skb.Whole() && old(skb.Good()) ==>
              (skb.Good() <==> FindsCarry(o', super.sip, super.dip, sub.dip)
                               && (skb.mode == Partial || InOdd(n, old(skb.data[..]), skb.optLen) % 257 == 0))
    ensures old(skb.IpGood()) ==> (skb.IpGood() <==> FindsCarry(o', super.sip, super.dip, sub.dip))
  {
    hide Consistent, GapOf, IsExact, Decode, TcpOf, Accepted, FindsCarry, Wrap, Through, OddChange, Written;
    hide N.Paired, N.InSession, N.RewriteIn, N.RewriteOut, N.RightInNumbers, N.SynMessage, N.TimestampsFit;
    N.LeftToRightIsTransparent(left, leftIn, was, right, rightIn, k);
    var r := N.SynMessage(left, leftIn);
    WrittenByNothing(skb.data[..], skb.optLen, r.sackOk, r.leftIts != 0);
    OutRewrite(skb, true, N.LeftOutNumbers(r), sub, o);
    InRewrite(skb, N.RightInNumbers(was, right, rightIn, r), super, sub, o');
  }
}
