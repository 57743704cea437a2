/** A TCP segment in memory and the kernel's in-place rewriting of it, with the checksum repaired as
    it goes. */
module Packet {
  import opened Serial
  import opened Translation
  import opened Checksum
  import opened Options

  /** Fixed TCP fields and the addresses of the pseudo-header. */
  datatype Header = Header(saddr: U32, daddr: U32, sport: U16, dport: U16, seqNum: U32, ackNum: U32,
                           flags: U16, window: U16, urgent: U16)

  /** skb->ip_summed. */
  datatype Mode = Plain | Partial | Complete

  /** Where the checksum stands: th->check and skb->csum. */
  datatype Sums = Sums(mode: Mode, check: U16, csum: U32)

  const IPPROTO_TCP: U16 := 6

  // ----- reference: the words a TCP checksum covers

  function AddressWords(sip: U32, dip: U32): seq<U16> {
    [sip / 0x1_0000, sip % 0x1_0000, dip / 0x1_0000, dip % 0x1_0000]
  }

  function PseudoWords(h: Header, tcpLen: U16): seq<U16> {
    AddressWords(h.saddr, h.daddr) + [IPPROTO_TCP, tcpLen]
  }

  /** The TCP header without the checksum field. */
  function HeaderWords(h: Header): seq<U16> {
    [h.sport, h.dport, h.seqNum / 0x1_0000, h.seqNum % 0x1_0000, h.ackNum / 0x1_0000, h.ackNum % 0x1_0000,
     h.flags, h.window, h.urgent]
  }

  /** Everything the checksum covers: pseudo-header, header, options and payload. */
  function TcpWords(h: Header, bytes: seq<U8>): seq<U16>
    requires |bytes| + 20 < 0x1_0000
  {
    PseudoWords(h, |bytes| + 20) + HeaderWords(h) + Words(bytes)
  }

  function PseudoSum(h: Header, n: nat): int {
    W32(h.saddr) + W32(h.daddr) + IPPROTO_TCP + n + 20
  }

  function BodySum(h: Header, bytes: seq<U8>, n: nat): int
    requires n <= |bytes|
  {
    h.sport + h.dport + W32(h.seqNum) + W32(h.ackNum) + h.flags + h.window + h.urgent + ByteSum(bytes, n)
  }

  lemma {:induction false} ByteSumOfPrefix(bytes: seq<U8>, n: nat, m: nat)
    requires m <= n <= |bytes|
    ensures ByteSum(bytes[..n], m) == ByteSum(bytes, m)
  {
    if m > 0 {
      ByteSumOfPrefix(bytes, n, m - 1);
    }
  }

  lemma TcpWordsSum(h: Header, bytes: seq<U8>, n: nat)
    requires n <= |bytes| && n + 20 < 0x1_0000
    ensures Sum(TcpWords(h, bytes[..n])) == PseudoSum(h, n) + BodySum(h, bytes, n)
    ensures Sum(TcpWords(h, bytes[..n])) > 0
  {
    assert |bytes[..n]| == n;
    SumOfPseudo(h, n + 20);
    SumOfHeader(h);
    WordsSum(bytes[..n]);
    ByteSumOfPrefix(bytes, n, n);
    SumConcat(PseudoWords(h, n + 20), HeaderWords(h));
    SumConcat(PseudoWords(h, n + 20) + HeaderWords(h), Words(bytes[..n]));
  }

  lemma SumOfPseudo(h: Header, tcpLen: U16)
    ensures Sum(PseudoWords(h, tcpLen)) == W32(h.saddr) + W32(h.daddr) + IPPROTO_TCP + tcpLen
  {
    SumOfFour(h.saddr / 0x1_0000, h.saddr % 0x1_0000, h.daddr / 0x1_0000, h.daddr % 0x1_0000, [IPPROTO_TCP, tcpLen]);
    SumOfTwo(IPPROTO_TCP, tcpLen, []);
    assert [IPPROTO_TCP, tcpLen] + [] == [IPPROTO_TCP, tcpLen];
  }

  lemma SumOfHeader(h: Header)
    ensures Sum(HeaderWords(h)) == h.sport + h.dport + W32(h.seqNum) + W32(h.ackNum) + h.flags + h.window + h.urgent
  {
    var tail := [h.flags, h.window, h.urgent];
    var mid := [h.seqNum / 0x1_0000, h.seqNum % 0x1_0000, h.ackNum / 0x1_0000, h.ackNum % 0x1_0000];
    assert HeaderWords(h) == [h.sport, h.dport] + (mid + tail);
    SumOfTwo(h.sport, h.dport, mid + tail);
    SumOfFour(h.seqNum / 0x1_0000, h.seqNum % 0x1_0000, h.ackNum / 0x1_0000, h.ackNum % 0x1_0000, tail);
    assert tail == [h.flags, h.window] + [h.urgent];
    SumOfTwo(h.flags, h.window, [h.urgent]);
    assert [h.urgent][1..] == [];
  }

  lemma SumOfTwo(a: U16, b: U16, rest: seq<U16>)
    ensures Sum([a, b] + rest) == a + b + Sum(rest)
  {
    var s := [a, b] + rest;
    assert s[1..][1..] == rest;
  }

  lemma SumOfFour(a: U16, b: U16, c: U16, d: U16, rest: seq<U16>)
    ensures Sum([a, b, c, d] + rest) == a + b + c + d + Sum(rest)
  {
    assert [a, b, c, d] + rest == [a, b] + ([c, d] + rest);
    SumOfTwo(a, b, [c, d] + rest);
    SumOfTwo(c, d, rest);
  }

  // ----- what each mode promises

  /** A plain or complete segment has an accepted checksum; a complete one also has the sum of its own
      words in skb->csum; a partial one has the pseudo-header sum in its field. */
  ghost predicate Consistent(s: Sums, h: Header, bytes: seq<U8>, n: nat)
    requires n <= |bytes| && n + 20 < 0x1_0000
  {
    && (s.mode == Partial ==> Same(s.check, PseudoSum(h, n)))
    && (s.mode != Partial ==> Accepted(TcpWords(h, bytes[..n]), s.check))
    && (s.mode == Complete ==> Same(s.csum, BodySum(h, bytes, n) + s.check))
  }

  /** dysco_inet_proto_csum_replace4. */
  function Repaired(s: Sums, from: U32, to: U32, pseudohdr: bool): Sums {
    if s.mode != Partial then
      Sums(s.mode, Replaced4(s.check, from, to),
           if s.mode == Complete && pseudohdr then ReplacedComplete(s.csum, from, to) else s.csum)
    else if pseudohdr then s.(check := ReplacedPartial(s.check, from, to))
    else s
  }

  /** Outside the pseudo-header a repair touches the field only. */
  lemma RepairOfBody(s: Sums, from: U32, to: U32)
    ensures Repaired(s, from, to, false)
            == if s.mode == Partial then s else s.(check := Adjusted(s.check, to as int - from as int))
  {
    Replaced4IsAdjusted(s.check, from, to);
  }

  /** A change of the segment's own words by diff, with the field adjusted unless the device fills it:
      the promise is kept, and was kept before. */
  lemma BodyChangeKeeps(s: Sums, h: Header, b: seq<U8>, h': Header, b': seq<U8>, n: nat, diff: int)
    requires n <= |b| == |b'| && n + 20 < 0x1_0000
    requires PseudoSum(h', n) == PseudoSum(h, n)
    requires Same(BodySum(h', b', n), BodySum(h, b, n) + diff)
    ensures var s' := if s.mode == Partial then s else s.(check := Adjusted(s.check, diff));
            && (Consistent(s', h', b', n) <==> Consistent(s, h, b, n))
            && (Consistent(s, h, b, n) && s.mode != Partial ==> s'.check == Recomputed(TcpWords(h', b'[..n])))
  {
    hide PseudoSum, BodySum, TcpWords, Recomputed, Adjusted, Accepted, Same;
    if s.mode != Partial {
      TcpWordsSum(h, b, n);
      TcpWordsSum(h', b', n);
      SameMoved(BodySum(h', b', n), BodySum(h, b, n) + diff, PseudoSum(h, n));
      RepairIsRecomputation(TcpWords(h, b[..n]), TcpWords(h', b'[..n]), s.check, diff);
      OwnSumStays(s.check, diff, BodySum(h, b, n), BodySum(h', b', n), s.csum);
    }
  }

  lemma OwnSumStays(check: U16, diff: int, body: int, body': int, csum: U32)
    requires Same(body', body + diff)
    ensures Same(csum, body' + Adjusted(check, diff)) <==> Same(csum, body + check)
  {
    AdjustedResidue(check, diff);
    hide Adjusted;
    SameTogether(body', body + diff, Adjusted(check, diff), check - diff);
  }

  /** A repair of the pseudo-header by to - from keeps the promise exactly when that is what the
      pseudo-header grew by. */
  lemma PseudoChangeKeeps(s: Sums, h: Header, b: seq<U8>, h': Header, n: nat, from: U32, to: U32)
    requires n <= |b| && n + 20 < 0x1_0000 && Consistent(s, h, b, n)
    requires BodySum(h', b, n) == BodySum(h, b, n)
    ensures var s' := Repaired(s, from, to, true);
            && (Consistent(s', h', b, n) <==> Same(PseudoSum(h', n), PseudoSum(h, n) + (to - from)))
            && (Consistent(s', h', b, n) && s.mode != Partial ==> s'.check == Recomputed(TcpWords(h', b[..n])))
  {
    hide PseudoSum, BodySum, TcpWords, Recomputed, Replaced4, ReplacedPartial, ReplacedComplete, Adjusted, Accepted, Same;
    if s.mode == Partial {
      PartialFollows(s.check, PseudoSum(h, n), PseudoSum(h', n), from, to);
    } else {
      TcpWordsSum(h, b, n);
      TcpWordsSum(h', b, n);
      Replaced4IsAdjusted(s.check, from, to);
      SameShift(PseudoSum(h', n), PseudoSum(h, n) + (to - from), BodySum(h, b, n));
      RepairIsRecomputation(TcpWords(h, b[..n]), TcpWords(h', b[..n]), s.check, to - from);
      if s.mode == Complete {
        OwnSumFollows(s.csum, s.check, from, to, BodySum(h, b, n));
      }
    }
  }

  lemma SameShift(a: int, b: int, c: int)
    ensures Same(a, b) <==> Same(a + c, b + c)
  {
    if Same(a, b) {
      SameMoved(a, b, c);
    }
    if Same(a + c, b + c) {
      SameMoved(a + c, b + c, 0 - c);
    }
  }

  lemma PartialFollows(check: U16, pseudo: int, pseudo': int, from: U32, to: U32)
    requires Same(check, pseudo)
    ensures Same(ReplacedPartial(check, from, to), pseudo') <==> Same(pseudo', pseudo + (to - from))
  {
    PartialResidue(check, from, to);
    hide ReplacedPartial;
    SameMoved(check, pseudo, to - from);
  }

  lemma OwnSumFollows(csum: U32, check: U16, from: U32, to: U32, body: int)
    requires Same(csum, body + check)
    ensures Same(ReplacedComplete(csum, from, to), body + Adjusted(check, to - from))
  {
    CompleteResidue(csum, from, to);
    AdjustedResidue(check, to - from);
    hide Adjusted, ReplacedComplete;
    SameMoved(csum, body + check, from - to);
    SameMoved(Adjusted(check, to - from), check - (to - from), body);
  }

  // ----- sequences of replacements

  datatype Replacement = Replacement(from: U32, to: U32, pseudohdr: bool)

  function RepairedBy(s: Sums, reps: seq<Replacement>): Sums {
    if reps == [] then s
    else
      var last := reps[|reps| - 1];
      Repaired(RepairedBy(s, reps[..|reps| - 1]), last.from, last.to, last.pseudohdr)
  }

  function Grown(reps: seq<Replacement>, pseudohdr: bool): int {
    if reps == [] then 0
    else
      var last := reps[|reps| - 1];
      Grown(reps[..|reps| - 1], pseudohdr) + if last.pseudohdr == pseudohdr then last.to - last.from else 0
  }

  lemma {:induction false} FullChecksumMoves(s: Sums, reps: seq<Replacement>)
    requires s.mode != Partial
    ensures var r := RepairedBy(s, reps);
            r.mode == s.mode && Same(r.check + Grown(reps, true) + Grown(reps, false), s.check)
  {
    if reps != [] {
      var n := |reps| - 1;
      FullChecksumMoves(s, reps[..n]);
      var b, last := RepairedBy(s, reps[..n]), reps[n];
      var grown := Grown(reps[..n], true) + Grown(reps[..n], false);
      assert Grown(reps, true) + Grown(reps, false) == grown + (last.to - last.from);
      FullChecksumStep(b.check, last.from, last.to, grown);
    }
  }

  lemma FullChecksumStep(check: U16, from: U32, to: U32, grown: int)
    ensures Same(Replaced4(check, from, to) + (grown + (to - from)), check + grown)
  {
    Replaced4IsAdjusted(check, from, to);
    AdjustedResidue(check, to - from);
    SameMoved(Adjusted(check, to - from), check - (to - from), grown + (to - from));
  }

  lemma {:induction false} PartialFieldMoves(s: Sums, reps: seq<Replacement>)
    requires s.mode == Partial
    ensures var r := RepairedBy(s, reps);
            r.mode == s.mode && Same(r.check - Grown(reps, true), s.check)
  {
    if reps != [] {
      var n := |reps| - 1;
      PartialFieldMoves(s, reps[..n]);
      var b, last := RepairedBy(s, reps[..n]), reps[n];
      PartialResidue(b.check, last.from, last.to);
      SameMoved(ReplacedPartial(b.check, last.from, last.to), b.check + last.to - last.from, 0 - Grown(reps, true));
    }
  }

  lemma {:induction false} CompleteSumMoves(s: Sums, reps: seq<Replacement>)
    requires s.mode == Complete
    ensures var r := RepairedBy(s, reps);
            r.mode == s.mode && Same(r.csum + Grown(reps, true), s.csum)
  {
    if reps != [] {
      var n := |reps| - 1;
      CompleteSumMoves(s, reps[..n]);
      var b, last := RepairedBy(s, reps[..n]), reps[n];
      CompleteResidue(b.csum, last.from, last.to);
      SameMoved(ReplacedComplete(b.csum, last.from, last.to), b.csum + last.from - last.to, Grown(reps, true));
    }
  }

  /** Over any sequence of replacements a full checksum moves against everything replaced, a partial
      field follows the pseudo-header alone, and skb->csum moves against the pseudo-header alone,
      because the field makes up for the rest. */
  lemma SumsMove(s: Sums, reps: seq<Replacement>)
    ensures var r := RepairedBy(s, reps);
            && r.mode == s.mode
            && (s.mode != Partial ==> Same(r.check + Grown(reps, true) + Grown(reps, false), s.check))
            && (s.mode == Partial ==> Same(r.check - Grown(reps, true), s.check))
            && (s.mode == Complete ==> Same(r.csum + Grown(reps, true), s.csum))
  {
    if s.mode == Partial {
      PartialFieldMoves(s, reps);
    } else {
      FullChecksumMoves(s, reps);
      if s.mode == Complete {
        CompleteSumMoves(s, reps);
      }
    }
  }

  // ----- how far the checksums are from what they promise

  /** Zero (modulo 65535) when the promise is kept: all words with the field, the segment's own words
      and the field less skb->csum, and the pseudo-header less a field that the device completes. */
  datatype Gap = Gap(full: int, own: int, partial: int)

  function GapOf(s: Sums, h: Header, bytes: seq<U8>, n: nat): Gap
    requires n <= |bytes|
  {
    var pseudo, body := PseudoSum(h, n), BodySum(h, bytes, n);
    Gap(pseudo + body + s.check, body + s.check - s.csum, pseudo - s.check)
  }

  predicate Closed(mode: Mode, g: Gap) {
    if mode == Partial then Same(g.partial, 0) else Same(g.full, 0) && (mode == Complete ==> Same(g.own, 0))
  }

  /** The gap of the own words grew by body and that of the pseudo-header by pseudo. */
  predicate Drifts(mode: Mode, g: Gap, g': Gap, body: int, pseudo: int) {
    if mode == Partial then Same(g'.partial, g.partial + pseudo)
    else Same(g'.full, g.full + (body + pseudo)) && (mode == Complete ==> Same(g'.own, g.own + body))
  }

  lemma ConsistentIsClosed(s: Sums, h: Header, b: seq<U8>, n: nat)
    requires n <= |b| && n + 20 < 0x1_0000
    ensures Consistent(s, h, b, n) <==> Closed(s.mode, GapOf(s, h, b, n))
  {
    hide PseudoSum, BodySum, TcpWords, Accepted, Same;
    var pseudo, body := PseudoSum(h, n), BodySum(h, b, n);
    TcpWordsSum(h, b, n);
    ByResidue(TcpWords(h, b[..n]), s.check);
    DifferenceZero(pseudo, s.check);
    DifferenceZero(body + s.check, s.csum);
  }

  lemma DifferenceZero(a: int, b: int)
    ensures Same(b, a) <==> Same(a - b, 0)
  {
    SameShift(a - b, 0, b);
  }

  /** Good checksums that drift stay good exactly when nothing remains of the drift where the mode
      looks. */
  lemma DriftDecides(mode: Mode, g: Gap, g': Gap, body: int, pseudo: int)
    requires Drifts(mode, g, g', body, pseudo) && Closed(mode, g)
    ensures Closed(mode, g') <==> if mode == Partial then Same(pseudo, 0)
                                  else Same(body + pseudo, 0) && (mode == Complete ==> Same(body, 0))
  {
    hide Same;
    if mode == Partial {
      DriftOfZero(g.partial, g'.partial, pseudo);
    } else {
      DriftOfZero(g.full, g'.full, body + pseudo);
      if mode == Complete {
        DriftOfZero(g.own, g'.own, body);
      }
    }
  }

  lemma DriftOfZero(a: int, b: int, d: int)
    requires Same(a, 0) && Same(b, a + d)
    ensures Same(b, 0) <==> Same(d, 0)
  {
    SameMoved(a, 0, d);
  }

  lemma NoDrift(mode: Mode, g: Gap, g': Gap)
    requires Drifts(mode, g, g', 0, 0)
    ensures Closed(mode, g') <==> Closed(mode, g)
  {
  }

  lemma DriftsTogether(mode: Mode, g: Gap, g': Gap, g'': Gap, body: int, pseudo: int, body': int, pseudo': int)
    requires Drifts(mode, g, g', body, pseudo) && Drifts(mode, g', g'', body', pseudo')
    ensures Drifts(mode, g, g'', body + body', pseudo + pseudo')
  {
    hide Same;
    if mode == Partial {
      SameOneMore(g.partial, g'.partial, g''.partial, pseudo, pseudo');
    } else {
      SameOneMore(g.full, g'.full, g''.full, body + pseudo, body' + pseudo');
      if mode == Complete {
        SameOneMore(g.own, g'.own, g''.own, body, body');
      }
    }
  }

  lemma SameOneMore(a: int, b: int, c: int, d: int, e: int)
    requires Same(b, a + d) && Same(c, b + e)
    ensures Same(c, a + (d + e))
  {
    SameMoved(b, a + d, e);
  }

  /** Words that change with no repair. */
  lemma WordsDrift(s: Sums, h: Header, b: seq<U8>, h': Header, b': seq<U8>, n: nat, body: int, pseudo: int)
    requires n <= |b| && n <= |b'|
    requires Same(PseudoSum(h', n), PseudoSum(h, n) + pseudo) && Same(BodySum(h', b', n), BodySum(h, b, n) + body)
    ensures Drifts(s.mode, GapOf(s, h, b, n), GapOf(s, h', b', n), body, pseudo)
  {
    var p, p', q, q' := PseudoSum(h, n), PseudoSum(h', n), BodySum(h, b, n), BodySum(h', b', n);
    hide Same, PseudoSum, BodySum;
    SameTogether(p', p + pseudo, q', q + body);
    SameMoved(p' + q', p + pseudo + (q + body), s.check);
    SameMoved(q', q + body, s.check - s.csum);
    SameMoved(p', p + pseudo, 0 - s.check);
  }

  /** Repairs with no change of words. */
  lemma RepairsDrift(s: Sums, reps: seq<Replacement>, h: Header, b: seq<U8>, n: nat)
    requires n <= |b|
    ensures Drifts(s.mode, GapOf(s, h, b, n), GapOf(RepairedBy(s, reps), h, b, n),
                   0 - Grown(reps, false), 0 - Grown(reps, true))
  {
    var r := RepairedBy(s, reps);
    SumsMove(s, reps);
    hide Same, PseudoSum, BodySum, RepairedBy, Grown;
    var p, q, t, f := PseudoSum(h, n), BodySum(h, b, n), Grown(reps, true), Grown(reps, false);
    if s.mode == Partial {
      SameOpposite(r.check - t, s.check, p - r.check, p - s.check + (0 - t), p - t);
    } else {
      SameAcross(r.check + t + f, s.check, p + q + r.check, p + q + s.check + (0 - f + (0 - t)), p + q - t - f);
      if s.mode == Complete {
        SameTogether(r.check + t + f, s.check, r.csum + t, s.csum);
        SameAcross(r.check + t + f - (r.csum + t), s.check - s.csum, q + r.check - r.csum,
                   q + s.check - s.csum + (0 - f), q - f);
      }
    }
  }

  /** A congruence read off another one with c added to both sides. */
  lemma SameAcross(a: int, b: int, a': int, b': int, c: int)
    requires Same(a, b) && a' == a + c && b' == b + c
    ensures Same(a', b')
  {
    SameMoved(a, b, c);
  }

  /** The same with both sides taken from c. */
  lemma SameOpposite(a: int, b: int, a': int, b': int, c: int)
    requires Same(a, b) && a' == c - a && b' == c - b
    ensures Same(a', b')
  {
    SameMoved(a, b, c);
  }

  /** Each mode keeps its meaning over any sequence of replacements: if the pseudo-header's words changed
      by pseudo and the segment's own by body more than what was replaced, checksums that kept their
      promise keep it exactly when the mode cannot see the excess, and in particular when there is none. */
  lemma ModesKeepTheirMeaning(s: Sums, reps: seq<Replacement>, h: Header, b: seq<U8>, h': Header, b': seq<U8>, n: nat,
                              body: int, pseudo: int)
    requires n <= |b| && n <= |b'| && n + 20 < 0x1_0000 && Consistent(s, h, b, n)
    requires Same(PseudoSum(h', n), PseudoSum(h, n) + (Grown(reps, true) + pseudo))
    requires Same(BodySum(h', b', n), BodySum(h, b, n) + (Grown(reps, false) + body))
    ensures Consistent(RepairedBy(s, reps), h', b', n)
            <==> if s.mode == Partial then Same(pseudo, 0)
                 else Same(body + pseudo, 0) && (s.mode == Complete ==> Same(body, 0))
  {
    var r := RepairedBy(s, reps);
    SumsMove(s, reps);
    ConsistentIsClosed(s, h, b, n);
    ConsistentIsClosed(r, h', b', n);
    hide Same, PseudoSum, BodySum, RepairedBy, Grown, Drifts, Closed, GapOf;
    RepairsDrift(s, reps, h, b, n);
    WordsDrift(r, h, b, h', b', n, Grown(reps, false) + body, Grown(reps, true) + pseudo);
    DriftsTogether(s.mode, GapOf(s, h, b, n), GapOf(r, h, b, n), GapOf(r, h', b', n),
                   0 - Grown(reps, false), 0 - Grown(reps, true), Grown(reps, false) + body, Grown(reps, true) + pseudo);
    DriftDecides(s.mode, GapOf(s, h, b, n), GapOf(r, h', b', n), body, pseudo);
  }

  /** The field adjusted by diff, unless the device fills it in. */
  function AdjustedSums(s: Sums, diff: int): Sums {
    if s.mode == Partial then s else s.(check := Adjusted(s.check, diff))
  }

  /** A change of the segment's own words beside an adjustment: what remains is the error. */
  lemma AdjustmentDrifts(s: Sums, h: Header, b: seq<U8>, h': Header, b': seq<U8>, n: nat, diff: int, error: int)
    requires n <= |b| && n <= |b'| && PseudoSum(h', n) == PseudoSum(h, n)
    requires Same(BodySum(h', b', n), BodySum(h, b, n) + (diff + error))
    ensures Drifts(s.mode, GapOf(s, h, b, n), GapOf(AdjustedSums(s, diff), h', b', n), error, 0)
  {
    var p, q, q', c := PseudoSum(h, n), BodySum(h, b, n), BodySum(h', b', n), Adjusted(s.check, diff);
    AdjustedResidue(s.check, diff);
    hide Same, PseudoSum, BodySum, Adjusted;
    if s.mode == Partial {
      SameMoved(p, p, 0 - s.check);
    } else {
      SameTogether(q', q + (diff + error), c, s.check - diff);
      SameAcross(q' + c, q + (diff + error) + (s.check - diff), p + q' + c, p + q + s.check + (error + 0), p);
      SameAcross(q' + c, q + (diff + error) + (s.check - diff), q' + c - s.csum, q + s.check - s.csum + error, 0 - s.csum);
    }
  }

  // ----- the field itself

  /** A field that was repaired is never minus zero. */
  predicate Reduced(s: Sums) {
    s.mode != Partial ==> s.check < M
  }

  /** The field is the one computed from scratch, unless the device fills it in. */
  ghost predicate IsExact(s: Sums, h: Header, bytes: seq<U8>, n: nat)
    requires n <= |bytes| && n + 20 < 0x1_0000
  {
    s.mode != Partial ==> s.check == Recomputed(TcpWords(h, bytes[..n]))
  }

  lemma RepairReduces(s: Sums, from: U32, to: U32, pseudohdr: bool)
    ensures Reduced(Repaired(s, from, to, pseudohdr))
  {
    Replaced4IsAdjusted(s.check, from, to);
    hide Replaced4, ReplacedPartial, ReplacedComplete, Adjusted;
  }

  /** A good field is exact if and only if it is not minus zero. */
  lemma ExactIsReduced(s: Sums, h: Header, b: seq<U8>, n: nat)
    requires n <= |b| && n + 20 < 0x1_0000 && Consistent(s, h, b, n)
    ensures IsExact(s, h, b, n) <==> Reduced(s)
  {
    hide TcpWords, Accepted, Recomputed, Same;
    if s.mode != Partial {
      var words := TcpWords(h, b[..n]);
      TcpWordsSum(h, b, n);
      ByResidue(words, s.check);
      if s.check < M {
        OnlyField(s.check, Sum(words));
      }
    }
  }

  /** What a drift means for a segment: without one, good checksums stay good and bad ones bad; with
      one, good ones stay good exactly when the mode cannot see it. */
  lemma DriftedChecksums(s: Sums, h: Header, b: seq<U8>, s': Sums, h': Header, b': seq<U8>, n: nat, body: int, pseudo: int)
    requires n <= |b| && n <= |b'| && n + 20 < 0x1_0000 && s'.mode == s.mode
    requires Drifts(s.mode, GapOf(s, h, b, n), GapOf(s', h', b', n), body, pseudo)
    ensures body == pseudo == 0 ==> (Consistent(s', h', b', n) <==> Consistent(s, h, b, n))
    ensures Consistent(s, h, b, n) ==>
              (Consistent(s', h', b', n) <==> if s.mode == Partial then Same(pseudo, 0)
                                              else Same(body + pseudo, 0) && (s.mode == Complete ==> Same(body, 0)))
  {
    hide Same, GapOf, Drifts, Closed, Consistent;
    ConsistentIsClosed(s, h, b, n);
    ConsistentIsClosed(s', h', b', n);
    if body == pseudo == 0 {
      NoDrift(s.mode, GapOf(s, h, b, n), GapOf(s', h', b', n));
    }
    if Consistent(s, h, b, n) {
      DriftDecides(s.mode, GapOf(s, h, b, n), GapOf(s', h', b', n), body, pseudo);
    }
  }

  /** One repair beside the change of the words it is for: what remains is the error of the repair. */
  lemma RepairDrifts(s: Sums, h: Header, b: seq<U8>, h': Header, b': seq<U8>, n: nat, from: U32, to: U32,
                     pseudohdr: bool, error: int)
    requires n <= |b| && n <= |b'|
    requires Same(PseudoSum(h', n), PseudoSum(h, n) + if pseudohdr then to - from + error else 0)
    requires Same(BodySum(h', b', n), BodySum(h, b, n) + if pseudohdr then 0 else to - from + error)
    ensures var s' := Repaired(s, from, to, pseudohdr);
            && s'.mode == s.mode
            && Drifts(s.mode, GapOf(s, h, b, n), GapOf(s', h', b', n),
                      if pseudohdr then 0 else error, if pseudohdr then error else 0)
  {
    var reps := [Replacement(from, to, pseudohdr)];
    var s', d := Repaired(s, from, to, pseudohdr), to as int - from as int;
    var body, pseudo := if pseudohdr then 0 else d, if pseudohdr then d else 0;
    OneReplacement(s, from, to, pseudohdr);
    hide Same, PseudoSum, BodySum, RepairedBy, Grown, Drifts, GapOf, Repaired;
    RepairsDrift(s, reps, h, b, n);
    WordsDrift(s', h, b, h', b', n, if pseudohdr then 0 else d + error, if pseudohdr then d + error else 0);
    DriftsTogether(s.mode, GapOf(s, h, b, n), GapOf(s', h, b, n), GapOf(s', h', b', n),
                   0 - body, 0 - pseudo, if pseudohdr then 0 else d + error, if pseudohdr then d + error else 0);
  }

  lemma OneReplacement(s: Sums, from: U32, to: U32, pseudohdr: bool)
    ensures var reps, d := [Replacement(from, to, pseudohdr)], to as int - from as int;
            && RepairedBy(s, reps) == Repaired(s, from, to, pseudohdr) && Repaired(s, from, to, pseudohdr).mode == s.mode
            && Grown(reps, pseudohdr) == d && Grown(reps, !pseudohdr) == 0
  {
    hide Repaired;
    var reps := [Replacement(from, to, pseudohdr)];
    assert reps[..0] == [];
    assert RepairedBy(s, reps[..0]) == s && Grown(reps[..0], true) == 0 && Grown(reps[..0], false) == 0;
    SumsMove(s, reps);
  }
}
