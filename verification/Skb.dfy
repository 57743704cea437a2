/** The socket buffer: option walkers that advance a pointer over the bytes, and the rewriting of one
    segment in place, on output and on input. */
module Skb {
  import opened Serial
  import opened Translation
  import opened Checksum
  import opened Options
  import opened Packet

  predicate IsTimestamp(o: Opt) {
    o.kind == TIMESTAMP && o.size == 10
  }

  /** Where the value of the first timestamp option starts, or -1. */
  function TsPosition(opts: seq<Opt>): int {
    if opts == [] then -1 else if IsTimestamp(opts[0]) then opts[0].pos + 2 else TsPosition(opts[1..])
  }

  lemma {:induction false} TsPositionIsFirst(opts: seq<Opt>) returns (i: nat)
    ensures i <= |opts| && forall j :: 0 <= j < i ==> !IsTimestamp(opts[j])
    ensures if i < |opts| then IsTimestamp(opts[i]) && TsPosition(opts) == opts[i].pos + 2 else TsPosition(opts) == -1
  {
    if opts == [] || IsTimestamp(opts[0]) {
      i := 0;
    } else {
      var k := TsPositionIsFirst(opts[1..]);
      i := k + 1;
      forall j | 0 <= j < i
        ensures !IsTimestamp(opts[j])
      {
        assert j > 0 ==> opts[j] == opts[1..][j - 1];
      }
    }
  }

  /** What the SYN parsers keep: the last well-formed option of each kind. */
  datatype SynOptions = SynOptions(sackOk: bool, wsOk: bool, ws: U8, tsOk: bool, ts: U32, tsr: U32)

  function Parse1(buf: seq<U8>, o: Opt, isAck: bool, st: SynOptions): SynOptions
    requires o.pos + o.size <= |buf|
  {
    if o.kind == WINDOW && o.size == 3 then
      st.(wsOk := true, ws := if buf[o.pos + 2] > 14 then 14 else buf[o.pos + 2])
    else if o.kind == TIMESTAMP && o.size == 10 && isAck then
      st.(tsOk := true, ts := Get32(buf, o.pos + 2), tsr := Get32(buf, o.pos + 6))
    else if o.kind == SACK_PERM && o.size == 2 then st.(sackOk := true)
    else st
  }

  function ParseAll(buf: seq<U8>, opts: seq<Opt>, isAck: bool, st: SynOptions): SynOptions
    requires forall i :: 0 <= i < |opts| ==> opts[i].pos + opts[i].size <= |buf|
  {
    if opts == [] then st else ParseAll(buf, opts[1..], isAck, Parse1(buf, opts[0], isAck, st))
  }

  lemma ParseInFront(buf: seq<U8>, opts: seq<Opt>, isAck: bool, st: SynOptions)
    requires forall i :: 0 <= i < |opts| ==> opts[i].pos + opts[i].size <= |buf|
    ensures ParseAll(buf, opts, isAck, st)
            == if opts == [] then st else ParseAll(buf, opts[1..], isAck, Parse1(buf, opts[0], isAck, st))
  {
  }

  predicate IsWindowScale(o: Opt) {
    o.kind == WINDOW && o.size == 3
  }

  predicate IsSackPermitted(o: Opt) {
    o.kind == SACK_PERM && o.size == 2
  }

  /** The number of the last option that satisfies p, or -1. */
  function LastOf(opts: seq<Opt>, p: Opt -> bool): (k: int)
    ensures -1 <= k < |opts| && (k >= 0 ==> p(opts[k])) && forall i :: k < i < |opts| ==> !p(opts[i])
  {
    if opts == [] then -1
    else if p(opts[|opts| - 1]) then |opts| - 1
    else LastOf(opts[..|opts| - 1], p)
  }

  lemma {:induction false} ParseLast(buf: seq<U8>, opts: seq<Opt>, o: Opt, isAck: bool, st: SynOptions)
    requires forall i :: 0 <= i < |opts| ==> opts[i].pos + opts[i].size <= |buf|
    requires o.pos + o.size <= |buf|
    ensures forall i :: 0 <= i < |opts + [o]| ==> (opts + [o])[i].pos + (opts + [o])[i].size <= |buf|
    ensures ParseAll(buf, opts + [o], isAck, st) == Parse1(buf, o, isAck, ParseAll(buf, opts, isAck, st))
  {
    hide Parse1;
    if opts == [] {
      assert opts + [o] == [o];
      assert [o][1..] == [];
    } else {
      assert (opts + [o])[1..] == opts[1..] + [o];
      ParseLast(buf, opts[1..], o, isAck, Parse1(buf, opts[0], isAck, st));
    }
  }

  ghost predicate SackWins(opts: seq<Opt>, st: SynOptions, r: SynOptions) {
    r.sackOk == (st.sackOk || LastOf(opts, IsSackPermitted) >= 0)
  }

  ghost predicate ScaleWins(buf: seq<U8>, opts: seq<Opt>, st: SynOptions, r: SynOptions)
    requires forall i :: 0 <= i < |opts| ==> opts[i].pos + opts[i].size <= |buf|
  {
    var w := LastOf(opts, IsWindowScale);
    if w < 0 then r.wsOk == st.wsOk && r.ws == st.ws
    else r.wsOk && r.ws == if buf[opts[w].pos + 2] > 14 then 14 else buf[opts[w].pos + 2]
  }

  ghost predicate TimestampWins(buf: seq<U8>, opts: seq<Opt>, isAck: bool, st: SynOptions, r: SynOptions)
    requires forall i :: 0 <= i < |opts| ==> opts[i].pos + opts[i].size <= |buf|
  {
    var t := LastOf(opts, IsTimestamp);
    if t < 0 || !isAck then r.tsOk == st.tsOk && r.ts == st.ts && r.tsr == st.tsr
    else r.tsOk && r.ts == Get32(buf, opts[t].pos + 2) && r.tsr == Get32(buf, opts[t].pos + 6)
  }

  lemma OneMoreWins(buf: seq<U8>, opts: seq<Opt>, isAck: bool, st: SynOptions, r: SynOptions)
    requires opts != [] && forall i :: 0 <= i < |opts| ==> opts[i].pos + opts[i].size <= |buf|
    ensures var n := |opts| - 1;
            var r' := Parse1(buf, opts[n], isAck, r);
            && (SackWins(opts[..n], st, r) ==> SackWins(opts, st, r'))
            && (ScaleWins(buf, opts[..n], st, r) ==> ScaleWins(buf, opts, st, r'))
            && (TimestampWins(buf, opts[..n], isAck, st, r) ==> TimestampWins(buf, opts, isAck, st, r'))
  {
    hide Get32;
  }

  /** What the parsers keep of each kind is what its last well-formed option says, the scale cut at 14;
      timestamps count in a SYN+ACK only; without such an option the old values stay. */
  lemma {:induction false} LastOptionWins(buf: seq<U8>, opts: seq<Opt>, isAck: bool, st: SynOptions)
    requires forall i :: 0 <= i < |opts| ==> opts[i].pos + opts[i].size <= |buf|
    ensures var r := ParseAll(buf, opts, isAck, st);
            SackWins(opts, st, r) && ScaleWins(buf, opts, st, r) && TimestampWins(buf, opts, isAck, st, r)
  {
    if opts != [] {
      var n := |opts| - 1;
      assert opts == opts[..n] + [opts[n]];
      hide ParseAll, Parse1, SackWins, ScaleWins, TimestampWins;
      LastOptionWins(buf, opts[..n], isAck, st);
      ParseLast(buf, opts[..n], opts[n], isAck, st);
      OneMoreWins(buf, opts, isAck, st, ParseAll(buf, opts[..n], isAck, st));
    }
  }

  /** The addition or subtraction on one edge; no test for a zero delta here. */
  function MovedBy(d: Delta, x: U32): (r: U32)
    ensures r == Apply(d, x)
  {
    if d.add then Wrap(x + d.mag) else Wrap(x - d.mag)
  }

  /** The checksum field after the edges grew together by growth. */
  function SackChecked(mode: Mode, check: U16, edges: seq<nat>, growth: int): U16 {
    if mode == Partial || edges == [] then check else Adjusted(check, growth)
  }

  lemma NothingToRepair(mode: Mode, check: U16, edges: seq<nat>, growth: int)
    requires mode == Partial || edges == []
    ensures SackChecked(mode, check, edges, growth) == check
  {
  }

  /** One repair with the folded sums does what the repairs edge by edge do. */
  lemma BatchedRepair(mode: Mode, check: U16, edges: seq<nat>, from64: nat, to64: nat, from: U32, to: U32)
    requires mode != Partial && edges != []
    requires Same(from, from64) && Same(to, to64)
    ensures Adjusted(check, to as int - from as int) == SackChecked(mode, check, edges, to64 - from64)
  {
    SameTogether(to, to64, from, from64);
    SameAdjusts(check, to as int - from as int, to64 - from64);
  }

  lemma CheckedOneMore(mode: Mode, check0: U16, done: seq<nat>, e: nat, growth: int, diff: int)
    requires done == [] ==> growth == 0
    ensures SackChecked(mode, check0, done + [e], growth + diff)
            == if mode == Partial then SackChecked(mode, check0, done, growth)
               else Adjusted(SackChecked(mode, check0, done, growth), diff)
  {
    AdjustedAdds(check0, growth, diff);
  }

  /** What dysco_tcp_sack_csum leaves in the field. */
  function BatchChecked(mode: Mode, check: U16, edges: seq<nat>, growth: int, ending: Ending): U16 {
    if ending != AtEnd then check else SackChecked(mode, check, edges, growth)
  }

  lemma BatchedAgreesWhen(mode: Mode, check: U16, edges: seq<nat>, growth: int, ending: Ending)
    ensures BatchChecked(mode, check, edges, growth, ending) == SackChecked(mode, check, edges, growth)
            <==> ending == AtEnd || mode == Partial || edges == [] || (Same(growth, 0) && check != 0xFFFF)
  {
    if ending != AtEnd && mode != Partial && edges != [] {
      if Same(growth, 0) && check < M {
        SameAdjusts(check, growth, 0);
      }
      if Adjusted(check, growth) == check {
        AdjustedResidue(check, growth);
        SameMoved(check, check - growth, check);
      }
    }
  }

  /** The fields that the walk edge by edge and the batched walk leave for a segment with these bytes. */
  ghost function FieldsLeft(mode: Mode, check: U16, buf: seq<U8>, end: int, d: Delta): (U16, U16)
    requires 0 < end ==> end < |buf|
  {
    EdgesApart(buf, 0, end);
    var opts := Decode(buf, 0, end);
    var edges := Edges(opts.0);
    var growth := Growth(buf, edges, d);
    (SackChecked(mode, check, edges, growth), BatchChecked(mode, check, edges, growth, opts.1))
  }

  /** The two walks leave the same field exactly when no bytes are left where the option list ends, when
      nothing is to be repaired, or when the repair changes nothing. */
  lemma BatchedAgrees(mode: Mode, check: U16, buf: seq<U8>, end: int, d: Delta)
    requires 0 < end ==> end < |buf|
    ensures var opts := Decode(buf, 0, end);
            && Apart(Edges(opts.0), 0, |buf|)
            && (FieldsLeft(mode, check, buf, end, d).0 == FieldsLeft(mode, check, buf, end, d).1
                <==> opts.1 == AtEnd || mode == Partial || Edges(opts.0) == []
                     || (Same(Growth(buf, Edges(opts.0), d), 0) && check != 0xFFFF))
  {
    EdgesApart(buf, 0, end);
    hide Decode, Edges, Growth, SackChecked, BatchChecked, Same;
    var opts := Decode(buf, 0, end);
    BatchedAgreesWhen(mode, check, Edges(opts.0), Growth(buf, Edges(opts.0), d), opts.1);
  }

  /** One SACK block, closed by the end-of-list byte and padding, moved by one: the batched walk leaves
      the old field. */
  lemma BatchedSkipsRepair(block: seq<U8>, rest: seq<U8>)
    requires |block| == 8 && rest != []
    requires Get32(block, 0) < 0xFFFF_FFFF && Get32(block, 4) < 0xFFFF_FFFF
    ensures FieldsLeft(Plain, 0, [SACK, 10] + block + [EOL, EOL] + rest, 12, Delta(1, true)) == (0xFFFD, 0)
  {
    hide *;
    var buf, d := [SACK, 10] + block + [EOL, EOL] + rest, Delta(1, true);
    BlockDecoded(buf);
    SameBytes(block, buf, 0, 2);
    SameBytes(block, buf, 4, 6);
    BlockFields(buf, d);
  }

  lemma BlockDecoded(buf: seq<U8>)
    requires |buf| > 12 && buf[0] == SACK && buf[1] == 10 && buf[10] == EOL
    ensures Decode(buf, 0, 12) == ([Opt(SACK, 0, 10)], AtEol)
  {
    DecodeOption(buf, 0, 12);
    DecodeOther(buf, 10, 12);
    hide Decode;
    assert Decode(buf, 0, 12).0 == [Opt(SACK, 0, 10)];
  }

  lemma BlockFields(buf: seq<U8>, d: Delta)
    requires |buf| > 12 && Decode(buf, 0, 12) == ([Opt(SACK, 0, 10)], AtEol) && d == Delta(1, true)
    requires Get32(buf, 2) < 0xFFFF_FFFF && Get32(buf, 6) < 0xFFFF_FFFF
    ensures FieldsLeft(Plain, 0, buf, 12, d) == (0xFFFD, 0)
  {
    hide Decode, Edges, Apply, Get32, Growth, SackChecked;
    EdgesApart(buf, 0, 12);
    BlockEdges();
    BlockGrowth(buf, d);
    FieldOfBlock();
  }

  lemma FieldOfBlock()
    ensures SackChecked(Plain, 0, [2, 6], 2) == 0xFFFD
  {
  }

  lemma BlockEdges()
    ensures Edges([Opt(SACK, 0, 10)]) == [2, 6]
  {
    var o := Opt(SACK, 0, 10);
    assert [o][1..] == [];
    SpanGrows(2, 0);
    SpanGrows(2, 1);
    assert Span(2, 2) == [2, 6];
  }

  lemma SameBytes(a: seq<U8>, b: seq<U8>, p: nat, q: nat)
    requires p + 4 <= |a| && q + 4 <= |b|
    requires a[p] == b[q] && a[p + 1] == b[q + 1] && a[p + 2] == b[q + 2] && a[p + 3] == b[q + 3]
    ensures Get32(a, p) == Get32(b, q)
  {
  }

  lemma BlockGrowth(buf: seq<U8>, d: Delta)
    requires |buf| >= 10 && d == Delta(1, true) && Get32(buf, 2) < 0xFFFF_FFFF && Get32(buf, 6) < 0xFFFF_FFFF
    ensures Apart([2, 6], 0, |buf|) && Growth(buf, [2, 6], d) == 2
  {
    assert [2, 6][..1] == [2];
    assert [2][..0] == [];
    assert Growth(buf, [2], d) == 1;
  }

  /** The edges done and the edges to come are all edges. */
  ghost predicate SplitInto(all: seq<nat>, done: seq<nat>, rest: seq<nat>) {
    all == done + rest
  }

  lemma NothingDoneYet(all: seq<nat>)
    ensures SplitInto(all, [], all)
  {
  }

  lemma OneOptionDone(all: seq<nat>, done: seq<nat>, own: seq<nat>, rest: seq<nat>, after: seq<nat>)
    requires SplitInto(all, done, rest) && rest == own + after
    ensures SplitInto(all, done + own, after)
  {
  }

  lemma AllDone(all: seq<nat>, done: seq<nat>, rest: seq<nat>)
    requires SplitInto(all, done, rest)
    ensures rest == [] ==> all == done
  {
  }

  /** The positions of the edges inside one option. */
  function OwnEdges(opcode: U8, opsize: U8, ptr: nat): seq<nat> {
    if opcode == SACK && opsize >= 10 && (opsize - 2) % 8 == 0 then Span(ptr + 2, (opsize - 2) / 4) else []
  }

  lemma OwnEdgesInFront(buf: seq<U8>, ptr: nat, end: int)
    requires ptr < end < |buf| && buf[ptr] != EOL && buf[ptr] != NOP && 2 <= buf[ptr + 1] <= end - ptr
    ensures var size := buf[ptr + 1];
            Edges(Decode(buf, ptr, end).0) == OwnEdges(buf[ptr], size, ptr) + Edges(Decode(buf, ptr + size, end).0)
  {
    EdgesInFront(buf, ptr, end);
    hide Edges, Decode, Span;
    assert [] + Edges(Decode(buf, ptr + buf[ptr + 1], end).0) == Edges(Decode(buf, ptr + buf[ptr + 1], end).0);
  }

  class Skb {
    /** Bytes from the TCP options on: options, payload and the room behind them. */
    const data: array<U8>
    const optLen: int
    const segLen: nat
    const ipRest: seq<U16>

    var saddr: U32
    var daddr: U32
    var sport: U16
    var dport: U16
    var seqNum: U32
    var ackNum: U32
    var flags: U16
    var window: U16
    var urgent: U16
    var check: U16
    var ipCheck: U16
    var mode: Mode
    var csum: U32

    /** Four bits of data offset bound the options; one byte behind them exists. */
    ghost predicate Sane()
      reads this
    {
      -20 <= optLen <= 40 && (0 < optLen ==> optLen < data.Length) && segLen <= data.Length && segLen + 20 < 0x1_0000
    }

    /** The data offset does not point past the end of the segment. */
    predicate Whole()
      reads this
    {
      optLen <= segLen
    }

    ghost function Hdr(): Header
      reads this
    {
      Header(saddr, daddr, sport, dport, seqNum, ackNum, flags, window, urgent)
    }

    ghost function Sum(): Sums
      reads this
    {
      Sums(mode, check, csum)
    }

    ghost predicate Good()
      requires Sane()
      reads this, data
    {
      Consistent(Sum(), Hdr(), data[..], segLen)
    }

    /** How far the checksums are from that. */
    ghost function Gap(): Gap
      requires Sane()
      reads this, data
    {
      GapOf(Sum(), Hdr(), data[..], segLen)
    }

    /** The field is the one computed from scratch, unless the device fills it in. */
    ghost predicate Exact()
      requires Sane()
      reads this, data
    {
      IsExact(Sum(), Hdr(), data[..], segLen)
    }

    /** The IP header's own checksum is accepted; its other words (version, length, protocol, ...) are
        not all zero. */
    ghost predicate IpGood()
      reads this
    {
      Checksum.Sum(ipRest) > 0 && Accepted(AddressWords(saddr, daddr) + ipRest, ipCheck)
    }

    ghost function OptionList(): seq<Opt>
      requires Sane()
      reads this, data
    {
      Decode(data[..], 0, optLen).0
    }

    /** dysco_inet_proto_csum_replace4 on th->check. */
    method Replace4(from: U32, to: U32, pseudohdr: bool)
      modifies this`check, this`csum
      ensures Sum() == Repaired(old(Sum()), from, to, pseudohdr)
    {
      hide FoldTo32, FoldTo16;
      if mode != Partial {
        var partial: int := Not32(from) + to;
        var cpartial: int := partial;
        partial := partial + Not32(check);
        check := 0xFFFF - FoldTo16(FoldTo32(partial));
        if mode == Complete && pseudohdr {
          cpartial := cpartial + Not32(csum);
          csum := Not32(FoldTo32(cpartial));
        }
      } else if pseudohdr {
        check := FoldTo16(FoldTo32(Not32(from) + to + check));
      }
    }

    // ----- option walkers

    /** dysco_get_ts_option: position of the timestamp value, or -1. */
    method GetTsOption() returns (at: int)
      requires Sane()
      ensures at == TsPosition(OptionList())
    {
      ghost var buf := data[..];
      var ptr, length := 0, optLen;
      while length > 0
        invariant 0 <= ptr && ptr + length == optLen
        invariant TsPosition(Decode(buf, ptr, optLen).0) == TsPosition(Decode(buf, 0, optLen).0)
      {
        var opcode := data[ptr];
        if opcode == EOL {
          return -1;
        }
        if opcode == NOP {
          ptr, length := ptr + 1, length - 1;
          continue;
        }
        var opsize := data[ptr + 1];
        if opsize < 2 || opsize > length {
          return -1;
        }
        DecodeOption(buf, ptr, optLen);
        if opcode == TIMESTAMP && opsize == 10 {
          return ptr + 2;
        }
        ptr, length := ptr + opsize, length - opsize;
      }
      at := -1;
    }

    /** dysco_parse_tcp_syn_opt_r and _s, but for the Dysco tag. */
    method ParseSynOptions(isAck: bool, was: SynOptions) returns (st: SynOptions)
      requires Sane()
      ensures st == ParseAll(data[..], OptionList(), isAck, was.(sackOk := false))
    {
      hide Decode, Parse1, ParseAll;
      ghost var buf := data[..];
      ghost var all := ParseAll(buf, OptionList(), isAck, was.(sackOk := false));
      st := was.(sackOk := false);
      var ptr, length := 0, optLen;
      while length > 0
        invariant 0 <= ptr && ptr + length == optLen
        invariant ParseAll(buf, Decode(buf, ptr, optLen).0, isAck, st) == all
      {
        DecodeOther(buf, ptr, optLen);
        ParseInFront(buf, Decode(buf, ptr, optLen).0, isAck, st);
        var opcode := data[ptr];
        if opcode == EOL {
          return;
        }
        if opcode == NOP {
          ptr, length := ptr + 1, length - 1;
          continue;
        }
        var opsize := data[ptr + 1];
        if opsize < 2 || opsize > length {
          return;
        }
        DecodeOption(buf, ptr, optLen);
        st := ParseOption(opcode, ptr, opsize, isAck, st);
        ptr, length := ptr + opsize, length - opsize;
      }
      DecodeOther(buf, ptr, optLen);
      ParseInFront(buf, Decode(buf, ptr, optLen).0, isAck, st);
    }

    /** The cases of one option inside the SYN parsers. */
    method ParseOption(opcode: U8, ptr: nat, opsize: U8, isAck: bool, was: SynOptions) returns (st: SynOptions)
      requires ptr + opsize <= data.Length
      ensures st == Parse1(data[..], Opt(opcode, ptr, opsize), isAck, was)
    {
      st := was;
      if opcode == WINDOW {
        if opsize == 3 {
          var scale := data[ptr + 2];
          if scale > 14 {
            scale := 14;
          }
          st := st.(wsOk := true, ws := scale);
        }
      } else if opcode == TIMESTAMP {
        if opsize == 10 && isAck {
          st := st.(tsOk := true, ts := Load32(ptr + 2), tsr := Load32(ptr + 6));
        }
      } else if opcode == SACK_PERM && opsize == 2 {
        st := st.(sackOk := true);
      }
    }

    function Load32(p: nat): (v: U32)
      requires p + 4 <= data.Length
      reads data
      ensures v == Get32(data[..], p)
    {
      Be32(data[p], data[p + 1], data[p + 2], data[p + 3])
    }

    method Store32(p: nat, v: U32)
      requires p + 4 <= data.Length
      modifies data
      ensures data[..] == Put32(old(data[..]), p, v)
    {
      var b := Bytes32(v);
      data[p] := b[0];
      data[p + 1] := b[1];
      data[p + 2] := b[2];
      data[p + 3] := b[3];
    }

    // ----- SACK blocks

    ghost function EdgeList(): (edges: seq<nat>)
      requires Sane()
      reads this, data
      ensures Apart(edges, 0, data.Length)
    {
      EdgesApart(data[..], 0, optLen);
      Edges(OptionList())
    }

    /** One edge of a left-to-right pass over the edges of buf, without the checksum. */
    method MoveEdge(ghost buf: seq<U8>, ghost done: seq<nat>, e: nat, d: Delta) returns (from: U32, to: U32)
      requires |buf| == data.Length && Apart(done, 0, e) && e + 4 <= data.Length
      requires data[..] == Shift(buf, done, d)
      modifies data
      ensures Apart(done + [e], 0, e + 4) && data[..] == Shift(buf, done + [e], d)
      ensures forall i :: e + 4 <= i < data.Length ==> data[i] == old(data[i])
      ensures from == Get32(buf, e) && to == Apply(d, from)
      ensures Growth(buf, done + [e], d) == Growth(buf, done, d) + to - from
    {
      hide *;
      OneMoreEdge(buf, done, e, d);
      from := Load32(e);
      to := MovedBy(d, from);
      Store32(e, to);
    }

    /** The same with the checksum repaired at once. */
    method MoveEdgeRepair(ghost buf: seq<U8>, ghost done: seq<nat>, e: nat, d: Delta, ghost check0: U16)
      requires |buf| == data.Length && Apart(done, 0, e) && e + 4 <= data.Length
      requires data[..] == Shift(buf, done, d)
      requires check == SackChecked(mode, check0, done, Growth(buf, done, d))
      modifies data, this`check, this`csum
      ensures Apart(done + [e], 0, e + 4) && data[..] == Shift(buf, done + [e], d)
      ensures forall i :: e + 4 <= i < data.Length ==> data[i] == old(data[i])
      ensures check == SackChecked(mode, check0, done + [e], Growth(buf, done + [e], d))
      ensures csum == old(csum)
    {
      hide Shift, Growth, Repaired, Adjusted, Get32, Apply;
      var from, to := MoveEdge(buf, done, e, d);
      ghost var before := Sum();
      Replace4(from, to, false);
      RepairOfBody(before, from, to);
      GrowthOfNone(buf, done, d);
      CheckedOneMore(mode, check0, done, e, Growth(buf, done, d), to as int - from as int);
    }

    /** A left-to-right pass has moved the edges in done, all before position ptr. */
    ghost predicate MovedUpTo(buf: seq<U8>, done: seq<nat>, d: Delta, ptr: nat)
      reads data
    {
      && |buf| == data.Length && ptr <= data.Length && Apart(done, 0, ptr)
      && data[..] == Shift(buf, done, d)
      && forall i :: ptr <= i < data.Length ==> data[i] == buf[i]
    }

    lemma MovedFurther(buf: seq<U8>, done: seq<nat>, d: Delta, ptr: nat, ptr': nat)
      requires MovedUpTo(buf, done, d, ptr) && ptr <= ptr' <= data.Length
      ensures |buf| == data.Length && Apart(done, 0, |buf|)
      ensures MovedUpTo(buf, done, d, ptr') && data[..] == Shift(buf, done, d)
      ensures ptr < data.Length ==> data[ptr] == buf[ptr]
      ensures ptr + 1 < data.Length ==> data[ptr + 1] == buf[ptr + 1]
    {
    }

    lemma NothingMoved(d: Delta)
      ensures Apart([], 0, data.Length) && MovedUpTo(data[..], [], d, 0) && Growth(data[..], [], d) == 0
    {
    }

    /** dysco_tcp_sack: every edge of every well-formed SACK option, one checksum repair per edge. */
    method TcpSack(d: Delta)
      requires Sane()
      modifies data, this`check, this`csum
      ensures data[..] == Shift(old(data[..]), old(EdgeList()), d)
      ensures check == SackChecked(mode, old(check), old(EdgeList()), Growth(old(data[..]), old(EdgeList()), d))
      ensures csum == old(csum)
    {
      hide Shift, Growth, Span, Decode, Edges, SackChecked, Adjusted, MovedUpTo, Apart, SplitInto, OwnEdges;
      ghost var buf, check0 := data[..], check;
      ghost var all := EdgeList();
      ghost var done: seq<nat> := [];
      NothingMoved(d);
      NothingDoneYet(all);
      NothingToRepair(mode, check0, done, 0);
      var ptr, length := 0, optLen;
      while length > 0
        invariant 0 <= ptr && ptr + length == optLen && csum == old(csum) && ptr <= data.Length
        invariant SplitInto(all, done, Edges(Decode(buf, ptr, optLen).0))
        invariant MovedUpTo(buf, done, d, ptr) && Apart(done, 0, |buf|)
        invariant check == SackChecked(mode, check0, done, Growth(buf, done, d))
      {
        DecodeOther(buf, ptr, optLen);
        NoEdgesAtEnd(buf, ptr, optLen);
        MovedFurther(buf, done, d, ptr, ptr + 1);
        var opcode := data[ptr];
        if opcode == EOL {
          break;
        }
        if opcode == NOP {
          ptr, length := ptr + 1, length - 1;
          continue;
        }
        var opsize := data[ptr + 1];
        if opsize < 2 || opsize > length {
          break;
        }
        OwnEdgesInFront(buf, ptr, optLen);
        OneOptionDone(all, done, OwnEdges(opcode, opsize, ptr), Edges(Decode(buf, ptr, optLen).0),
                      Edges(Decode(buf, ptr + opsize, optLen).0));
        done := ShiftOption(buf, done, opcode, opsize, ptr, d, check0);
        ptr, length := ptr + opsize, length - opsize;
      }
      DecodeOther(buf, ptr, optLen);
      NoEdgesAtEnd(buf, ptr, optLen);
      MovedFurther(buf, done, d, ptr, ptr);
      AllDone(all, done, Edges(Decode(buf, ptr, optLen).0));
    }

    /** The cases of one option inside dysco_tcp_sack. */
    method ShiftOption(ghost buf: seq<U8>, ghost base: seq<nat>, opcode: U8, opsize: U8, ptr: nat, d: Delta, ghost check0: U16)
      returns (ghost done: seq<nat>)
      requires 2 <= opsize && ptr + opsize <= data.Length && MovedUpTo(buf, base, d, ptr) && Apart(base, 0, |buf|)
      requires check == SackChecked(mode, check0, base, Growth(buf, base, d))
      modifies data, this`check, this`csum
      ensures done == base + OwnEdges(opcode, opsize, ptr)
      ensures MovedUpTo(buf, done, d, ptr + opsize) && Apart(done, 0, |buf|)
      ensures check == SackChecked(mode, check0, done, Growth(buf, done, d)) && csum == old(csum)
    {
      hide Shift, Growth, SackChecked, MovedUpTo, Apart;
      done := base;
      if opcode == SACK && opsize >= 10 && (opsize - 2) % 8 == 0 {
        MovedFurther(buf, done, d, ptr, ptr + 2);
        done := ShiftBlocks(buf, done, ptr + 2, opsize - 2, d, check0);
      } else {
        MovedFurther(buf, done, d, ptr, ptr + opsize);
        assert base + [] == base;
      }
    }

    /** The two edges of one block. */
    method MoveBlockRepair(ghost buf: seq<U8>, ghost done: seq<nat>, e: nat, d: Delta, ghost check0: U16)
      requires e + 8 <= data.Length && MovedUpTo(buf, done, d, e) && Apart(done, 0, |buf|)
      requires check == SackChecked(mode, check0, done, Growth(buf, done, d))
      modifies data, this`check, this`csum
      ensures MovedUpTo(buf, done + [e] + [e + 4], d, e + 8) && Apart(done + [e] + [e + 4], 0, |buf|)
      ensures check == SackChecked(mode, check0, done + [e] + [e + 4], Growth(buf, done + [e] + [e + 4], d))
      ensures csum == old(csum)
    {
      hide Shift, Growth, SackChecked;
      MoveEdgeRepair(buf, done, e, d, check0);
      MoveEdgeRepair(buf, done + [e], e + 4, d, check0);
    }

    /** The inner loop over the blocks of one option, blen bytes from lptr on. */
    method ShiftBlocks(ghost buf: seq<U8>, ghost base: seq<nat>, start: nat, size: nat, d: Delta, ghost check0: U16)
      returns (ghost done: seq<nat>)
      requires size % 8 == 0 && start + size <= data.Length
      requires MovedUpTo(buf, base, d, start) && Apart(base, 0, |buf|)
      requires check == SackChecked(mode, check0, base, Growth(buf, base, d))
      modifies data, this`check, this`csum
      ensures done == base + Span(start, size / 4)
      ensures MovedUpTo(buf, done, d, start + size) && Apart(done, 0, |buf|)
      ensures check == SackChecked(mode, check0, done, Growth(buf, done, d))
      ensures csum == old(csum)
    {
      hide Shift, Growth, SackChecked, Span, MovedUpTo, Apart;
      done := base;
      var lptr, blen := start, size;
      ghost var k := 0;
      assert base + Span(start, 0) == base;
      while blen > 0
        invariant 0 <= blen && blen % 8 == 0 && lptr + blen == start + size && csum == old(csum)
        invariant 0 <= k && lptr == start + 8 * k && done == base + Span(start, 2 * k)
        invariant MovedUpTo(buf, done, d, lptr) && Apart(done, 0, |buf|)
        invariant check == SackChecked(mode, check0, done, Growth(buf, done, d))
      {
        SpanGrows(start, 2 * k);
        SpanGrows(start, 2 * k + 1);
        MoveBlockRepair(buf, done, lptr, d, check0);
        done := done + [lptr] + [lptr + 4];
        lptr, blen, k := lptr + 8, blen - 8, k + 1;
      }
    }

    /** The same, with the old and new values of the moved edges added up. */
    ghost predicate SummedUpTo(buf: seq<U8>, done: seq<nat>, d: Delta, ptr: nat, from64: nat, to64: nat)
      reads this, data
    {
      && MovedUpTo(buf, done, d, ptr) && Apart(done, 0, |buf|)
      && from64 <= ptr * 0x1_0000_0000 && to64 <= ptr * 0x1_0000_0000
      && (mode != Partial ==> to64 - from64 == Growth(buf, done, d))
    }

    lemma SummedFurther(buf: seq<U8>, done: seq<nat>, d: Delta, ptr: nat, ptr': nat, from64: nat, to64: nat)
      requires SummedUpTo(buf, done, d, ptr, from64, to64) && ptr <= ptr' <= data.Length
      ensures |buf| == data.Length && Apart(done, 0, |buf|) && data[..] == Shift(buf, done, d)
      ensures SummedUpTo(buf, done, d, ptr', from64, to64)
      ensures ptr < data.Length ==> data[ptr] == buf[ptr]
      ensures ptr + 1 < data.Length ==> data[ptr + 1] == buf[ptr + 1]
      ensures from64 <= ptr * 0x1_0000_0000 && to64 <= ptr * 0x1_0000_0000
      ensures mode != Partial ==> to64 - from64 == Growth(buf, done, d)
    {
    }

    lemma NothingSummed(d: Delta)
      ensures SummedUpTo(data[..], [], d, 0, 0, 0)
    {
      NothingMoved(d);
    }

    /** dysco_tcp_sack_csum: the same edges, but one repair at the end, and none when the walk is left
        early. */
    method TcpSackCsum(d: Delta)
      requires Sane()
      modifies data, this`check, this`csum
      ensures data[..] == Shift(old(data[..]), old(EdgeList()), d)
      ensures check == BatchChecked(mode, old(check), old(EdgeList()), Growth(old(data[..]), old(EdgeList()), d),
                                    old(Decode(data[..], 0, optLen).1))
      ensures csum == old(csum)
    {
      hide Shift, Growth, Decode, Edges, SackChecked;
      ghost var buf, all := data[..], EdgeList();
      var fixChecksum, from64, to64, length := SumAll(d);
      // The kernel returns where the loop breaks, that is, with options left.
      if length > 0 {
        return;
      }
      FinishRepair(fixChecksum, all, from64, to64, Growth(buf, all, d));
    }

    /** The loop of dysco_tcp_sack_csum; length says how many bytes are left when it breaks. */
    method SumAll(d: Delta) returns (fixChecksum: bool, from64: nat, to64: nat, length: int)
      requires Sane()
      modifies data
      ensures data[..] == Shift(old(data[..]), old(EdgeList()), d)
      ensures length > 0 <==> old(Decode(data[..], 0, optLen).1) != AtEnd
      ensures fixChecksum <==> mode != Partial && old(EdgeList()) != []
      ensures from64 < 0x1_0000_0000_0000_0000 && to64 < 0x1_0000_0000_0000_0000
      ensures mode != Partial ==> to64 - from64 == Growth(old(data[..]), old(EdgeList()), d)
    {
      hide Shift, Growth, Span, Decode, Edges, SummedUpTo, MovedUpTo, Apart, SplitInto, OwnEdges;
      ghost var buf := data[..];
      ghost var all := EdgeList();
      ghost var done: seq<nat> := [];
      NothingSummed(d);
      NothingDoneYet(all);
      fixChecksum, from64, to64 := false, 0, 0;
      var ptr := 0;
      length := optLen;
      while length > 0
        invariant 0 <= ptr && ptr + length == optLen && ptr <= data.Length && ptr <= 40
        invariant SplitInto(all, done, Edges(Decode(buf, ptr, optLen).0))
        invariant Decode(buf, ptr, optLen).1 == Decode(buf, 0, optLen).1
        invariant SummedUpTo(buf, done, d, ptr, from64, to64)
        invariant fixChecksum <==> mode != Partial && done != []
      {
        DecodeOther(buf, ptr, optLen);
        NoEdgesAtEnd(buf, ptr, optLen);
        SummedFurther(buf, done, d, ptr, ptr + 1, from64, to64);
        var opcode := data[ptr];
        if opcode == EOL {
          break;
        }
        if opcode == NOP {
          ptr, length := ptr + 1, length - 1;
          continue;
        }
        var opsize := data[ptr + 1];
        if opsize < 2 || opsize > length {
          break;
        }
        OwnEdgesInFront(buf, ptr, optLen);
        DecodeOption(buf, ptr, optLen);
        OneOptionDone(all, done, OwnEdges(opcode, opsize, ptr), Edges(Decode(buf, ptr, optLen).0),
                      Edges(Decode(buf, ptr + opsize, optLen).0));
        var fix;
        done, from64, to64, fix := SumOption(buf, done, opcode, opsize, ptr, d, from64, to64);
        fixChecksum := fixChecksum || fix;
        ptr, length := ptr + opsize, length - opsize;
      }
      DecodeOther(buf, ptr, optLen);
      NoEdgesAtEnd(buf, ptr, optLen);
      SummedFurther(buf, done, d, ptr, ptr, from64, to64);
      AllDone(all, done, Edges(Decode(buf, ptr, optLen).0));
      assert data[..] == Shift(buf, all, d) && (mode != Partial ==> to64 - from64 == Growth(buf, all, d));
      assert length > 0 <==> Decode(buf, 0, optLen).1 != AtEnd;
    }

    /** The end of dysco_tcp_sack_csum. */
    method FinishRepair(fixChecksum: bool, ghost edges: seq<nat>, from64: nat, to64: nat, ghost growth: int)
      requires fixChecksum <==> mode != Partial && edges != []
      requires from64 < 0x1_0000_0000_0000_0000 && to64 < 0x1_0000_0000_0000_0000
      requires mode != Partial ==> growth == to64 - from64
      modifies this`check, this`csum
      ensures check == SackChecked(mode, old(check), edges, growth) && csum == old(csum)
    {
      hide SackChecked;
      if fixChecksum {
        RepairOnce(edges, from64, to64);
      } else {
        NothingToRepair(mode, check, edges, growth);
      }
    }

    /** The cases of one option inside dysco_tcp_sack_csum. */
    method SumOption(ghost buf: seq<U8>, ghost base: seq<nat>, opcode: U8, opsize: U8, ptr: nat, d: Delta, from0: nat, to0: nat)
      returns (ghost done: seq<nat>, from64: nat, to64: nat, fix: bool)
      requires 2 <= opsize && ptr + opsize <= data.Length && SummedUpTo(buf, base, d, ptr, from0, to0)
      modifies data
      ensures SummedUpTo(buf, done, d, ptr + opsize, from64, to64)
      ensures done == base + OwnEdges(opcode, opsize, ptr)
      ensures fix <==> OwnEdges(opcode, opsize, ptr) != [] && mode != Partial
    {
      hide Shift, Growth, SummedUpTo, Apart;
      done, from64, to64, fix := base, from0, to0, false;
      if opcode == SACK && opsize >= 10 && (opsize - 2) % 8 == 0 {
        SummedFurther(buf, done, d, ptr, ptr + 2, from64, to64);
        done, from64, to64 := SumBlocks(buf, done, ptr + 2, opsize - 2, d, from64, to64);
        fix := mode != Partial;
      } else {
        SummedFurther(buf, done, d, ptr, ptr + opsize, from64, to64);
      }
    }

    method RepairOnce(ghost edges: seq<nat>, from64: nat, to64: nat)
      requires from64 < 0x1_0000_0000_0000_0000 && to64 < 0x1_0000_0000_0000_0000
      requires mode != Partial && edges != []
      modifies this`check, this`csum
      ensures check == SackChecked(mode, old(check), edges, to64 - from64) && csum == old(csum)
    {
      hide SackChecked, Adjusted, Repaired, FoldTo32;
      var from, to := FoldTo32(from64), FoldTo32(to64);
      FoldTo32Residue(from64);
      FoldTo32Residue(to64);
      ghost var before := Sum();
      Replace4(from, to, false);
      RepairOfBody(before, from, to);
      BatchedRepair(mode, before.check, edges, from64, to64, from, to);
    }

    /** The two edges of one block. */
    method MoveBlock(ghost buf: seq<U8>, ghost done: seq<nat>, e: nat, d: Delta) returns (from: nat, to: nat)
      requires e + 8 <= data.Length && MovedUpTo(buf, done, d, e) && Apart(done, 0, |buf|)
      modifies data
      ensures MovedUpTo(buf, done + [e] + [e + 4], d, e + 8) && Apart(done + [e] + [e + 4], 0, |buf|)
      ensures from <= 0x2_0000_0000 && to <= 0x2_0000_0000
      ensures Growth(buf, done + [e] + [e + 4], d) == Growth(buf, done, d) + to - from
    {
      hide Shift, Growth, Get32, Apply;
      var l, newL := MoveEdge(buf, done, e, d);
      var r, newR := MoveEdge(buf, done + [e], e + 4, d);
      from, to := l as int + r as int, newL as int + newR as int;
    }

    /** The inner loop: two edges a turn, their old and new values added up unless the device fills the
        checksum in. */
    method SumBlocks(ghost buf: seq<U8>, ghost base: seq<nat>, start: nat, size: nat, d: Delta, from0: nat, to0: nat)
      returns (ghost done: seq<nat>, from64: nat, to64: nat)
      requires size % 8 == 0 && start + size <= data.Length
      requires SummedUpTo(buf, base, d, start, from0, to0)
      modifies data
      ensures done == base + Span(start, size / 4)
      ensures SummedUpTo(buf, done, d, start + size, from64, to64)
    {
      hide Shift, Growth, Span, SummedUpTo;
      done, from64, to64 := base, from0, to0;
      var lptr, blen := start, size;
      ghost var k := 0;
      assert base + Span(start, 0) == base;
      while blen > 0
        invariant 0 <= blen && blen % 8 == 0 && lptr + blen == start + size
        invariant blen > 0 ==> lptr + 8 <= start + size
        invariant 0 <= k && lptr == start + 8 * k && done == base + Span(start, 2 * k)
        invariant SummedUpTo(buf, done, d, lptr, from64, to64)
      {
        SpanGrows(start, 2 * k);
        SpanGrows(start, 2 * k + 1);
        from64, to64 := SumBlock(buf, done, lptr, d, from64, to64);
        done := done + [lptr] + [lptr + 4];
        lptr, blen, k := lptr + 8, blen - 8, k + 1;
      }
    }

    method SumBlock(ghost buf: seq<U8>, ghost done: seq<nat>, lptr: nat, d: Delta, from0: nat, to0: nat)
      returns (from64: nat, to64: nat)
      requires lptr + 8 <= data.Length && SummedUpTo(buf, done, d, lptr, from0, to0)
      modifies data
      ensures SummedUpTo(buf, done + [lptr] + [lptr + 4], d, lptr + 8, from64, to64)
    {
      hide Shift, Growth, MovedUpTo;
      from64, to64 := from0, to0;
      var from, to := MoveBlock(buf, done, lptr, d);
      if mode != Partial {
        from64, to64 := from64 + from, to64 + to;
      }
    }
  }
}
