/** TCP options as bytes: one reference decoder, the edges of SACK blocks, and what shifting them
    does to the bytes and to the sum of the words (RFC 2018, section 3). */
module Options {
  import opened Serial
  import opened Translation
  import opened Checksum

  const EOL: U8 := 0
  const NOP: U8 := 1
  const WINDOW: U8 := 3
  const SACK_PERM: U8 := 4
  const SACK: U8 := 5
  const TIMESTAMP: U8 := 8

  /** An option with a length byte: kind at pos, length at pos + 1, contents from pos + 2. */
  datatype Opt = Opt(kind: U8, pos: nat, size: nat)

  datatype Ending = AtEnd | AtEol | AtSilly | AtPartial

  /** The option list in buf[pos..end] up to where it ends or stops making sense. The length byte of a
      kind in the last byte is the byte just past the options. */
  function Decode(buf: seq<U8>, pos: nat, end: int): (r: (seq<Opt>, Ending))
    requires pos < end ==> end < |buf|
    ensures forall i :: 0 <= i < |r.0| ==>
              pos <= r.0[i].pos && 2 <= r.0[i].size && r.0[i].pos + r.0[i].size <= end
    ensures forall i, j :: 0 <= i < j < |r.0| ==> r.0[i].pos + r.0[i].size <= r.0[j].pos
    decreases end - pos
  {
    if pos >= end then ([], AtEnd)
    else if buf[pos] == EOL then ([], AtEol)
    else if buf[pos] == NOP then Decode(buf, pos + 1, end)
    else
      var size := buf[pos + 1];
      if size < 2 then ([], AtSilly)
      else if size > end - pos then ([], AtPartial)
      else
        var rest := Decode(buf, pos + size, end);
        ([Opt(buf[pos], pos, size)] + rest.0, rest.1)
  }

  /** One well-formed option in front. */
  lemma DecodeOption(buf: seq<U8>, pos: nat, end: int)
    requires pos < end < |buf| && buf[pos] != EOL && buf[pos] != NOP && 2 <= buf[pos + 1] <= end - pos
    ensures var all, rest := Decode(buf, pos, end).0, Decode(buf, pos + buf[pos + 1], end).0;
            && |all| == |rest| + 1 && all[0] == Opt(buf[pos], pos, buf[pos + 1]) && all[1..] == rest
            && Decode(buf, pos, end).1 == Decode(buf, pos + buf[pos + 1], end).1
  {
    var rest := Decode(buf, pos + buf[pos + 1], end).0;
    assert ([Opt(buf[pos], pos, buf[pos + 1])] + rest)[1..] == rest;
  }

  /** Everything else in front: padding is skipped, and nothing follows where the list ends. */
  lemma DecodeOther(buf: seq<U8>, pos: nat, end: int)
    requires pos < end ==> end < |buf|
    ensures pos < end && buf[pos] == NOP ==> Decode(buf, pos, end) == Decode(buf, pos + 1, end)
    ensures pos >= end ==> Decode(buf, pos, end) == ([], AtEnd)
    ensures pos < end && buf[pos] == EOL ==> Decode(buf, pos, end) == ([], AtEol)
    ensures pos < end && buf[pos] != EOL && buf[pos] != NOP && !(2 <= buf[pos + 1] <= end - pos) ==>
              Decode(buf, pos, end) == ([], if buf[pos + 1] < 2 then AtSilly else AtPartial)
  {
  }

  // ----- 32-bit fields inside the bytes

  function Be32(b0: int, b1: int, b2: int, b3: int): int {
    ((b0 * 256 + b1) * 256 + b2) * 256 + b3
  }

  function Get32(buf: seq<U8>, p: nat): U32
    requires p + 4 <= |buf|
  {
    Be32(buf[p], buf[p + 1], buf[p + 2], buf[p + 3])
  }

  function Bytes32(v: U32): (b: seq<U8>)
    ensures |b| == 4 && Be32(b[0], b[1], b[2], b[3]) == v
  {
    var top: int := v / 0x1_0000;
    var low: int := v % 0x1_0000;
    [top / 0x100, top % 0x100, low / 0x100, low % 0x100]
  }

  function PutBytes(buf: seq<U8>, p: nat, b: seq<U8>): (r: seq<U8>)
    requires p + 4 <= |buf| && |b| == 4
    ensures |r| == |buf| && forall i :: 0 <= i < 4 ==> r[p + i] == b[i]
    ensures forall i :: 0 <= i < |buf| && !(p <= i < p + 4) ==> r[i] == buf[i]
  {
    buf[p := b[0]][p + 1 := b[1]][p + 2 := b[2]][p + 3 := b[3]]
  }

  function Put32(buf: seq<U8>, p: nat, v: U32): (r: seq<U8>)
    requires p + 4 <= |buf|
    ensures |r| == |buf| && Get32(r, p) == v
    ensures forall i :: 0 <= i < |buf| && !(p <= i < p + 4) ==> r[i] == buf[i]
  {
    var b := Bytes32(v);
    var r := PutBytes(buf, p, b);
    assert r[p + 0] == b[0] && r[p + 1] == b[1] && r[p + 2] == b[2] && r[p + 3] == b[3];
    r
  }

  // ----- SACK edges

  /** n consecutive 32-bit positions. */
  function Span(from: nat, n: nat): (r: seq<nat>)
    ensures |r| == n && forall i :: 0 <= i < n ==> r[i] == from + 4 * i
  {
    if n == 0 then [] else Span(from, n - 1) + [from + 4 * (n - 1)]
  }

  predicate HasBlocks(o: Opt) {
    o.kind == SACK && o.size >= 10 && (o.size - 2) % 8 == 0
  }

  function EdgesOf(o: Opt): seq<nat> {
    if HasBlocks(o) then Span(o.pos + 2, (o.size - 2) / 4) else []
  }

  function Edges(opts: seq<Opt>): seq<nat> {
    if opts == [] then [] else EdgesOf(opts[0]) + Edges(opts[1..])
  }

  /** Positions in order, four bytes or more apart, all inside [lo, hi). */
  ghost predicate Apart(edges: seq<nat>, lo: int, hi: int) {
    && (forall i :: 0 <= i < |edges| ==> lo <= edges[i] && edges[i] + 4 <= hi)
    && (forall i, j :: 0 <= i < j < |edges| ==> edges[i] + 4 <= edges[j])
  }

  lemma ApartTogether(a: seq<nat>, b: seq<nat>, lo: int, mid: int, hi: int)
    requires Apart(a, lo, mid) && Apart(b, mid, hi) && lo <= mid <= hi
    ensures Apart(a + b, lo, hi)
  {
  }

  lemma ApartWider(edges: seq<nat>, lo: int, mid: int, hi: int)
    requires edges == [] || Apart(edges, mid, hi)
    requires lo <= mid
    ensures Apart(edges, lo, hi)
  {
  }

  lemma SpanApart(from: nat, n: nat)
    ensures Apart(Span(from, n), from, from + 4 * n)
  {
  }

  lemma {:induction false} EdgesApart(buf: seq<U8>, pos: nat, end: int)
    requires pos < end ==> end < |buf|
    ensures Apart(Edges(Decode(buf, pos, end).0), pos, end)
    decreases end - pos
  {
    hide Decode, Edges, Span, Apart;
    DecodeOther(buf, pos, end);
    NoEdgesAtEnd(buf, pos, end);
    ApartWider([], pos, pos, end);
    if pos < end && buf[pos] == NOP {
      EdgesApart(buf, pos + 1, end);
      ApartWider(Edges(Decode(buf, pos + 1, end).0), pos, pos + 1, end);
    } else if pos < end && buf[pos] != EOL && 2 <= buf[pos + 1] <= end - pos {
      var size := buf[pos + 1];
      var rest := Edges(Decode(buf, pos + size, end).0);
      EdgesInFront(buf, pos, end);
      EdgesApart(buf, pos + size, end);
      if buf[pos] == SACK && size >= 10 && (size - 2) % 8 == 0 {
        SpanApart(pos + 2, (size - 2) / 4);
        ApartTogether(Span(pos + 2, (size - 2) / 4), rest, pos + 2, pos + size, end);
        ApartWider(Span(pos + 2, (size - 2) / 4) + rest, pos, pos + 2, end);
      } else {
        ApartWider(rest, pos, pos + size, end);
      }
    }
  }

  /** Every edge moved by d, first to last. */
  function Shift(buf: seq<U8>, edges: seq<nat>, d: Delta): (r: seq<U8>)
    requires Apart(edges, 0, |buf|)
    ensures |r| == |buf|
  {
    if edges == [] then buf
    else
      var n := |edges| - 1;
      var b := Shift(buf, edges[..n], d);
      Put32(b, edges[n], Apply(d, Get32(b, edges[n])))
  }

  /** By how much the edges grow together. */
  function Growth(buf: seq<U8>, edges: seq<nat>, d: Delta): int
    requires Apart(edges, 0, |buf|)
  {
    if edges == [] then 0
    else
      var n := |edges| - 1;
      Growth(buf, edges[..n], d) + Apply(d, Get32(buf, edges[n])) - Get32(buf, edges[n])
  }

  predicate Covers(e: nat, i: int) {
    e <= i < e + 4
  }

  ghost predicate InEdge(edges: seq<nat>, i: int) {
    exists k :: 0 <= k < |edges| && Covers(edges[k], i)
  }

  /** A byte outside all edges stays. */
  lemma {:induction false} ShiftKeepsByte(buf: seq<U8>, edges: seq<nat>, d: Delta, i: nat)
    requires Apart(edges, 0, |buf|) && i < |buf| && !InEdge(edges, i)
    ensures Shift(buf, edges, d)[i] == buf[i]
  {
    if edges != [] {
      var n := |edges| - 1;
      assert !Covers(edges[n], i);
      forall k | 0 <= k < n
        ensures !Covers(edges[..n][k], i)
      {
        assert !Covers(edges[k], i);
      }
      ShiftKeepsByte(buf, edges[..n], d, i);
    }
  }

  /** Bytes from the last edge on are still untouched when its turn comes. */
  lemma LastEdgeUntouched(buf: seq<U8>, edges: seq<nat>, d: Delta, i: nat)
    requires Apart(edges, 0, |buf|) && edges != [] && edges[|edges| - 1] <= i < |buf|
    ensures Shift(buf, edges[..|edges| - 1], d)[i] == buf[i]
  {
    ShiftKeepsByte(buf, edges[..|edges| - 1], d, i);
  }

  /** Every edge moves by d, once. */
  lemma {:induction false} ShiftMovesEdge(buf: seq<U8>, edges: seq<nat>, d: Delta, k: nat)
    requires Apart(edges, 0, |buf|) && k < |edges|
    ensures Get32(Shift(buf, edges, d), edges[k]) == Apply(d, Get32(buf, edges[k]))
  {
    var n := |edges| - 1;
    var b := Shift(buf, edges[..n], d);
    if k == n {
      LastEdgeUntouched(buf, edges, d, edges[n]);
      LastEdgeUntouched(buf, edges, d, edges[n] + 1);
      LastEdgeUntouched(buf, edges, d, edges[n] + 2);
      LastEdgeUntouched(buf, edges, d, edges[n] + 3);
    } else {
      ShiftMovesEdge(buf, edges[..n], d, k);
      assert edges[..n][k] == edges[k];
      assert edges[k] + 4 <= edges[n];
      var r := Put32(b, edges[n], Apply(d, Get32(b, edges[n])));
      assert Get32(r, edges[k]) == Get32(b, edges[k]);
    }
  }

  // ----- the decoder reads kinds and lengths only

  predicate InOpt(o: Opt, i: int) {
    o.pos + 2 <= i < o.pos + o.size
  }

  ghost predicate InContents(opts: seq<Opt>, i: int) {
    exists k :: 0 <= k < |opts| && InOpt(opts[k], i)
  }

  ghost predicate AgreeOutside(buf: seq<U8>, buf': seq<U8>, opts: seq<Opt>, pos: nat) {
    |buf'| == |buf| && forall i :: pos <= i < |buf| && !InContents(opts, i) ==> buf'[i] == buf[i]
  }

  /** The bytes that steer the decoder agree, and so do those behind the option in front. */
  lemma FrontAgrees(buf: seq<U8>, buf': seq<U8>, pos: nat, end: int)
    requires pos < end < |buf| && AgreeOutside(buf, buf', Decode(buf, pos, end).0, pos)
    ensures |buf'| == |buf| && buf'[pos] == buf[pos]
    ensures buf[pos] == NOP ==> AgreeOutside(buf, buf', Decode(buf, pos + 1, end).0, pos + 1)
    ensures buf[pos] != EOL && buf[pos] != NOP ==> buf'[pos + 1] == buf[pos + 1]
    ensures buf[pos] != EOL && buf[pos] != NOP && 2 <= buf[pos + 1] <= end - pos ==>
              AgreeOutside(buf, buf', Decode(buf, pos + buf[pos + 1], end).0, pos + buf[pos + 1])
  {
    hide Decode;
    DecodeOther(buf, pos, end);
    if buf[pos] != EOL && buf[pos] != NOP && 2 <= buf[pos + 1] <= end - pos {
      DecodeOption(buf, pos, end);
      var opts, rest, next := Decode(buf, pos, end).0, Decode(buf, pos + buf[pos + 1], end).0, pos + buf[pos + 1];
      forall i | next <= i && InContents(opts, i)
        ensures InContents(rest, i)
      {
        var k :| 0 <= k < |opts| && InOpt(opts[k], i);
        assert opts[k] == rest[k - 1];
      }
    }
  }

  /** Buffers that differ in the contents of options only decode alike. */
  lemma {:induction false} DecodeIgnoresContents(buf: seq<U8>, buf': seq<U8>, pos: nat, end: int)
    requires pos < end ==> end < |buf|
    requires AgreeOutside(buf, buf', Decode(buf, pos, end).0, pos)
    ensures Decode(buf', pos, end) == Decode(buf, pos, end)
    decreases end - pos
  {
    hide Decode, AgreeOutside;
    if pos < end {
      FrontAgrees(buf, buf', pos, end);
      DecodeOther(buf, pos, end);
      DecodeOther(buf', pos, end);
      if buf[pos] == NOP {
        DecodeIgnoresContents(buf, buf', pos + 1, end);
      } else if buf[pos] != EOL && 2 <= buf[pos + 1] <= end - pos {
        DecodeIgnoresContents(buf, buf', pos + buf[pos + 1], end);
        DecodeOption(buf, pos, end);
        DecodeOption(buf', pos, end);
        SameList(Decode(buf, pos, end), Decode(buf', pos, end));
      }
    } else {
      DecodeOther(buf, pos, end);
      DecodeOther(buf', pos, end);
    }
  }

  lemma SameList(a: (seq<Opt>, Ending), b: (seq<Opt>, Ending))
    requires a.0 != [] && b.0 != [] && a.0[0] == b.0[0] && a.0[1..] == b.0[1..] && a.1 == b.1
    ensures a == b
  {
    assert a.0 == [a.0[0]] + a.0[1..];
    assert b.0 == [b.0[0]] + b.0[1..];
  }

  /** SACK edges are contents of options. */
  lemma {:induction false} EdgesInContents(opts: seq<Opt>, i: int)
    requires InEdge(Edges(opts), i)
    ensures InContents(opts, i)
  {
    if opts != [] {
      var a, b := EdgesOf(opts[0]), Edges(opts[1..]);
      var k :| 0 <= k < |a + b| && Covers((a + b)[k], i);
      if k < |a| {
        assert InOpt(opts[0], i);
      } else {
        assert Covers(b[k - |a|], i);
        EdgesInContents(opts[1..], i);
        var j :| 0 <= j < |opts[1..]| && InOpt(opts[1..][j], i);
        assert InOpt(opts[j + 1], i);
      }
    }
  }

  /** SACK rewriting keeps the option list: the new bytes decode to the old list, every edge is moved
      by d, and every other byte is as it was. */
  lemma ShiftKeepsOptions(buf: seq<U8>, end: int, d: Delta)
    requires 0 < end ==> end < |buf|
    ensures var opts := Decode(buf, 0, end);
            var edges := Edges(opts.0);
            && Apart(edges, 0, |buf|)
            && Decode(Shift(buf, edges, d), 0, end) == opts
            && (forall k :: 0 <= k < |edges| ==> Get32(Shift(buf, edges, d), edges[k]) == Apply(d, Get32(buf, edges[k])))
            && (forall i :: 0 <= i < |buf| && !InEdge(edges, i) ==> Shift(buf, edges, d)[i] == buf[i])
  {
    var opts := Decode(buf, 0, end).0;
    var edges := Edges(opts);
    EdgesApart(buf, 0, end);
    hide Decode, Edges, Get32, Apply;
    forall i | 0 <= i < |buf| && !InEdge(edges, i)
      ensures Shift(buf, edges, d)[i] == buf[i]
    {
      ShiftKeepsByte(buf, edges, d, i);
    }
    forall k | 0 <= k < |edges|
      ensures Get32(Shift(buf, edges, d), edges[k]) == Apply(d, Get32(buf, edges[k]))
    {
      ShiftMovesEdge(buf, edges, d, k);
    }
    forall i | 0 <= i < |buf| && !InContents(opts, i)
      ensures Shift(buf, edges, d)[i] == buf[i]
    {
      if InEdge(edges, i) {
        EdgesInContents(opts, i);
      }
    }
    DecodeIgnoresContents(buf, Shift(buf, edges, d), 0, end);
  }

  // ----- what a 32-bit change does to the sum of the 16-bit words

  /** The bytes as words in network order; an odd last byte is padded with zero. */
  function Words(bytes: seq<U8>): seq<U16> {
    if bytes == [] then []
    else if |bytes| == 1 then [Be16(bytes[0], 0)]
    else [Be16(bytes[0], bytes[1])] + Words(bytes[2..])
  }

  function Be16(hi: int, lo: int): int {
    hi * 256 + lo
  }

  /** What a change of byte i by delta does to the sum of the words. */
  function Moved(i: nat, delta: int): int {
    if i % 2 == 0 then 256 * delta else delta
  }

  /** The sum of the words of the first n bytes, byte by byte. */
  function ByteSum(bytes: seq<U8>, n: nat): (total: int)
    requires n <= |bytes|
    ensures total >= 0
  {
    if n == 0 then 0 else ByteSum(bytes, n - 1) + Moved(n - 1, bytes[n - 1])
  }

  lemma {:induction false} ByteSumOfTail(bytes: seq<U8>, n: nat)
    requires 2 <= n <= |bytes|
    ensures ByteSum(bytes, n) == Be16(bytes[0], bytes[1]) + ByteSum(bytes[2..], n - 2)
  {
    if n == 2 {
      assert ByteSum(bytes, 1) == Moved(0, bytes[0]);
    } else {
      ByteSumOfTail(bytes, n - 1);
    }
  }

  lemma {:induction false} WordsSum(bytes: seq<U8>)
    ensures Sum(Words(bytes)) == ByteSum(bytes, |bytes|)
  {
    if |bytes| == 1 {
      assert ByteSum(bytes, 0) == 0;
    } else if |bytes| >= 2 {
      WordsSum(bytes[2..]);
      ByteSumOfTail(bytes, |bytes|);
    }
  }

  /** What the changes e0..e3 of bytes p..p + 3 do to the sum of the first n bytes. */
  function FieldMoved(p: nat, n: nat, e0: int, e1: int, e2: int, e3: int): int {
    (if n > p then Moved(p, e0) else 0) + (if n > p + 1 then Moved(p + 1, e1) else 0)
    + (if n > p + 2 then Moved(p + 2, e2) else 0) + (if n > p + 3 then Moved(p + 3, e3) else 0)
  }

  lemma {:induction false} FourBytesMove(a: seq<U8>, b: seq<U8>, p: nat, n: nat, e0: int, e1: int, e2: int, e3: int)
    requires p + 4 <= |a| == |b| && n <= |a|
    requires e0 == b[p] as int - a[p] as int && e1 == b[p + 1] as int - a[p + 1] as int
    requires e2 == b[p + 2] as int - a[p + 2] as int && e3 == b[p + 3] as int - a[p + 3] as int
    requires forall i :: 0 <= i < |a| && !(p <= i < p + 4) ==> a[i] == b[i]
    ensures ByteSum(b, n) == ByteSum(a, n) + FieldMoved(p, n, e0, e1, e2, e3)
  {
    if n > 0 {
      FourBytesMove(a, b, p, n - 1, e0, e1, e2, e3);
    }
  }

  /** A field at an even offset moves the sum by exactly its own change modulo 65535; at an odd offset
      the change comes out byte-swapped. */
  lemma FieldMoves(a: seq<U8>, b: seq<U8>, p: nat, n: nat)
    requires p + 4 <= n <= |a| == |b|
    requires forall i :: 0 <= i < |a| && !(p <= i < p + 4) ==> a[i] == b[i]
    ensures var grown := ByteSum(b, n) - ByteSum(a, n);
            var diff := Get32(b, p) - Get32(a, p);
            Same(grown, if p % 2 == 0 then diff else 256 * diff)
  {
    var e0: int := b[p] as int - a[p] as int;
    var e1: int := b[p + 1] as int - a[p + 1] as int;
    var e2: int := b[p + 2] as int - a[p + 2] as int;
    var e3: int := b[p + 3] as int - a[p + 3] as int;
    FourBytesMove(a, b, p, n, e0, e1, e2, e3);
    Be32Difference(b[p], b[p + 1], b[p + 2], b[p + 3], a[p], a[p + 1], a[p + 2], a[p + 3]);
    WeighedBytes(e0, e1, e2, e3, FieldMoved(p, n, e0, e1, e2, e3), Be32(e0, e1, e2, e3), p);
  }

  lemma Be32Difference(a0: int, a1: int, a2: int, a3: int, b0: int, b1: int, b2: int, b3: int)
    ensures Be32(a0, a1, a2, a3) - Be32(b0, b1, b2, b3) == Be32(a0 - b0, a1 - b1, a2 - b2, a3 - b3)
  {
  }

  lemma WeighedBytes(e0: int, e1: int, e2: int, e3: int, grown: int, diff: int, p: nat)
    requires grown == Moved(p, e0) + Moved(p + 1, e1) + Moved(p + 2, e2) + Moved(p + 3, e3)
    requires diff == Be32(e0, e1, e2, e3)
    ensures Same(grown, if p % 2 == 0 then diff else 256 * diff)
  {
    if p % 2 == 0 {
      MultipleApart(grown, diff, 0 - 256 * e0 - e1);
    } else {
      MultipleApart(grown, 256 * diff, 0 - 65537 * e0 - 256 * e1 - e2);
    }
  }

  ghost predicate AllEven(edges: seq<nat>) {
    forall i :: 0 <= i < |edges| ==> edges[i] % 2 == 0
  }

  /** By how much the edges at odd offsets grow together. */
  function OddGrowth(buf: seq<U8>, edges: seq<nat>, d: Delta): int
    requires Apart(edges, 0, |buf|)
  {
    if edges == [] then 0
    else
      var n := |edges| - 1;
      OddGrowth(buf, edges[..n], d) + if edges[n] % 2 == 0 then 0 else Apply(d, Get32(buf, edges[n])) - Get32(buf, edges[n])
  }

  lemma {:induction false} EvenEdgesOnly(buf: seq<U8>, edges: seq<nat>, d: Delta)
    requires Apart(edges, 0, |buf|) && AllEven(edges)
    ensures OddGrowth(buf, edges, d) == 0
  {
    if edges != [] {
      EvenEdgesOnly(buf, edges[..|edges| - 1], d);
    }
  }

  /** From buf to r the sum of the first n bytes grew by growth, modulo 65535. */
  ghost predicate SumFollows(buf: seq<U8>, r: seq<U8>, n: nat, growth: int)
    requires n <= |buf| == |r|
  {
    Same(ByteSum(r, n) - ByteSum(buf, n), growth)
  }

  /** One more edge; at an odd offset its change counts 256 times. */
  lemma OneEdgeMovesSum(buf: seq<U8>, b: seq<U8>, r: seq<U8>, e: nat, n: nat, growth: int, diff: int)
    requires e + 4 <= n <= |buf| == |b| == |r|
    requires forall i :: 0 <= i < |b| && !(e <= i < e + 4) ==> b[i] == r[i]
    requires diff == Get32(r, e) - Get32(b, e)
    requires SumFollows(buf, b, n, growth)
    ensures SumFollows(buf, r, n, growth + diff + 255 * if e % 2 == 0 then 0 else diff)
  {
    FieldMoves(b, r, e, n);
    SameTogether(ByteSum(b, n) - ByteSum(buf, n), growth, ByteSum(r, n) - ByteSum(b, n),
                 if e % 2 == 0 then diff else 256 * diff);
  }

  /** Shifting edges moves the sum by their growth, and by 255 times more of those at odd offsets. */
  lemma {:induction false} ShiftMovesSum(buf: seq<U8>, edges: seq<nat>, d: Delta, n: nat)
    requires Apart(edges, 0, n) && n <= |buf|
    ensures SumFollows(buf, Shift(buf, edges, d), n, Growth(buf, edges, d) + 255 * OddGrowth(buf, edges, d))
  {
    hide *;
    if edges != [] {
      var last := |edges| - 1;
      ApartWithin(edges, n, |buf|);
      ShortenApart(edges, n);
      ShortenApart(edges, |buf|);
      var b, r := Shift(buf, edges[..last], d), Shift(buf, edges, d);
      ShiftMovesSum(buf, edges[..last], d, n);
      LastEdgeGrows(buf, edges, d);
      OneEdgeMovesSum(buf, b, r, edges[last], n, Growth(buf, edges[..last], d) + 255 * OddGrowth(buf, edges[..last], d),
                      Get32(r, edges[last]) - Get32(b, edges[last]));
    } else {
      ApartWithin(edges, n, |buf|);
      GrowthOfNone(buf, edges, d);
      NothingMovesSum(buf, n);
    }
  }

  lemma ApartWithin(edges: seq<nat>, hi: int, hi': int)
    requires Apart(edges, 0, hi) && hi <= hi'
    ensures Apart(edges, 0, hi')
  {
  }

  lemma ShortenApart(edges: seq<nat>, hi: int)
    requires Apart(edges, 0, hi) && edges != []
    ensures Apart(edges[..|edges| - 1], 0, hi) && edges[|edges| - 1] + 4 <= hi
  {
  }

  lemma NothingMovesSum(buf: seq<U8>, n: nat)
    requires n <= |buf|
    ensures SumFollows(buf, buf, n, 0)
  {
    assert ByteSum(buf, n) - ByteSum(buf, n) - 0 == 0;
  }

  /** What the last edge adds. */
  lemma LastEdgeGrows(buf: seq<U8>, edges: seq<nat>, d: Delta)
    requires Apart(edges, 0, |buf|) && edges != []
    ensures var n, e := |edges| - 1, edges[|edges| - 1];
            var b, r := Shift(buf, edges[..n], d), Shift(buf, edges, d);
            var diff := Get32(r, e) - Get32(b, e);
            && Growth(buf, edges, d) == Growth(buf, edges[..n], d) + diff
            && OddGrowth(buf, edges, d) == OddGrowth(buf, edges[..n], d) + (if e % 2 == 0 then 0 else diff)
            && forall i :: 0 <= i < |buf| && !(e <= i < e + 4) ==> b[i] == r[i]
  {
    hide Apply, Get32;
    LastEdgeValue(buf, edges, d);
  }

  lemma LastEdgeValue(buf: seq<U8>, edges: seq<nat>, d: Delta)
    requires Apart(edges, 0, |buf|) && edges != []
    ensures var n := |edges| - 1;
            Get32(Shift(buf, edges[..n], d), edges[n]) == Get32(buf, edges[n])
  {
    var n := |edges| - 1;
    LastEdgeUntouched(buf, edges, d, edges[n]);
    LastEdgeUntouched(buf, edges, d, edges[n] + 1);
    LastEdgeUntouched(buf, edges, d, edges[n] + 2);
    LastEdgeUntouched(buf, edges, d, edges[n] + 3);
  }

  /** The next edge in a left-to-right pass. */
  lemma OneMoreEdge(buf: seq<U8>, done: seq<nat>, e: nat, d: Delta)
    requires Apart(done, 0, e) && e + 4 <= |buf|
    ensures Apart(done + [e], 0, e + 4)
    ensures var b := Shift(buf, done, d);
            && Get32(b, e) == Get32(buf, e)
            && Shift(buf, done + [e], d) == Put32(b, e, Apply(d, Get32(buf, e)))
            && Growth(buf, done + [e], d) == Growth(buf, done, d) + Apply(d, Get32(buf, e)) - Get32(buf, e)
  {
    assert (done + [e])[..|done|] == done;
    LastEdgeValue(buf, done + [e], d);
  }

  lemma GrowthOfNone(buf: seq<U8>, edges: seq<nat>, d: Delta)
    requires Apart(edges, 0, |buf|)
    ensures edges == [] ==> Growth(buf, edges, d) == 0 && OddGrowth(buf, edges, d) == 0 && Shift(buf, edges, d) == buf
  {
  }

  /** The edges of a decoded list, one option at a time. */
  lemma EdgesInFront(buf: seq<U8>, pos: nat, end: int)
    requires pos < end < |buf| && buf[pos] != EOL && buf[pos] != NOP && 2 <= buf[pos + 1] <= end - pos
    ensures var size := buf[pos + 1];
            var rest := Edges(Decode(buf, pos + size, end).0);
            Edges(Decode(buf, pos, end).0) ==
            if buf[pos] == SACK && size >= 10 && (size - 2) % 8 == 0 then Span(pos + 2, (size - 2) / 4) + rest else rest
  {
    hide Decode, Span;
    DecodeOption(buf, pos, end);
  }

  lemma NoEdgesAtEnd(buf: seq<U8>, pos: nat, end: int)
    requires pos < end ==> end < |buf|
    ensures Decode(buf, pos, end).0 == [] ==> Edges(Decode(buf, pos, end).0) == []
  {
  }

  lemma SpanGrows(from: nat, n: nat)
    ensures Span(from, n) + [from + 4 * n] == Span(from, n + 1)
  {
  }
}
