/** What the descriptors of a frame are for: they hold its bytes in order, and each hardware erratum is
    worked around. Nothing here says how a frame is cut. */
module TxErrata {
  import opened Powers
  import opened Serial
  import opened TxReserve

  // ----- the bytes

  /** Addresses of size bytes. */
  function Span(addr: nat, size: nat): seq<nat> {
    seq(size, i requires 0 <= i => addr + i)
  }

  /** The addresses the hardware reads, descriptor by descriptor. */
  function Bytes(pieces: seq<Buf>): seq<nat> {
    if pieces == [] then [] else Bytes(pieces[..|pieces| - 1]) + Span(pieces[|pieces| - 1].addr, pieces[|pieces| - 1].size)
  }

  /** The addresses of the head and the first n fragments. */
  function FrameBytes(f: Frame, n: nat): seq<nat>
    requires n <= |f.frags|
  {
    if n == 0 then Span(f.head.addr, f.head.size)
    else FrameBytes(f, n - 1) + Span(f.frags[n - 1].page + f.frags[n - 1].skip, f.frags[n - 1].size)
  }

  lemma {:induction false} BytesOfBoth(a: seq<Buf>, b: seq<Buf>)
    ensures Bytes(a + b) == Bytes(a) + Bytes(b)
    decreases |b|
  {
    hide Span;
    if b == [] {
      assert a + b == a;
    } else {
      var n := |b| - 1;
      assert (a + b)[..|a| + n] == a + b[..n] && (a + b)[|a| + n] == b[n];
      BytesOfBoth(a, b[..n]);
      Together(Bytes(a), Bytes(b[..n]), Span(b[n].addr, b[n].size));
    }
  }

  lemma Together<T>(a: seq<T>, b: seq<T>, c: seq<T>)
    ensures (a + b) + c == a + (b + c)
  {
  }

  lemma SpanOfBoth(addr: nat, m: nat, n: nat)
    ensures Span(addr, m) + Span(addr + m, n) == Span(addr, m + n)
  {
  }

  lemma {:induction false} LocatedBytes(addr: nat, sizes: seq<nat>)
    ensures Bytes(Located(addr, sizes)) == Span(addr, Total(sizes))
    decreases |sizes|
  {
    if sizes != [] {
      LocatedBytes(addr + sizes[0], sizes[1..]);
      BytesOfBoth([Buf(addr, sizes[0])], Located(addr + sizes[0], sizes[1..]));
      assert [Buf(addr, sizes[0])][..0] == [];
      SpanOfBoth(addr, sizes[0], Total(sizes[1..]));
    }
  }

  /** The descriptors hold every byte of the frame once, in order. */
  lemma {:induction false} PiecesHoldFrame(f: Frame, e: Errata, n: nat)
    requires Sendable(f, e) && n <= |f.frags|
    ensures Bytes(FramePieces(f, e, n)) == FrameBytes(f, n)
  {
    hide HeadOf, FragAt, Span, Bytes, Located, Sendable;
    if n == 0 {
      HeadBytes(f, e);
    } else {
      PiecesHoldFrame(f, e, n - 1);
      FragBytes(f, n - 1, e.pcix82544);
      BytesOfBoth(FramePieces(f, e, n - 1), FragAt(f, n - 1, e.pcix82544));
    }
  }

  lemma HeadBytes(f: Frame, e: Errata)
    requires Sendable(f, e)
    ensures Bytes(Located(f.head.addr, HeadOf(f, e))) == Span(f.head.addr, f.head.size)
  {
    FramePartition(f, e);
    LocatedBytes(f.head.addr, HeadOf(f, e));
    hide HeadOf, Located, Bytes, Span;
  }

  lemma FragBytes(f: Frame, k: nat, hang: bool)
    requires k < |f.frags|
    ensures Bytes(FragAt(f, k, hang)) == Span(f.frags[k].page + f.frags[k].skip, f.frags[k].size)
  {
    PiecesPartition(f.frags[k].page, f.frags[k].size, MaxPerTxd(f), f.mss != 0 && k == |f.frags| - 1, hang);
    LocatedBytes(f.frags[k].page + f.frags[k].skip, FragPieces(f, k, hang));
    hide Pieces, Located, Bytes, Span, MaxPerTxd;
  }

  // ----- every piece

  /** The sizes of pieces, taken on their own. */
  lemma {:induction false} LocatedSizes(addr: nat, sizes: seq<nat>)
    ensures forall k :: 0 <= k < |sizes| ==> Located(addr, sizes)[k].size == sizes[k]
    decreases |sizes|
  {
    if sizes != [] {
      LocatedSizes(addr + sizes[0], sizes[1..]);
      forall k | 0 <= k < |sizes|
        ensures Located(addr, sizes)[k].size == sizes[k]
      {
        if k > 0 {
          assert sizes[k] == sizes[1..][k - 1];
        }
      }
    }
  }

  /** A descriptor carries up to 4096 bytes, and up to four segments of TSO. */
  predicate Fits(f: Frame, d: Buf) {
    0 < d.size <= 4096 && (f.mss != 0 ==> d.size <= 4 * f.mss)
  }

  lemma {:induction false} PiecesFit(f: Frame, e: Errata, n: nat)
    requires Sendable(f, e) && n <= |f.frags|
    ensures forall d :: d in FramePieces(f, e, n) ==> Fits(f, d)
  {
    FramePartition(f, e);
    MaxFits(f);
    hide HeadOf, FragPieces, Located, MaxPerTxd, Fits;
    if n == 0 {
      AllFit(f, f.head.addr, HeadOf(f, e), f.head.size);
    } else {
      PiecesFit(f, e, n - 1);
      AllFit(f, f.frags[n - 1].page + f.frags[n - 1].skip, FragPieces(f, n - 1, e.pcix82544), f.frags[n - 1].size);
    }
  }

  lemma AllFit(f: Frame, addr: nat, sizes: seq<nat>, len: nat)
    requires Partition(sizes, len, MaxPerTxd(f))
    ensures forall d :: d in Located(addr, sizes) ==> Fits(f, d)
  {
    MaxFits(f);
    hide Located, MaxPerTxd, Fits;
    LocatedSizes(addr, sizes);
  }

  lemma MaxFits(f: Frame)
    ensures forall d: Buf :: 0 < d.size <= MaxPerTxd(f) ==> Fits(f, d)
  {
  }

  // ----- premature write-back in TSO: a small last descriptor

  lemma {:induction false} LastIsSmall(addr: nat, len: nat, max: nat, hang: bool)
    requires max > 0 && len > 0
    ensures var sizes := Pieces(addr, len, max, true, hang); sizes != [] && sizes[|sizes| - 1] <= 8
    decreases len
  {
    hide EvenDword;
    var size := PieceSize(addr, len, max, true, hang);
    if size < len {
      LastIsSmall(addr + size, len - size, max, hang);
    }
  }

  /** What is left of len bytes after all full pieces. */
  function Tail(len: nat, max: nat): nat
    requires max > 0
  {
    if len <= max then len else Tail(len - max, max)
  }

  /** Off the 82544 the last piece of a TSO fragment is a sentinel of four bytes, unless what is left after
      the full pieces is eight bytes or less. */
  lemma {:induction false} LastIsSentinel(addr: nat, len: nat, max: nat)
    requires max > 0 && len > 0
    ensures var sizes := Pieces(addr, len, max, true, false);
            sizes != [] && sizes[|sizes| - 1] == if Tail(len, max) > 8 then 4 else Tail(len, max)
    decreases len
  {
    var size := PieceSize(addr, len, max, true, false);
    if len > max {
      LastIsSentinel(addr + size, len - size, max);
    } else if size < len {
      assert Pieces(addr + size, 4, max, true, false) == [4];
    }
  }

  lemma HeadLastIsSmall(f: Frame, e: Errata)
    requires Sendable(f, e) && f.mss != 0 && f.frags == []
    ensures var sizes := HeadOf(f, e); sizes != [] && sizes[|sizes| - 1] <= 8
  {
    FirstRange(f.head.addr, f.head.size, MaxPerTxd(f), true, e);
    var size := FirstSize(f.head.addr, f.head.size, MaxPerTxd(f), true, e);
    if size < f.head.size {
      hide FirstSize, Pieces;
      LastIsSmall(f.head.addr + size, f.head.size - size, MaxPerTxd(f), e.pcix82544);
    } else {
      hide EvenDword, Pieces;
      assert Pieces(f.head.addr + size, 0, MaxPerTxd(f), true, e.pcix82544) == [];
    }
  }

  /** The last byte is not in the linear part only to be followed by an empty fragment. */
  predicate EndsInData(f: Frame) {
    f.frags == [] || f.frags[|f.frags| - 1].size > 0
  }

  lemma SentinelIsFour(f: Frame, e: Errata)
    requires Sendable(f, e) && f.mss != 0 && f.frags != [] && EndsInData(f) && !e.pcix82544
    ensures var pieces, left := FramePieces(f, e, |f.frags|), Tail(f.frags[|f.frags| - 1].size, MaxPerTxd(f));
            pieces != [] && pieces[|pieces| - 1].size == if left > 8 then 4 else left
  {
    var k := |f.frags| - 1;
    LastIsSentinel(f.frags[k].page, f.frags[k].size, MaxPerTxd(f));
    hide Located, Pieces, MaxPerTxd, HeadOf, Tail;
    LocatedSizes(f.frags[k].page + f.frags[k].skip, FragPieces(f, k, false));
  }

  lemma SentinelIsSmall(f: Frame, e: Errata)
    requires Sendable(f, e) && f.mss != 0 && EndsInData(f)
    ensures var pieces := FramePieces(f, e, |f.frags|); pieces != [] && pieces[|pieces| - 1].size <= 8
  {
    hide Located, Pieces, MaxPerTxd, HeadOf;
    if f.frags == [] {
      HeadLastIsSmall(f, e);
      LocatedSizes(f.head.addr, HeadOf(f, e));
    } else {
      LastFragIsSmall(f, |f.frags| - 1, e.pcix82544);
      hide FragAt;
    }
  }

  lemma LastFragIsSmall(f: Frame, k: nat, hang: bool)
    requires f.mss != 0 && k + 1 == |f.frags| && f.frags[k].size > 0
    ensures var pieces := FragAt(f, k, hang); pieces != [] && pieces[|pieces| - 1].size <= 8
  {
    hide Located, Pieces, MaxPerTxd;
    LastIsSmall(f.frags[k].page, f.frags[k].size, MaxPerTxd(f), hang);
    LocatedSizes(f.frags[k].page + f.frags[k].skip, FragPieces(f, k, hang));
  }

  // ----- the first descriptor

  lemma {:induction false} FirstPiece(f: Frame, e: Errata, n: nat)
    requires Sendable(f, e) && n <= |f.frags|
    ensures var pieces := FramePieces(f, e, n);
            && pieces != [] && pieces[0].addr == f.head.addr
            && pieces[0].size == FirstSize(f.head.addr, f.head.size, MaxPerTxd(f), f.mss != 0 && f.frags == [], e)
  {
    hide FirstSize, Pieces, MaxPerTxd, FragAt;
    if n > 0 {
      FirstPiece(f, e, n - 1);
    }
  }

  lemma FirstIsShort(f: Frame, e: Errata)
    requires Sendable(f, e)
    ensures var size := FirstSize(f.head.addr, f.head.size, MaxPerTxd(f), f.mss != 0 && f.frags == [], e);
            && (e.pcix ==> size <= 2015) && (e.afterTso ==> size + 4 <= f.head.size)
  {
    hide EvenDword;
  }

  // ----- the 82544

  /** A descriptor of more than four bytes does not end in an even dword. */
  predicate EndsWell(d: Buf) {
    d.size > 4 ==> !EvenDword(d.addr + d.size - 1)
  }

  /** The test reckons from addr, the bytes are skip further on. */
  lemma {:induction false} PiecesEndWell(addr: nat, skip: nat, len: nat, max: nat, sentinel: bool)
    requires max > 0 && Eights(skip)
    ensures forall d :: d in Located(addr + skip, Pieces(addr, len, max, sentinel, true)) ==> EndsWell(d)
    decreases len
  {
    if len > 0 {
      var size := PieceSize(addr, len, max, sentinel, true);
      DodgeEndsWell(addr, skip, LeaveSentinel(Min(len, max), len, sentinel));
      PiecesEndWell(addr + size, skip, len - size, max, sentinel);
      hide PieceSize, EndsWell, Eights;
      assert addr + size + skip == addr + skip + size;
    }
  }

  lemma DodgeEndsWell(addr: nat, skip: nat, size: nat)
    requires Eights(skip) && size > 0
    ensures var left := Dodge(addr, size, true); 0 < left <= size && EndsWell(Buf(addr + skip, left))
  {
    DwordsAlternate(addr + size - 1);
    DwordsRepeat(addr + size - 1, skip);
    if size > 4 {
      DwordsRepeat(addr + size - 5, skip);
    }
    hide EvenDword, Eights;
  }

  lemma HeadEndsWell(f: Frame, e: Errata)
    requires Sendable(f, e) && e.pcix82544
    ensures forall d :: d in Located(f.head.addr, HeadOf(f, e)) ==> EndsWell(d)
  {
    hide FirstSize, EndsWell, Pieces, HeadOf, Located;
    var sentinel := f.mss != 0 && f.frags == [];
    FirstOfHead(f, e);
    FirstEndsWell(f, e);
    var size := FirstSize(f.head.addr, f.head.size, MaxPerTxd(f), sentinel, e);
    var rest := Pieces(f.head.addr + size, f.head.size - size, MaxPerTxd(f), sentinel, true);
    PiecesEndWell(f.head.addr + size, 0, f.head.size - size, MaxPerTxd(f), sentinel);
    FrontOfAll([], f.head.addr, size, rest);
    assert [] + Located(f.head.addr, [size] + rest) == Located(f.head.addr, HeadOf(f, e));
    assert f.head.addr + size + 0 == f.head.addr + size;
  }

  lemma FirstEndsWell(f: Frame, e: Errata)
    requires Sendable(f, e) && e.pcix82544
    ensures EndsWell(Buf(f.head.addr, FirstSize(f.head.addr, f.head.size, MaxPerTxd(f), f.mss != 0 && f.frags == [], e)))
  {
    var size := Min(f.head.size, MaxPerTxd(f)) - if e.afterTso then 4 else 0;
    var left := LeaveSentinel(size, f.head.size, f.mss != 0 && f.frags == []);
    DodgeEndsWell(f.head.addr, 0, if e.pcix && left > 2015 then 2015 else left);
    hide EndsWell;
  }

  /** No fragment leaves out the front of its page, or only whole dword pairs of it. */
  predicate SkipsPairs(f: Frame) {
    forall k :: 0 <= k < |f.frags| ==> Eights(f.frags[k].skip)
  }

  lemma {:induction false} FrameEndsWell(f: Frame, e: Errata, n: nat)
    requires Sendable(f, e) && e.pcix82544 && SkipsPairs(f) && n <= |f.frags|
    ensures forall d :: d in FramePieces(f, e, n) ==> EndsWell(d)
  {
    hide EndsWell, Pieces, Located, MaxPerTxd, HeadOf, Eights;
    if n == 0 {
      HeadEndsWell(f, e);
    } else {
      FrameEndsWell(f, e, n - 1);
      PiecesEndWell(f.frags[n - 1].page, f.frags[n - 1].skip, f.frags[n - 1].size, MaxPerTxd(f), f.mss != 0 && n == |f.frags|);
    }
  }

  /** Fragments with this much left out of their page never hang the 82544. */
  ghost predicate NeverHangs(skip: nat, max: nat)
    requires max > 0
  {
    forall page, len, sentinel | Eights(page) :: FragEndsWell(page, skip, len, max, sentinel)
  }

  predicate FragEndsWell(page: nat, skip: nat, len: nat, max: nat, sentinel: bool)
    requires max > 0
  {
    forall d :: d in Located(page + skip, Pieces(page, len, max, sentinel, true)) ==> EndsWell(d)
  }

  /** The dword test forgets what is left out of the page, so it does its job exactly when that is a
      multiple of eight bytes. */
  lemma NeverHangsExactlyWhen(skip: nat, max: nat)
    requires max >= 8
    ensures NeverHangs(skip, max) <==> Eights(skip)
  {
    if Eights(skip) {
      forall page, len, sentinel | Eights(page)
        ensures FragEndsWell(page, skip, len, max, sentinel)
      {
        PiecesEndWell(page, skip, len, max, sentinel);
      }
    } else {
      assert Eights(0);
      SkippedFragmentHangs(0, skip, max);
    }
  }

  /** Eight bytes of any page, or five, for instance. */
  lemma SkippedFragmentHangs(page: nat, skip: nat, max: nat)
    requires max >= 8 && Eights(page) && !Eights(skip)
    ensures var len := if skip % 8 <= 4 then 8 else 5; !FragEndsWell(page, skip, len, max, false)
  {
    var len := if skip % 8 <= 4 then 8 else 5;
    assert !EvenDword(len - 1) && EvenDword(skip + len - 1);
    DwordsRepeat(len - 1, page);
    DwordsRepeat(skip + len - 1, page);
    hide EvenDword, Eights;
    assert len - 1 + page == page + len - 1 && skip + len - 1 + page == page + skip + len - 1;
    assert Pieces(page, len, max, false, true) == [len];
    assert Located(page + skip, [len]) == [Buf(page + skip, len)];
    var d := Buf(page + skip, len);
    assert d in Located(page + skip, Pieces(page, len, max, false, true)) && !EndsWell(d);
  }

  // ----- nothing is cut without reason

  /** The bytes of a frame are its head and its data. */
  lemma {:induction false} FrameLength(f: Frame, n: nat)
    requires n <= |f.frags|
    ensures |FrameBytes(f, n)| == f.head.size + DataLen(f.frags[..n])
  {
    if n > 0 {
      FrameLength(f, n - 1);
      assert f.frags[..n][..n - 1] == f.frags[..n - 1];
    }
  }

  /** The fewest descriptors that can carry len bytes. */
  function Fewest(len: nat): nat {
    if len == 0 then 0 else Quota(len, 4096)
  }

  function FewestFor(f: Frame, n: nat): nat
    requires n <= |f.frags|
  {
    if n == 0 then Fewest(f.head.size) else FewestFor(f, n - 1) + Fewest(f.frags[n - 1].size)
  }

  lemma {:induction false} FullPieces(addr: nat, len: nat)
    ensures |Pieces(addr, len, 4096, false, false)| == Fewest(len)
    decreases len
  {
    if len > 0 {
      FullPieces(addr + Min(len, 4096), len - Min(len, 4096));
    }
  }

  /** Off PCI-X a frame without TSO takes the fewest descriptors possible, unless it is linear and the first
      one after TSO. */
  lemma {:induction false} UncutFrame(f: Frame, lastTxTso: bool, n: nat)
    requires f.head.size > 0 && f.mss == 0 && (DataLen(f.frags) > 0 || !lastTxTso) && n <= |f.frags|
    ensures |FramePieces(f, ErrataFor(false, false, lastTxTso, f), n)| == FewestFor(f, n)
  {
    if n == 0 {
      FullPieces(f.head.addr, f.head.size);
      PlainHead(f.head.addr, f.head.size, 4096, false, ErrataFor(false, false, lastTxTso, f));
    } else {
      UncutFrame(f, lastTxTso, n - 1);
      FullPieces(f.frags[n - 1].page, f.frags[n - 1].size);
      hide Pieces, Fewest, DataLen;
    }
  }

  // ----- how much too many descriptors are reserved

  lemma {:induction false} TotalNeedsPieces(sizes: seq<nat>, max: nat)
    requires forall i :: 0 <= i < |sizes| ==> sizes[i] <= max
    ensures Total(sizes) <= |sizes| * max
  {
    if sizes != [] {
      TotalNeedsPieces(sizes[1..], max);
      assert |sizes| * max == |sizes[1..]| * max + max;
    }
  }

  /** The shift at most halves what a descriptor is taken to carry. */
  lemma CountedTwice(f: Frame, size: nat, sizes: seq<nat>)
    requires Partition(sizes, size, MaxPerTxd(f))
    ensures UseCount(size, MaxTxdPwr(f)) <= if size == 0 then 1 else 2 * |sizes|
  {
    var p := Pow2(MaxTxdPwr(f));
    HalfIsLess(f);
    hide MaxPerTxd, MaxTxdPwr, Pow2, Div;
    TotalNeedsPieces(sizes, MaxPerTxd(f));
    Times(|sizes|, MaxPerTxd(f), 2 * p - 1);
    QuotientBelow(size, p, |sizes|);
  }

  lemma HalfIsLess(f: Frame)
    ensures MaxPerTxd(f) < 2 * Pow2(MaxTxdPwr(f))
  {
    Pow12();
    FlsBounds(MaxPerTxd(f));
  }

  lemma QuotientBelow(size: nat, p: nat, k: nat)
    requires p > 0 && size <= k * (2 * p - 1)
    ensures Div(size, p) + 1 <= if size == 0 then 1 else 2 * k
  {
    if size > 0 {
      assert size < 2 * k * p;
      assert size == p * (size / p) + size % p;
      if size / p >= 2 * k {
        assert p * (size / p) >= p * (2 * k);
      }
    }
  }

  lemma {:induction false} FragsCountedTwice(f: Frame, n: nat, hang: bool)
    requires n <= |f.frags|
    ensures FragReserve(f, n) <= 2 * FragCount(f, n, hang) + n
  {
    if n > 0 {
      FragsCountedTwice(f, n - 1, hang);
      PiecesPartition(f.frags[n - 1].page, f.frags[n - 1].size, MaxPerTxd(f), f.mss != 0 && n == |f.frags|, hang);
      CountedTwice(f, f.frags[n - 1].size, FragPieces(f, n - 1, hang));
      hide UseCount, Pieces, MaxPerTxd, MaxTxdPwr;
    }
  }

  /** At most twice what the frame takes is reserved, and four more and two per fragment. */
  lemma ReservationIsModest(f: Frame, e: Errata)
    requires Sendable(f, e)
    ensures Reserve(f, e) <= ContextCount(f) + 2 * |FramePieces(f, e, |f.frags|)| + 4 + 2 * |f.frags|
  {
    FramePartition(f, e);
    CountedTwice(f, f.head.size, HeadOf(f, e));
    FragsCountedTwice(f, |f.frags|, e.pcix82544);
    hide UseCount, HeadOf, FragCount, FragReserve, MaxTxdPwr;
  }

  // ----- all together

  /** What the driver promises the hardware about the descriptors of a frame. */
  ghost predicate WorksAround(f: Frame, e: Errata, pieces: seq<Buf>) {
    && pieces != [] && Bytes(pieces) == FrameBytes(f, |f.frags|)
    && (forall d :: d in pieces ==> Fits(f, d))
    && (f.mss != 0 && EndsInData(f) ==> pieces[|pieces| - 1].size <= 8)
    && (e.pcix ==> pieces[0].size <= 2015)
    && (e.afterTso ==> pieces[0].size + 4 <= f.head.size)
    && (e.pcix82544 && SkipsPairs(f) ==> forall d :: d in pieces ==> EndsWell(d))
  }

  /** The pieces of every frame keep the promise. */
  lemma ErrataWorkedAround(f: Frame, e: Errata)
    requires Sendable(f, e)
    ensures WorksAround(f, e, FramePieces(f, e, |f.frags|))
  {
    hide FramePieces, FirstSize, MaxPerTxd, Bytes, FrameBytes, Fits, EndsInData, SkipsPairs, EndsWell;
    PiecesHoldFrame(f, e, |f.frags|);
    PiecesFit(f, e, |f.frags|);
    FirstPiece(f, e, |f.frags|);
    FirstIsShort(f, e);
    if f.mss != 0 && EndsInData(f) {
      SentinelIsSmall(f, e);
    }
    if e.pcix82544 && SkipsPairs(f) {
      FrameEndsWell(f, e, |f.frags|);
    }
  }
}
