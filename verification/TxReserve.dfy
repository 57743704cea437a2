/** How e1000 cuts a frame into transmit descriptors, with the errata that make pieces smaller, and why
    the descriptors reserved beforehand are enough. */
module TxReserve {
  import opened Powers
  import opened Serial

  /** Bytes in memory: the linear part of a frame, or what one descriptor sends. */
  datatype Buf = Buf(addr: nat, size: nat)

  /** A fragment: size bytes of a page, the first skip bytes left out. */
  datatype Frag = Frag(page: nat, skip: nat, size: nat)

  /** A frame to send: mss is not zero for TSO; partial asks for a checksum in hardware. */
  datatype Frame = Frame(head: Buf, frags: seq<Frag>, mss: U16, partial: bool)

  /** The errata that apply: PCI-X bus, 82544 on PCI-X, first linear frame after TSO frames. */
  datatype Errata = Errata(pcix: bool, pcix82544: bool, afterTso: bool)

  const MAX_TXD_PWR: nat := 12
  const MAX_DATA_PER_TXD: nat := 4096

  function Min(a: int, b: int): int {
    if a <= b then a else b
  }

  function MaxPerTxd(f: Frame): (max: nat)
    ensures max > 0 && (f.mss == 0 ==> max > 4)
  {
    if f.mss == 0 then MAX_DATA_PER_TXD else Min(4 * f.mss, MAX_DATA_PER_TXD)
  }

  function MaxTxdPwr(f: Frame): nat {
    FlsBounds(MaxPerTxd(f));
    if f.mss == 0 then MAX_TXD_PWR else Fls(MaxPerTxd(f)) - 1
  }

  // ----- cutting

  /** The byte at this address lies in an even dword: the 82544 must not end a buffer there. */
  predicate EvenDword(last: int) {
    last / 4 % 2 == 0
  }

  function Dodge(addr: nat, size: nat, hang: bool): nat {
    if hang && EvenDword(addr + size - 1) && size > 4 then size - 4 else size
  }

  function LeaveSentinel(size: nat, len: nat, sentinel: bool): nat {
    if sentinel && size == len && size > 8 then size - 4 else size
  }

  /** The size of the next piece of len bytes at addr. */
  function PieceSize(addr: nat, len: nat, max: nat, sentinel: bool, hang: bool): nat {
    Dodge(addr, LeaveSentinel(Min(len, max), len, sentinel), hang)
  }

  /** The same for the first piece of the head. */
  function FirstSize(addr: nat, len: nat, max: nat, sentinel: bool, e: Errata): nat
    requires e.afterTso ==> len > 4 && max > 4
  {
    var size := Min(len, max) - if e.afterTso then 4 else 0;
    var left := LeaveSentinel(size, len, sentinel);
    Dodge(addr, if e.pcix && left > 2015 then 2015 else left, e.pcix82544)
  }

  function Pieces(addr: nat, len: nat, max: nat, sentinel: bool, hang: bool): seq<nat>
    requires max > 0
    decreases len
  {
    if len == 0 then []
    else
      var size := PieceSize(addr, len, max, sentinel, hang);
      [size] + Pieces(addr + size, len - size, max, sentinel, hang)
  }

  function HeadPieces(addr: nat, len: nat, max: nat, sentinel: bool, e: Errata): seq<nat>
    requires max > 0 && len > 0 && (e.afterTso ==> len > 4 && max > 4)
  {
    var size := FirstSize(addr, len, max, sentinel, e);
    [size] + Pieces(addr + size, len - size, max, sentinel, e.pcix82544)
  }

  function Total(sizes: seq<nat>): nat {
    if sizes == [] then 0 else sizes[0] + Total(sizes[1..])
  }

  /** The sizes cut len bytes into nonempty parts that one descriptor can carry. */
  ghost predicate Partition(sizes: seq<nat>, len: nat, max: nat) {
    Total(sizes) == len && forall i :: 0 <= i < |sizes| ==> 0 < sizes[i] <= max
  }

  lemma PartInFront(size: nat, rest: seq<nat>, len: nat, max: nat)
    requires 0 < size <= max && size <= len && Partition(rest, len - size, max)
    ensures Partition([size] + rest, len, max)
  {
    assert ([size] + rest)[1..] == rest;
  }

  lemma {:induction false} PiecesPartition(addr: nat, len: nat, max: nat, sentinel: bool, hang: bool)
    requires max > 0
    ensures Partition(Pieces(addr, len, max, sentinel, hang), len, max)
    decreases len
  {
    if len > 0 {
      var size := PieceSize(addr, len, max, sentinel, hang);
      hide Partition, EvenDword;
      PiecesPartition(addr + size, len - size, max, sentinel, hang);
      PartInFront(size, Pieces(addr + size, len - size, max, sentinel, hang), len, max);
    }
  }

  lemma FirstRange(addr: nat, len: nat, max: nat, sentinel: bool, e: Errata)
    requires max > 0 && len > 0 && (e.afterTso ==> len > 4 && max > 4)
    ensures 0 < FirstSize(addr, len, max, sentinel, e) <= Min(len, max)
  {
    hide EvenDword;
  }

  lemma HeadPartition(addr: nat, len: nat, max: nat, sentinel: bool, e: Errata)
    requires max > 0 && len > 0 && (e.afterTso ==> len > 4 && max > 4)
    ensures Partition(HeadPieces(addr, len, max, sentinel, e), len, max)
  {
    var size := FirstSize(addr, len, max, sentinel, e);
    FirstRange(addr, len, max, sentinel, e);
    hide Partition, FirstSize, Pieces;
    PiecesPartition(addr + size, len - size, max, sentinel, e.pcix82544);
    PartInFront(size, Pieces(addr + size, len - size, max, sentinel, e.pcix82544), len, max);
  }

  // ----- how many pieces

  /** Pieces of p bytes, the last one perhaps smaller. */
  function Quota(len: nat, p: nat): nat
    requires len > 0 && p > 0
    decreases len
  {
    if len <= p then 1 else 1 + Quota(len - p, p)
  }

  lemma {:induction false} QuotaOfLess(less: nat, len: nat, p: nat)
    requires p > 0 && 0 < less <= len
    ensures Quota(less, p) <= Quota(len, p)
    decreases len
  {
    if less > p {
      QuotaOfLess(less - p, len - p, p);
    }
  }

  /** TXD_USE_COUNT never counts fewer. */
  lemma {:induction false} QuotaIsReserved(len: nat, p: nat)
    requires len > 0 && p > 0
    ensures Quota(len, p) <= Div(len, p) + 1
    decreases len
  {
    if len > p {
      QuotaIsReserved(len - p, p);
      OneMoreFits(len - p, p);
    }
  }

  lemma OneMoreFits(a: nat, p: nat)
    requires p > 0
    ensures (a + p) / p == a / p + 1
  {
    SameQuotient(p, (a + p) / p, a / p + 1, (a + p) % p, a % p);
  }

  /** Four bytes earlier or later is the other kind of dword. */
  lemma DwordsAlternate(last: int)
    ensures EvenDword(last - 4) <==> !EvenDword(last)
  {
  }

  predicate Eights(p: nat) {
    p % 8 == 0
  }

  lemma DwordsRepeat(last: int, p: nat)
    requires Eights(p)
    ensures EvenDword(last + p) <==> EvenDword(last)
  {
  }

  /** What fits one descriptor needs at most two, and four bytes need one. */
  lemma LastPieces(addr: nat, len: nat, max: nat, sentinel: bool, hang: bool)
    requires 0 < len <= max
    ensures |Pieces(addr, len, max, sentinel, hang)| <= if (sentinel || hang) && len > 4 then 2 else 1
  {
    var size := PieceSize(addr, len, max, sentinel, hang);
    DwordsAlternate(addr + len - 1);
    hide EvenDword;
    if size < len {
      var rest := len - size;
      assert rest == 4 || rest == 8;
      assert PieceSize(addr + size, rest, max, sentinel, hang) == rest;
    }
  }

  /** A piece that is not the last: full, or four bytes short of an even dword. */
  lemma PieceThenRest(addr: nat, len: nat, max: nat, sentinel: bool, hang: bool)
    requires 0 < max < len
    ensures var size := PieceSize(addr, len, max, sentinel, hang);
            && (size == max || (hang && max > 4 && size == max - 4 && EvenDword(addr + max - 1))) && 0 < size
            && (hang && max > 4 ==> !EvenDword(addr + size - 1))
            && |Pieces(addr, len, max, sentinel, hang)| == 1 + |Pieces(addr + size, len - size, max, sentinel, hang)|
  {
    DwordsAlternate(addr + max - 1);
    hide EvenDword;
  }

  /** Pieces are never smaller than p. */
  lemma {:induction false} LargePieces(addr: nat, len: nat, max: nat, p: nat, sentinel: bool, hang: bool)
    requires len > 0 && 4 <= p <= max && (p + 4 <= max || !hang || max == 4)
    ensures |Pieces(addr, len, max, sentinel, hang)| <= Quota(len, p) + if sentinel || hang then 1 else 0
    decreases len
  {
    hide PieceSize, Pieces, EvenDword;
    if len <= max {
      LastPieces(addr, len, max, sentinel, hang);
    } else {
      var size := PieceSize(addr, len, max, sentinel, hang);
      PieceThenRest(addr, len, max, sentinel, hang);
      LargePieces(addr + size, len - size, max, p, sentinel, hang);
      QuotaOfLess(len - size, len - p, p);
    }
  }

  /** When pieces are exactly p bytes, a multiple of eight, a piece that starts behind an odd dword ends
      in one: nothing is cut before the end. */
  lemma {:induction false} SettledPieces(addr: nat, len: nat, p: nat, sentinel: bool, hang: bool)
    requires len > 0 && p >= 8 && Eights(p) && !EvenDword(addr - 1)
    ensures |Pieces(addr, len, p, sentinel, hang)| <= SettledQuota(len, p, sentinel || hang)
    decreases len
  {
    hide PieceSize, Pieces, EvenDword, Eights;
    if len <= p {
      LastPieces(addr, len, p, sentinel, hang);
    } else {
      DwordsRepeat(addr - 1, p);
      PieceThenRest(addr, len, p, sentinel, hang);
      SettledPieces(addr + p, len - p, p, sentinel, hang);
    }
  }

  function SettledQuota(len: nat, p: nat, cut: bool): nat
    requires len > 0 && p > 0
    decreases len
  {
    if len > p then 1 + SettledQuota(len - p, p, cut) else if cut && len > 4 then 2 else 1
  }

  /** Four bytes more make up for the larger last piece. */
  lemma {:induction false} SettledQuotaIsQuota(len: nat, p: nat, cut: bool)
    requires len > 0 && p >= 8
    ensures SettledQuota(len, p, cut) <= Quota(len, p) + if cut then 1 else 0
    ensures SettledQuota(len + 4, p, cut) <= Quota(len, p) + 1
    decreases len
  {
    if len > p {
      SettledQuotaIsQuota(len - p, p, cut);
    }
  }

  /** One piece of memory: full pieces, and one more for the cuts. */
  lemma PiecesBound(addr: nat, len: nat, max: nat, p: nat, sentinel: bool, hang: bool)
    requires len > 0 && 4 <= p && (max == p || p + 4 <= max) && (p == 4 || (p >= 8 && Eights(p)))
    ensures |Pieces(addr, len, max, sentinel, hang)| <= Quota(len, p) + if sentinel || hang then 1 else 0
  {
    hide PieceSize, Pieces, EvenDword, Eights, SettledQuota;
    if p + 4 <= max || !hang || max == 4 {
      LargePieces(addr, len, max, p, sentinel, hang);
    } else if len <= max {
      LastPieces(addr, len, max, sentinel, hang);
    } else {
      var size := PieceSize(addr, len, max, sentinel, hang);
      PieceThenRest(addr, len, max, sentinel, hang);
      SettledPieces(addr + size, len - size, p, sentinel, hang);
      SettledQuotaIsQuota(len - p, p, true);
    }
  }

  /** The head: one more when its first piece is shortened on its own account. */
  lemma HeadBound(addr: nat, len: nat, max: nat, p: nat, sentinel: bool, e: Errata)
    requires len > 0 && (e.afterTso ==> len > 4 && max > 4)
    requires 4 <= p && (max == p || p + 4 <= max) && (p == 4 || (p >= 8 && Eights(p)))
    ensures |HeadPieces(addr, len, max, sentinel, e)|
            <= Quota(len, p) + (if sentinel || e.pcix82544 then 1 else 0)
               + (if e.afterTso then 1 else 0) + (if e.pcix && len > 2015 then 1 else 0)
  {
    hide Pieces, EvenDword, Eights, Quota;
    var size := FirstSize(addr, len, max, sentinel, e);
    PiecesBound(addr, len, max, p, sentinel, e.pcix82544);
    if e.afterTso || (e.pcix && len > 2015) {
      PiecesBound(addr + size, len - size, max, p, sentinel, e.pcix82544);
      QuotaOfLess(len - size, len, p);
    } else {
      PlainHead(addr, len, max, sentinel, e);
    }
  }

  lemma PlainHead(addr: nat, len: nat, max: nat, sentinel: bool, e: Errata)
    requires max > 0 && len > 0 && !e.afterTso && !(e.pcix && len > 2015)
    ensures HeadPieces(addr, len, max, sentinel, e) == Pieces(addr, len, max, sentinel, e.pcix82544)
  {
  }

  // ----- the reservation

  function DataLen(frags: seq<Frag>): nat {
    if frags == [] then 0 else DataLen(frags[..|frags| - 1]) + frags[|frags| - 1].size
  }

  /** The errata that apply to this frame. */
  function ErrataFor(pcix: bool, pcix82544: bool, lastTxTso: bool, f: Frame): Errata {
    Errata(pcix, pcix82544, DataLen(f.frags) == 0 && lastTxTso && f.mss == 0)
  }

  function UseCount(size: nat, pwr: nat): nat {
    Div(size, Pow2(pwr)) + 1
  }

  function FragReserve(f: Frame, n: nat): nat
    requires n <= |f.frags|
  {
    if n == 0 then 0 else FragReserve(f, n - 1) + UseCount(f.frags[n - 1].size, MaxTxdPwr(f))
  }

  /** What e1000_xmit_frame counts before it asks for room. */
  function Reserve(f: Frame, e: Errata): nat {
    (if f.mss != 0 || f.partial then 1 else 0) + 1 + (if e.afterTso then 1 else 0)
    + UseCount(f.head.size, MaxTxdPwr(f)) + (if e.pcix82544 then 1 else 0)
    + (if e.pcix && f.head.size > 2015 then 1 else 0)
    + FragReserve(f, |f.frags|) + (if e.pcix82544 then |f.frags| else 0)
  }

  /** The pieces of the k-th fragment. The dword test reckons from the start of the page, whatever is left
      out of it. */
  function FragPieces(f: Frame, k: nat, hang: bool): seq<nat>
    requires k < |f.frags|
  {
    Pieces(f.frags[k].page, f.frags[k].size, MaxPerTxd(f), f.mss != 0 && k == |f.frags| - 1, hang)
  }

  /** Pieces of the first n fragments. */
  function FragCount(f: Frame, n: nat, hang: bool): nat
    requires n <= |f.frags|
  {
    if n == 0 then 0 else FragCount(f, n - 1, hang) + |FragPieces(f, n - 1, hang)|
  }

  predicate Sendable(f: Frame, e: Errata) {
    f.head.size > 0 && (e.afterTso ==> f.head.size > 4 && f.mss == 0)
  }

  /** Pieces of the head as e1000_tx_map cuts it. */
  function HeadOf(f: Frame, e: Errata): seq<nat>
    requires Sendable(f, e)
  {
    HeadPieces(f.head.addr, f.head.size, MaxPerTxd(f), f.mss != 0 && f.frags == [], e)
  }

  function ContextCount(f: Frame): nat {
    if f.mss != 0 || f.partial then 1 else 0
  }

  /** The pieces side by side in memory. */
  function Located(addr: nat, sizes: seq<nat>): (pieces: seq<Buf>)
    ensures |pieces| == |sizes|
    decreases |sizes|
  {
    if sizes == [] then [] else [Buf(addr, sizes[0])] + Located(addr + sizes[0], sizes[1..])
  }

  /** What the head and the first n fragments become, as the descriptors get it. */
  function FramePieces(f: Frame, e: Errata, n: nat): (pieces: seq<Buf>)
    requires Sendable(f, e) && n <= |f.frags|
    ensures |pieces| == |HeadOf(f, e)| + FragCount(f, n, e.pcix82544)
  {
    if n == 0 then Located(f.head.addr, HeadOf(f, e))
    else FramePieces(f, e, n - 1) + FragAt(f, n - 1, e.pcix82544)
  }

  /** The pieces of the k-th fragment, where the fragment is. */
  function FragAt(f: Frame, k: nat, hang: bool): (pieces: seq<Buf>)
    requires k < |f.frags|
    ensures |pieces| == |FragPieces(f, k, hang)|
  {
    Located(f.frags[k].page + f.frags[k].skip, FragPieces(f, k, hang))
  }

  lemma PowShape(k: nat)
    ensures k == 0 ==> Pow2(k) == 1
    ensures k == 1 ==> Pow2(k) == 2
    ensures k == 2 ==> Pow2(k) == 4
    ensures k >= 3 ==> Pow2(k) >= 8 && Eights(Pow2(k))
  {
    if k >= 3 {
      assert Pow2(k) == 2 * Pow2(k - 1);
      assert Pow2(k - 1) == 2 * Pow2(k - 2);
      assert Pow2(k - 2) == 2 * Pow2(k - 3);
      TimesEight(Pow2(k), Pow2(k - 3));
    }
  }

  lemma TimesEight(p: nat, q: nat)
    requires p == 8 * q && q > 0
    ensures p >= 8 && Eights(p)
  {
  }

  lemma Pow12()
    ensures Pow2(12) == 4096
  {
    assert Pow2(4) == 16;
    assert Pow2(8) == 256;
  }

  /** The shift counts pieces of p bytes, a power of two at most the true maximum. */
  lemma Shape(f: Frame)
    ensures var max, p := MaxPerTxd(f), Pow2(MaxTxdPwr(f));
            4 <= p && (max == p || p + 4 <= max) && (p == 4 || (p >= 8 && Eights(p)))
  {
    PowShape(MaxTxdPwr(f));
    Pow12();
    FlsBounds(MaxPerTxd(f));
    hide Pow2, Fls, Eights;
    if f.mss != 0 {
      FourDivides(f);
      MultiplesApart(MaxPerTxd(f), Pow2(MaxTxdPwr(f)));
    }
  }

  lemma FourDivides(f: Frame)
    ensures MaxPerTxd(f) % 4 == 0 && MaxPerTxd(f) >= 4
  {
  }

  lemma MultiplesApart(max: nat, p: nat)
    requires max % 4 == 0 && p <= max && (p == 4 || Eights(p))
    ensures max == p || p + 4 <= max
  {
  }

  lemma {:induction false} FragsBound(f: Frame, n: nat, hang: bool)
    requires n <= |f.frags|
    ensures FragCount(f, n, hang) <= FragReserve(f, n) + (if hang then n else 0)
                                     + (if f.mss != 0 && n == |f.frags| && n > 0 && !hang then 1 else 0)
  {
    if n > 0 {
      FragsBound(f, n - 1, hang);
      FragBound(f, n - 1, hang);
      hide FragPieces, UseCount;
    }
  }

  lemma FragBound(f: Frame, k: nat, hang: bool)
    requires k < |f.frags|
    ensures |FragPieces(f, k, hang)| <= UseCount(f.frags[k].size, MaxTxdPwr(f))
                                       + if hang || (f.mss != 0 && k == |f.frags| - 1) then 1 else 0
  {
    hide MaxPerTxd, MaxTxdPwr, Eights, Quota;
    var frag, p := f.frags[k], Pow2(MaxTxdPwr(f));
    Shape(f);
    if frag.size > 0 {
      PiecesBound(frag.page, frag.size, MaxPerTxd(f), p, f.mss != 0 && k == |f.frags| - 1, hang);
      QuotaIsReserved(frag.size, p);
    }
  }

  /** Whatever the sizes, addresses, MSS and errata: context descriptor and pieces together never need
      more descriptors than were counted. */
  lemma ReservationCovers(f: Frame, e: Errata)
    requires Sendable(f, e)
    ensures ContextCount(f) + |HeadOf(f, e)| + FragCount(f, |f.frags|, e.pcix82544) <= Reserve(f, e)
  {
    var p := Pow2(MaxTxdPwr(f));
    Shape(f);
    FragsBound(f, |f.frags|, e.pcix82544);
    QuotaIsReserved(f.head.size, p);
    HeadOfBound(f, e, p);
    hide MaxPerTxd, MaxTxdPwr, Eights, Quota, FragCount, FragReserve, HeadOf;
  }

  lemma HeadOfBound(f: Frame, e: Errata, p: nat)
    requires Sendable(f, e)
    requires 4 <= p && (MaxPerTxd(f) == p || p + 4 <= MaxPerTxd(f)) && (p == 4 || (p >= 8 && Eights(p)))
    ensures |HeadOf(f, e)| <= Quota(f.head.size, p) + (if (f.mss != 0 && f.frags == []) || e.pcix82544 then 1 else 0)
                              + (if e.afterTso then 1 else 0) + (if e.pcix && f.head.size > 2015 then 1 else 0)
  {
    hide HeadPieces, Quota, Eights;
    HeadBound(f.head.addr, f.head.size, MaxPerTxd(f), p, f.mss != 0 && f.frags == [], e);
  }

  /** Each piece of memory is partitioned into parts a descriptor can carry. */
  lemma FramePartition(f: Frame, e: Errata)
    requires Sendable(f, e)
    ensures Partition(HeadOf(f, e), f.head.size, MaxPerTxd(f))
    ensures forall k :: 0 <= k < |f.frags| ==> Partition(FragPieces(f, k, e.pcix82544), f.frags[k].size, MaxPerTxd(f))
  {
    HeadPartition(f.head.addr, f.head.size, MaxPerTxd(f), f.mss != 0 && f.frags == [], e);
    hide Partition, HeadPieces, Pieces;
    forall k | 0 <= k < |f.frags|
      ensures Partition(FragPieces(f, k, e.pcix82544), f.frags[k].size, MaxPerTxd(f))
    {
      PiecesPartition(f.frags[k].page, f.frags[k].size, MaxPerTxd(f), f.mss != 0 && k == |f.frags| - 1, e.pcix82544);
    }
  }

  lemma FirstOfHead(f: Frame, e: Errata)
    requires Sendable(f, e)
    ensures var sentinel := f.mss != 0 && f.frags == [];
            var size := FirstSize(f.head.addr, f.head.size, MaxPerTxd(f), sentinel, e);
            && 0 < size <= f.head.size
            && HeadOf(f, e) == [size] + Pieces(f.head.addr + size, f.head.size - size, MaxPerTxd(f), sentinel, e.pcix82544)
  {
    FirstRange(f.head.addr, f.head.size, MaxPerTxd(f), f.mss != 0 && f.frags == [], e);
    hide FirstSize, Pieces;
  }

  lemma FrontOfAll(done: seq<Buf>, addr: nat, size: nat, rest: seq<nat>)
    ensures done + Located(addr, [size] + rest) == (done + [Buf(addr, size)]) + Located(addr + size, rest)
  {
  }
}
