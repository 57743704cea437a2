/** Network-order fields as the host loads them. One's complement sums come out the same in either byte
    order (RFC 1071, section 2); the comparison that looks for the carry of two addresses does not. */
module ByteOrder {
  import opened Checksum
  import opened Serial

  datatype Order = Big | Little

  function Swap16(x: U16): U16 {
    x % 0x100 * 0x100 + x / 0x100
  }

  function Swap32(x: U32): U32 {
    Swap16(x % 0x1_0000) * 0x1_0000 + Swap16(x / 0x1_0000)
  }

  /** A __be32 as the host reads it, and back. */
  function Load(o: Order, x: U32): U32 {
    if o == Big then x else Swap32(x)
  }

  /** A __be16 or __sum16. */
  function Load16(o: Order, x: U16): U16 {
    if o == Big then x else Swap16(x)
  }

  /** What loading does to residues modulo 65535. */
  function Times(o: Order, x: int): int {
    if o == Big then x else 256 * x
  }

  lemma Swap16Residue(x: U16)
    ensures Same(Swap16(x), 256 * x) && Swap16(Swap16(x)) == x && (x < M <==> Swap16(x) < M) && (x == 0 <==> Swap16(x) == 0)
  {
    var hi, lo := x / 0x100, x % 0x100;
    assert x == hi * 0x100 + lo;
    MultipleApart(lo * 0x100 + hi, 256 * x, 0 - hi);
    Digits(lo * 0x100 + hi, lo, hi);
  }

  lemma Digits(y: U16, hi: U8, lo: U8)
    requires y == hi * 0x100 + lo
    ensures y / 0x100 == hi && y % 0x100 == lo
  {
  }

  lemma HalvesOf(y: U32, hi: U16, lo: U16)
    requires y == hi * 0x1_0000 + lo
    ensures y / 0x1_0000 == hi && y % 0x1_0000 == lo
  {
  }

  /** Swapping the bytes multiplies by 256. */
  lemma Swap32Residue(x: U32)
    ensures Same(Swap32(x), 256 * x) && Swap32(Swap32(x)) == x
    ensures (x == 0 <==> Swap32(x) == 0) && (x == 0xFFFF_FFFF <==> Swap32(x) == 0xFFFF_FFFF)
  {
    var hi, lo := x / 0x1_0000, x % 0x1_0000;
    Swap16Residue(hi);
    Swap16Residue(lo);
    hide Swap16;
    assert Swap32(x) == Swap16(lo) * 0x1_0000 + Swap16(hi);
    HalvesOf(Swap32(x), Swap16(lo), Swap16(hi));
    assert x == hi * 0x1_0000 + lo;
    MultipleApart(Swap32(x), Swap16(lo) + Swap16(hi), Swap16(lo));
    SameTogether(Swap16(lo), 256 * lo, Swap16(hi), 256 * hi);
    MultipleApart(256 * lo + 256 * hi, 256 * x, 0 - 256 * hi);
    hide Same;
    SameChain(Swap32(x), Swap16(lo) + Swap16(hi), 256 * lo + 256 * hi);
    SameChain(Swap32(x), 256 * lo + 256 * hi, 256 * x);
  }

  lemma LoadResidue(o: Order, x: U32)
    ensures Same(Load(o, x), Times(o, x)) && Load(o, Load(o, x)) == x
    ensures (x == 0 <==> Load(o, x) == 0) && (x == 0xFFFF_FFFF <==> Load(o, x) == 0xFFFF_FFFF)
  {
    hide Same, Swap32;
    Swap32Residue(x);
    SameMoved(x, x, 0);
  }

  lemma Load16Residue(o: Order, x: U16)
    ensures Same(Load16(o, x), Times(o, x)) && Load16(o, Load16(o, x)) == x
    ensures (x < M <==> Load16(o, x) < M) && (x == 0 <==> Load16(o, x) == 0)
  {
    hide Same, Swap16;
    Swap16Residue(x);
    SameMoved(x, x, 0);
  }

  lemma TimesSame(o: Order, a: int, b: int)
    requires Same(a, b)
    ensures Same(Times(o, a), Times(o, b))
  {
    var k := a / M - b / M;
    assert a == b + k * M;
    MultipleApart(256 * a, 256 * b, 256 * k);
  }

  /** Loading twice is loading not at all: 256 * 256 is 1 modulo 65535. */
  lemma TimesTwice(o: Order, a: int)
    ensures Same(Times(o, Times(o, a)), a)
  {
    MultipleApart(65536 * a, a, a);
  }

  lemma TimesMinus(o: Order, a: int, b: int)
    ensures Times(o, a - b) == Times(o, a) - Times(o, b)
  {
  }

  /** What the host computes from loaded values is what the network values give, loaded. */
  lemma HostResidue(o: Order, c: int, from: int, to: int, hostC: int, hostFrom: int, hostTo: int, host: int, net: int)
    requires Same(hostC, Times(o, c)) && Same(hostFrom, Times(o, from)) && Same(hostTo, Times(o, to))
    requires Same(host, hostC - (hostTo - hostFrom)) && Same(net, c - (to - from))
    ensures Same(host, Times(o, net)) && Same(Times(o, host), net)
  {
    hide Same, Times;
    SameTogether(hostTo, Times(o, to), hostFrom, Times(o, from));
    SameTogether(hostC, Times(o, c), hostTo - hostFrom, Times(o, to) - Times(o, from));
    TimesMinus(o, to, from);
    TimesMinus(o, c, to - from);
    var x := c - (to - from);
    assert Times(o, x) == Times(o, c) - (Times(o, to) - Times(o, from));
    SameChain(host, hostC - (hostTo - hostFrom), Times(o, x));
    TimesSame(o, net, x);
    SameBack(Times(o, net), Times(o, x));
    SameChain(host, Times(o, x), Times(o, net));
    TimesSame(o, host, Times(o, net));
    TimesTwice(o, net);
    SameChain(Times(o, host), Times(o, Times(o, net)), net);
  }

  lemma SameBack(a: int, b: int)
    requires Same(a, b)
    ensures Same(b, a)
  {
  }

  /** The field that the host's arithmetic leaves is the one that the arithmetic on network values
      leaves, whatever the host's byte order. */
  lemma HostRepair(o: Order, check: U16, from: U32, to: U32, hostFrom: U32, hostTo: U32)
    requires Same(hostFrom, Times(o, from)) && Same(hostTo, Times(o, to))
    ensures Load16(o, Replaced4(Load16(o, check), hostFrom, hostTo)) == Replaced4(check, from, to)
  {
    var c := Load16(o, check);
    hide *;
    Replaced4IsAdjusted(check, from, to);
    Replaced4IsAdjusted(c, hostFrom, hostTo);
    var r, q := Adjusted(check, to as int - from as int), Adjusted(c, hostTo as int - hostFrom as int);
    AdjustedResidue(check, to as int - from as int);
    AdjustedResidue(c, hostTo as int - hostFrom as int);
    Load16Residue(o, check);
    Load16Residue(o, q);
    HostResidue(o, check, from, to, c, hostFrom, hostTo, q, r);
    SameChain(Load16(o, q), Times(o, q), r);
    SameAndSmall(Load16(o, q), r);
    assert Load16(o, Replaced4(Load16(o, check), hostFrom, hostTo)) == Replaced4(check, from, to);
  }

  lemma SameAndSmall(a: U16, b: U16)
    requires Same(a, b) && a < M && b < M
    ensures a == b
  {
  }

  /** The same for a pseudo-header sum, where minus zero and zero must not be confused. */
  lemma HostPartial(o: Order, check: U16, from: U32, to: U32)
    ensures Load16(o, ReplacedPartial(Load16(o, check), Load(o, from), Load(o, to))) == ReplacedPartial(check, from, to)
  {
    hide *;
    var c, f, t := Load16(o, check), Load(o, from), Load(o, to);
    var r, q := ReplacedPartial(check, from, to), ReplacedPartial(c, f, t);
    PartialResidue(check, from, to);
    PartialResidue(c, f, t);
    PartialZero(check, from, to);
    PartialZero(c, f, t);
    Load16Residue(o, check);
    Load16Residue(o, q);
    LoadResidue(o, from);
    LoadResidue(o, to);
    assert c + t - f == c - (f as int - t as int) && check + to - from == check - (from as int - to as int);
    HostResidue(o, check, to, from, c, t, f, q, r);
    SameChain(Load16(o, q), Times(o, q), r);
    SameAndZero(Load16(o, q), r);
  }

  lemma PartialZero(check: U16, from: U32, to: U32)
    ensures ReplacedPartial(check, from, to) == 0 <==> check == 0 && from == 0xFFFF_FFFF && to == 0
  {
    hide FoldTo32, FoldTo16;
    var x := Not32(from) + to + check;
    FoldTo32Residue(x);
    FoldTo16Residue(FoldTo32(x));
  }

  lemma SameAndZero(a: U16, b: U16)
    requires Same(a, b) && (a == 0 <==> b == 0)
    ensures a == b
  {
  }

  /** skb->csum never leaves the host; its residue is what counts. */
  lemma HostComplete(o: Order, hostCsum: U32, csum: U32, from: U32, to: U32)
    requires Same(hostCsum, Times(o, csum))
    ensures Same(ReplacedComplete(hostCsum, Load(o, from), Load(o, to)), Times(o, ReplacedComplete(csum, from, to)))
  {
    hide *;
    var f, t := Load(o, from), Load(o, to);
    CompleteResidue(csum, from, to);
    CompleteResidue(hostCsum, f, t);
    LoadResidue(o, from);
    LoadResidue(o, to);
    assert hostCsum + f - t == hostCsum - (t as int - f as int) && csum + from - to == csum - (to as int - from as int);
    HostResidue(o, csum, from, to, hostCsum, f, t, ReplacedComplete(hostCsum, f, t), ReplacedComplete(csum, from, to));
  }

  // ----- two addresses

  /** The sum of two addresses as the header rewrites compute it, on loaded values; `test` is the
      operand compared with the wrapped sum to find the carry. */
  function HostSum(o: Order, a: U32, b: U32, test: U32): U32 {
    AddAddresses(Load(o, a), Load(o, b), Load(o, test))
  }

  /** Comparing the host's wrapped sum with test finds the carry of the two addresses. */
  predicate FindsCarry(o: Order, a: U32, b: U32, test: U32) {
    var s := Wrap(Load(o, a) + Load(o, b));
    Load(o, test) > s <==> Load(o, b) > s
  }

  /** The carry there is less the carry found, in network order. */
  function CarryError(o: Order, a: U32, b: U32, test: U32): (e: int)
    ensures e == 0 <==> FindsCarry(o, a, b, test)
    ensures e == 0 || e == 1 || e == -1 || e == 256 || e == -256
  {
    Times(o, Missed(Load(o, a), Load(o, b), Load(o, test)))
  }

  lemma CarryErrorIs(o: Order, a: U32, b: U32, test: U32)
    ensures CarryError(o, a, b, test) == Times(o, Missed(Load(o, a), Load(o, b), Load(o, test)))
    ensures HostSum(o, a, b, test) == AddAddresses(Load(o, a), Load(o, b), Load(o, test))
  {
  }

  /** The sum stands for both addresses but for the error of the carry test. */
  lemma HostSumError(o: Order, a: U32, b: U32, test: U32)
    ensures Same(a + b, Load(o, HostSum(o, a, b, test)) + CarryError(o, a, b, test))
  {
    var x, y, t := Load(o, a), Load(o, b), Load(o, test);
    var e, r := Missed(x, y, t), HostSum(o, a, b, test);
    hide *;
    CarryErrorIs(o, a, b, test);
    AddedWithError(x, y, t);
    LoadResidue(o, a);
    LoadResidue(o, b);
    LoadResidue(o, r);
    LoadedSum(o, a, b, x, y, e, r);
    SameChain(Load(o, r), Times(o, r), a + b - Times(o, e));
    SameMoved(Load(o, r), a + b - Times(o, e), Times(o, e));
    SameBack(Load(o, r) + Times(o, e), a + b);
    assert Same(a + b, Load(o, HostSum(o, a, b, test)) + CarryError(o, a, b, test));
  }

  lemma LoadedSum(o: Order, a: int, b: int, x: int, y: int, e: int, r: int)
    requires Same(x, Times(o, a)) && Same(y, Times(o, b)) && Same(r, x + y - e)
    ensures Same(Times(o, r), a + b - Times(o, e))
  {
    hide Same, Times;
    SameTogether(x, Times(o, a), y, Times(o, b));
    TimesPlus(o, a, b);
    TimesSame(o, x + y, Times(o, a + b));
    TimesTwice(o, a + b);
    SameChain(Times(o, x + y), Times(o, Times(o, a + b)), a + b);
    TimesSame(o, r, x + y - e);
    TimesMinus(o, x + y, e);
    SameMoved(Times(o, x + y), a + b, 0 - Times(o, e));
    SameChain(Times(o, r), Times(o, x + y) - Times(o, e), a + b - Times(o, e));
  }

  lemma TimesPlus(o: Order, a: int, b: int)
    ensures Times(o, a + b) == Times(o, a) + Times(o, b)
  {
  }

  /** Neither error hides the other: one is a multiple of 255, the other one of 1 or 256. */
  lemma ErrorsShow(e: int, x: int)
    requires e == 0 || e == 1 || e == -1 || e == 256 || e == -256
    ensures Same(255 * x + e, 0) <==> e == 0 && x % 257 == 0
    ensures Same(255 * x, 0) <==> x % 257 == 0
    ensures Same(e, 0) <==> e == 0
  {
    OddErrorShows(x);
    if Same(255 * x + e, 0) {
      var k := (255 * x + e) / M;
      assert 255 * x + e == k * (255 * 257);
      assert e == 255 * (k * 257 - x);
    }
  }

  lemma OddErrorShows(x: int)
    ensures Same(255 * x, 0) <==> x % 257 == 0
  {
    if Same(255 * x, 0) {
      var k := 255 * x / M;
      assert 255 * x == k * (255 * 257);
      assert x == 257 * k;
    }
    if x % 257 == 0 {
      MultipleApart(255 * x, 0, x / 257);
    }
  }
}
