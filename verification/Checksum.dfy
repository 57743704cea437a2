/** Internet checksums and their incremental repair (RFC 1071, RFC 1624), on words in network order. */
module Checksum {
  import opened Serial

  const M: int := 0xFFFF

  // ----- reference: one's complement sum of 16-bit words

  /** One's complement addition: the carry goes around. */
  function OnesAdd(a: U16, b: U16): U16 {
    if a + b > 0xFFFF then a + b - 0xFFFF else a + b
  }

  function OnesSum(words: seq<U16>): U16 {
    if words == [] then 0 else OnesAdd(words[0], OnesSum(words[1..]))
  }

  /** The checksum computed from scratch over all other words. */
  function Recomputed(words: seq<U16>): U16 {
    0xFFFF - OnesSum(words)
  }

  /** A receiver accepts: all words and the checksum add up to minus zero. */
  predicate Accepted(words: seq<U16>, check: U16) {
    OnesAdd(check, OnesSum(words)) == 0xFFFF
  }

  function Sum(words: seq<U16>): (total: int)
    ensures total >= 0
  {
    if words == [] then 0 else words[0] + Sum(words[1..])
  }

  lemma {:induction false} SumConcat(a: seq<U16>, b: seq<U16>)
    ensures Sum(a + b) == Sum(a) + Sum(b)
  {
    if a == [] {
      assert a + b == b;
    } else {
      assert (a + b)[1..] == a[1..] + b;
      SumConcat(a[1..], b);
    }
  }

  // ----- residues

  /** Equal modulo 65535, where both zeros of one's complement are one. */
  predicate Same(a: int, b: int) {
    a % M == b % M
  }

  lemma MultipleApart(a: int, b: int, k: int)
    requires a == b + k * M
    ensures Same(a, b)
  {
  }

  lemma SameMoved(a: int, b: int, c: int)
    requires Same(a, b)
    ensures Same(a + c, b + c) && Same(c - a, c - b)
  {
    var k := a / M - b / M;
    assert a == b + k * M;
    MultipleApart(a + c, b + c, k);
    MultipleApart(c - a, c - b, 0 - k);
  }

  lemma SameChain(a: int, b: int, c: int)
    requires Same(a, b) && Same(b, c)
    ensures Same(a, c) && Same(c, a)
  {
  }

  /** Two congruences added and subtracted. */
  lemma SameTogether(a: int, b: int, c: int, d: int)
    requires Same(a, b) && Same(c, d)
    ensures Same(a + c, b + d) && Same(a - c, b - d)
  {
    SameMoved(a, b, c);
    SameMoved(c, d, b);
    SameMoved(a, b, 0 - c);
    hide Same;
    SameChain(a + c, b + c, b + d);
    SameChain(a - c, b - c, b - d);
  }

  lemma {:induction false} OnesSumResidue(words: seq<U16>)
    ensures Same(OnesSum(words), Sum(words))
    ensures OnesSum(words) == 0 <==> Sum(words) == 0
  {
    if words != [] {
      OnesSumResidue(words[1..]);
    }
  }

  /** Acceptance and recomputation, said with residues. */
  lemma ByResidue(words: seq<U16>, check: U16)
    requires Sum(words) > 0
    ensures Accepted(words, check) <==> Same(Sum(words) + check, 0)
    ensures Recomputed(words) == (0 - Sum(words)) % M
    ensures Accepted(words, Recomputed(words))
  {
    OnesSumResidue(words);
    ByOnesSum(OnesSum(words), check);
    ByOnesSum(OnesSum(words), 0xFFFF - OnesSum(words));
    SameMoved(Sum(words), OnesSum(words), check);
    SameMoved(Sum(words), OnesSum(words), 0);
  }

  lemma ByOnesSum(o: U16, check: U16)
    requires o > 0
    ensures OnesAdd(check, o) == 0xFFFF <==> Same(o + check, 0)
    ensures 0xFFFF - o == (0 - o) % M
  {
  }

  // ----- the arithmetic of the kernel helpers

  function Lo32(x: nat): U32 { x % TWO_32 }
  function Hi32(x: nat): nat { x / TWO_32 }

  /** The two 16-bit folding steps shared by csum_fold and its complement. */
  function FoldTo16(x: U32): U16 {
    var y := x / 0x1_0000 + x % 0x1_0000;
    y / 0x1_0000 + y % 0x1_0000
  }

  /** The 32-bit folding steps of a 64-bit partial sum; no carry is lost in the second. */
  function FoldTo32(x: nat): U32
    requires x < 0x1_0000_0000_0000_0000
  {
    var y := Lo32(x) + Hi32(x);
    Lo32(y) + Hi32(y)
  }

  lemma FoldTo32Residue(x: nat)
    requires x < 0x1_0000_0000_0000_0000
    ensures Same(FoldTo32(x), x) && (FoldTo32(x) == 0 <==> x == 0)
  {
    var y := Lo32(x) + Hi32(x);
    MultipleApart(y, x, 0 - Hi32(x) * 65537);
    MultipleApart(FoldTo32(x), y, 0 - Hi32(y) * 65537);
  }

  lemma FoldTo16Residue(x: U32)
    ensures Same(FoldTo16(x), x) && (FoldTo16(x) == 0 <==> x == 0)
  {
    var y := x / 0x1_0000 + x % 0x1_0000;
    MultipleApart(y, x, 0 - x / 0x1_0000);
    MultipleApart(FoldTo16(x), y, 0 - y / 0x1_0000);
  }

  function Not32(x: U32): U32 { 0xFFFF_FFFF - x }

  /** Repair of a complemented checksum field: dysco_csum_replace4. */
  function Replaced4(check: U16, from: U32, to: U32): U16 {
    0xFFFF - FoldTo16(FoldTo32(Not32(from) + to + Not32(check)))
  }

  /** Repair of a pseudo-header sum that the device will finish: the CHECKSUM_PARTIAL branch. */
  function ReplacedPartial(check: U16, from: U32, to: U32): U16 {
    FoldTo16(FoldTo32(Not32(from) + to + check))
  }

  /** Repair of skb->csum when pseudo-header words change: the CHECKSUM_COMPLETE branch. */
  function ReplacedComplete(csum: U32, from: U32, to: U32): U32 {
    Not32(FoldTo32(Not32(from) + to + Not32(csum)))
  }

  /** The field that follows from `check` when the words it covers grow by diff. */
  function Adjusted(check: int, diff: int): (r: U16)
    ensures r < M
  {
    (check - diff) % M
  }

  lemma AdjustedResidue(check: int, diff: int)
    ensures Same(Adjusted(check, diff), check - diff)
  {
  }

  lemma Replaced4IsAdjusted(check: U16, from: U32, to: U32)
    ensures Replaced4(check, from, to) == Adjusted(check, to - from)
  {
    var x := Not32(from) + to + Not32(check);
    FoldTo32Residue(x);
    FoldTo16Residue(FoldTo32(x));
    hide FoldTo32, FoldTo16;
    Complement(x, to - from - check, FoldTo16(FoldTo32(x)));
  }

  lemma Complement(x: int, t: int, f: U16)
    requires x == t + 2 * 65537 * M && Same(f, x) && f > 0
    ensures 0xFFFF - f == Adjusted(0, t)
  {
    MultipleApart(x, t, 2 * 65537);
    SameMoved(f, t, 0);
    MultipleApart(0xFFFF - f, 0 - f, 1);
  }

  lemma AdjustedAdds(check: int, d: int, e: int)
    ensures Adjusted(Adjusted(check, d), e) == Adjusted(check, d + e)
  {
    SameMoved(Adjusted(check, d), check - d, 0 - e);
  }

  lemma SameAdjusts(check: int, d: int, e: int)
    requires Same(d, e)
    ensures Adjusted(check, d) == Adjusted(check, e)
  {
    SameMoved(d, e, check);
  }

  lemma PartialResidue(check: U16, from: U32, to: U32)
    ensures Same(ReplacedPartial(check, from, to), check + to - from)
  {
    var x := Not32(from) + to + check;
    MultipleApart(x, check + to - from, 65537);
    FoldTo32Residue(x);
    FoldTo16Residue(FoldTo32(x));
  }

  lemma CompleteResidue(csum: U32, from: U32, to: U32)
    ensures Same(ReplacedComplete(csum, from, to), csum + from - to)
  {
    var x := Not32(from) + to + Not32(csum);
    MultipleApart(x, to - from - csum, 2 * 65537);
    FoldTo32Residue(x);
    NegatedResidue(FoldTo32(x), to - from - csum);
  }

  lemma NegatedResidue(r: int, t: int)
    requires Same(r, t)
    ensures Same(0xFFFF_FFFF - r, 0 - t)
  {
    SameMoved(r, t, 0);
    MultipleApart(0xFFFF_FFFF - r, 0 - r, 65537);
  }

  /** Incremental repair equals recomputation from scratch. When the covered words now add up to diff
      more (modulo 65535), the repaired field is accepted exactly when the old one was, and then it is
      the recomputed one; when they do not, an accepted field turns into one that is rejected. */
  lemma RepairIsRecomputation(words: seq<U16>, words': seq<U16>, check: U16, diff: int)
    requires Sum(words) > 0 && Sum(words') > 0
    ensures Same(Sum(words'), Sum(words) + diff) ==> (Accepted(words', Adjusted(check, diff)) <==> Accepted(words, check))
    ensures Accepted(words, check) ==> (Same(Sum(words'), Sum(words) + diff) <==> Accepted(words', Adjusted(check, diff)))
    ensures Accepted(words, check) && Accepted(words', Adjusted(check, diff)) ==> Adjusted(check, diff) == Recomputed(words')
  {
    ByResidue(words, check);
    ByResidue(words', Adjusted(check, diff));
    AdjustedResidue(check, diff);
    hide Accepted, Sum, Adjusted;
    FieldFollows(check, diff, Sum(words), Sum(words'));
    SameMoved(Adjusted(check, diff), check - diff, Sum(words'));
    if Accepted(words', Adjusted(check, diff)) {
      OnlyField(Adjusted(check, diff), Sum(words'));
    }
  }

  lemma OnlyField(check: int, sum: int)
    requires 0 <= check < M && Same(sum + check, 0)
    ensures check == (0 - sum) % M
  {
    SameMoved(sum + check, 0, 0 - sum);
  }

  /** The field less diff cancels the new sum when the sum grew by diff, and only then. */
  lemma FieldFollows(check: int, diff: int, sum: int, sum': int)
    ensures Same(sum', sum + diff) ==> (Same(sum' + (check - diff), 0) <==> Same(sum + check, 0))
    ensures Same(sum + check, 0) && Same(sum' + (check - diff), 0) ==> Same(sum', sum + diff)
  {
    if Same(sum', sum + diff) {
      SameMoved(sum', sum + diff, check - diff);
    }
    if Same(sum + check, 0) && Same(sum' + (check - diff), 0) {
      SameTogether(sum' + (check - diff), 0, sum + check, 0);
      SameMoved(sum' - sum - diff, 0, sum + diff);
    }
  }

  // ----- 32-bit values in the packet

  function W32(x: U32): (r: int)
    ensures r >= 0
  {
    x / 0x1_0000 + x % 0x1_0000
  }

  lemma W32Residue(x: U32)
    ensures Same(W32(x), x)
  {
    MultipleApart(W32(x), x, 0 - x / 0x1_0000);
  }

  /** 32-bit one's complement addition, as the header rewrites add two addresses; `test` is the
      operand compared with the wrapped sum to find the carry. */
  function AddAddresses(a: U32, b: U32, test: U32): U32 {
    var s := Wrap(a + b);
    Wrap(s + if test > s then 1 else 0)
  }

  /** The carry of the sum less the one that is found with test. */
  function Missed(a: U32, b: U32, test: U32): (e: int)
    ensures -1 <= e <= 1 && (e == 0 <==> (test > Wrap(a + b) <==> b > Wrap(a + b)))
  {
    var s := Wrap(a + b);
    (if b > s then 1 else 0) - if test > s then 1 else 0
  }

  lemma AddedWithError(a: U32, b: U32, test: U32)
    ensures Same(AddAddresses(a, b, test), a + b - Missed(a, b, test))
  {
    var s := Wrap(a + b);
    var carry, found := if b > s then 1 else 0, if test > s then 1 else 0;
    assert TWO_32 == 65537 * M + 1;
    assert s == a + b - carry * TWO_32;
    assert AddAddresses(a, b, test) == s + found;
    MultipleApart(s + found, a + b - (carry - found), 0 - carry * 65537);
  }

  /** Testing another operand is right exactly when it finds the same carry. */
  lemma CarryTest(a: U32, b: U32, test: U32)
    ensures Same(AddAddresses(a, b, test), a + b) <==> (test > Wrap(a + b) <==> b > Wrap(a + b))
  {
    AddedWithError(a, b, test);
    if Missed(a, b, test) != 0 {
      NotSameBesideOne(a + b, AddAddresses(a, b, test), Missed(a, b, test));
    }
  }

  lemma NotSameBesideOne(a: int, b: int, step: int)
    requires Same(b, a - step) && (step == 1 || step == -1)
    ensures !Same(b, a)
  {
  }
}
