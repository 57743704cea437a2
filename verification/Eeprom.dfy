/** The driver of the serial EEPROM: bit-banged commands, word reads and page writes, the checksum word
    and the byte ranges of ethtool. */
module Eeprom {
  import opened Powers
  import opened Serial
  import opened SpiChip

  const CHECKSUM_REG: nat := 63
  const EEPROM_SUM: U16 := 0xBABA
  const MAX_RETRY: nat := 5000

  function Zeros(n: nat): (bits: seq<bool>)
    ensures |bits| == n && forall i :: 0 <= i < n ==> !bits[i]
  {
    if n == 0 then [] else Zeros(n - 1) + [false]
  }

  /** After n more clocks with DI low. */
  function Clocked(d: Device, n: nat): Device {
    d.(bits := d.bits + Zeros(n))
  }

  /** What DO says during n clocks. */
  function Outputs(c: Chip, d: Device, n: nat): (bits: seq<bool>)
    requires Fits(c, d)
    ensures |bits| == n
  {
    if n == 0 then [] else Outputs(c, d, n - 1) + [Output(c, Clocked(d, n))]
  }

  // ----- the status poll

  lemma OpcodeBits(op: U8, rest: seq<bool>)
    ensures Opcode(BitsOf(op, 8) + rest) == op
  {
    ByteValue(op);
    assert (BitsOf(op, 8) + rest)[..8] == BitsOf(op, 8);
  }

  /** The last bit of the status byte is the busy bit. */
  lemma StatusBit(c: Chip, d: Device)
    requires Fits(c, d) && d.bits == BitsOf(RDSR, 8)
    ensures ValueOf(Outputs(c, d, 8)) % 2 == 1 <==> d.busy > 0
    ensures Deselect(c, Clocked(d, 8)) == d.(bits := [], busy := if d.busy == 0 then 0 else d.busy - 1)
  {
    OpcodeBits(RDSR, Zeros(8));
    hide BitsOf, Opcode;
    var outs := Outputs(c, d, 8);
    assert outs[7] == Output(c, Clocked(d, 8));
    LastBit(outs);
  }

  lemma LastBit(bits: seq<bool>)
    requires bits != []
    ensures ValueOf(bits) % 2 == 1 <==> bits[|bits| - 1]
  {
  }

  // ----- reading

  /** After the READ command, word after word comes out, low byte first. */
  lemma ReadsWord(c: Chip, d: Device, op: nat, w: nat, n: nat)
    requires Fits(c, d) && d.busy == 0 && 2 * (w + n) + 2 <= |d.mem|
    requires op == READ || op == READ + A8
    requires |d.bits| == 8 + c.addressBits + 16 * n && Opcode(d.bits) == op && Address(c, d) == 2 * w
    ensures Outputs(c, d, 16) == BitsOf(Swap(WordAt(d.mem, w + n)), 16)
  {
    hide *;
    WordOnWireAt(d.mem, w + n);
    var outs := Outputs(c, d, 16);
    OutputsAt(c, d, 16);
    var lo, hi := BitsOf(d.mem[2 * (w + n)], 8), BitsOf(d.mem[2 * (w + n) + 1], 8);
    forall k | 0 <= k < 8
      ensures outs[k] == lo[k] && outs[k + 8] == hi[k]
    {
      ReadBit(c, d, op, w, n, 0, k);
      ReadBit(c, d, op, w, n, 1, k);
    }
    BothHalves(outs, lo, hi);
  }

  lemma WordOnWireAt(mem: seq<U8>, w: nat)
    requires 2 * w + 2 <= |mem|
    ensures BitsOf(Swap(WordAt(mem, w)), 16) == BitsOf(mem[2 * w], 8) + BitsOf(mem[2 * w + 1], 8)
  {
    WordOnWire(WordAt(mem, w));
    WordBytes(mem, w);
    hide BitsOf, Swap, WordAt;
  }

  lemma BothHalves(bits: seq<bool>, lo: seq<bool>, hi: seq<bool>)
    requires |bits| == 16 && |lo| == 8 && |hi| == 8
    requires forall k :: 0 <= k < 8 ==> bits[k] == lo[k] && bits[k + 8] == hi[k]
    ensures bits == lo + hi
  {
    forall k | 0 <= k < 16
      ensures bits[k] == (lo + hi)[k]
    {
      if k >= 8 {
        assert bits[(k - 8) + 8] == hi[k - 8];
      }
    }
  }

  lemma WordBytes(mem: seq<U8>, w: nat)
    requires 2 * w + 2 <= |mem|
    ensures WordAt(mem, w) % 256 == mem[2 * w] && WordAt(mem, w) / 256 == mem[2 * w + 1]
  {
  }

  lemma {:induction false} OutputsAt(c: Chip, d: Device, n: nat)
    requires Fits(c, d)
    ensures forall k :: 0 <= k < n ==> Outputs(c, d, n)[k] == Output(c, Clocked(d, k + 1))
  {
    hide Output;
    if n > 0 {
      OutputsAt(c, d, n - 1);
    }
  }

  lemma ReadBit(c: Chip, d: Device, op: nat, w: nat, n: nat, half: nat, k: nat)
    requires Fits(c, d) && d.busy == 0 && 2 * (w + n) + 2 <= |d.mem| && k < 8 && half < 2
    requires op == READ || op == READ + A8
    requires |d.bits| == 8 + c.addressBits + 16 * n && Opcode(d.bits) == op && Address(c, d) == 2 * w
    ensures Output(c, Clocked(d, 8 * half + k + 1)) == BitsOf(d.mem[2 * (w + n) + half], 8)[k]
  {
    var d' := Clocked(d, 8 * half + k + 1);
    SameCommand(c, d, d');
    hide BitsOf, Opcode, Address, Zeros;
    OutputIs(c, d', op, w, 16 * n + 8 * half + k, 2 * n + half, k);
    Remainder(2 * (w + n) + half, |d.mem|, 0, 2 * (w + n) + half);
  }

  lemma SameCommand(c: Chip, d: Device, d': Device)
    requires Fits(c, d) && Fits(c, d') && d'.mem == d.mem && d.bits <= d'.bits && |d.bits| >= 8 + c.addressBits
    ensures Opcode(d'.bits) == Opcode(d.bits) && Address(c, d') == Address(c, d)
  {
    hide ValueOf;
    assert d'.bits[..8] == d.bits[..8];
    assert d'.bits[8..8 + c.addressBits] == d.bits[8..8 + c.addressBits];
  }

  lemma OutputIs(c: Chip, d: Device, op: nat, w: nat, j: nat, byte: nat, bit: nat)
    requires Fits(c, d) && d.busy == 0 && (op == READ || op == READ + A8)
    requires |d.bits| == 9 + c.addressBits + j && Opcode(d.bits) == op && Address(c, d) == 2 * w
    requires j == 8 * byte + bit && bit < 8
    ensures Output(c, d) == BitsOf(d.mem[(2 * w + byte) % |d.mem|], 8)[bit]
  {
    hide BitsOf, Opcode, Address;
    Remainder(j, 8, byte, bit);
  }

  // ----- addresses

  /** The opcode carries the ninth address bit, decided once from the first word. */
  function OpFor(c: Chip, op: nat, offset: nat): nat {
    if c.addressBits == 8 && offset >= 128 then op + A8 else op
  }

  /** Where word w of a transfer that starts at offset really goes. */
  function Target(c: Chip, offset: nat, w: nat): nat {
    if c.addressBits == 8 && offset < 128 && w >= 128 then w - 128 else w
  }

  /** Every word goes to its own place exactly when the address has 16 bits or the range does not cross
      word 128. */
  lemma OwnPlaceExactly(c: Chip, offset: nat, n: nat)
    ensures (forall w :: offset <= w < offset + n ==> Target(c, offset, w) == w)
            <==> c.addressBits != 8 || offset >= 128 || offset + n <= 128
  {
    if c.addressBits == 8 && offset < 128 && offset + n > 128 {
      assert Target(c, offset, 128) != 128;
    }
  }

  /** The command after selection: opcode and byte address. */
  function Command(c: Chip, op: nat, w: nat): (bits: seq<bool>)
    ensures |bits| == 8 + c.addressBits
  {
    BitsOf(op, 8) + BitsOf(2 * w, c.addressBits)
  }

  lemma CommandAddress(c: Chip, d: Device, op: U8, w: nat, rest: seq<bool>)
    requires Fits(c, d) && d.bits == Command(c, op, w) + rest && 2 * w + 2 <= |d.mem|
    requires op >= A8 ==> c.addressBits == 8 && w >= 128
    ensures Opcode(d.bits) == op
    ensures Address(c, d) == 2 * if c.addressBits == 8 && op < A8 && w >= 128 then w - 128 else w
  {
    assert d.bits == BitsOf(op, 8) + (BitsOf(2 * w, c.addressBits) + rest);
    OpcodeBits(op, BitsOf(2 * w, c.addressBits) + rest);
    assert d.bits[8..8 + c.addressBits] == BitsOf(2 * w, c.addressBits);
    ValueOfBits(2 * w, c.addressBits);
    Pow8();
    Pow16();
    hide BitsOf, ValueOf, Opcode, Pow2;
    AddressArithmetic(c.addressBits, w, |d.mem|, op >= A8);
  }

  lemma AddressArithmetic(addressBits: nat, w: nat, size: nat, high: bool)
    requires addressBits == 8 || addressBits == 16
    requires 2 * w + 2 <= size <= 0x1_0000 && (addressBits == 8 ==> size <= 512)
    requires high ==> addressBits == 8 && w >= 128
    ensures var p := if addressBits == 8 then 256 else 0x1_0000;
            (2 * w % p + if high then 256 else 0) % size
            == 2 * if addressBits == 8 && !high && w >= 128 then w - 128 else w
  {
    Remainder(2 * w, size, 0, 2 * w);
    if addressBits == 16 {
      Remainder(2 * w, 0x1_0000, 0, 2 * w);
    } else if w >= 128 {
      Remainder(2 * w - 256, size, 0, 2 * w - 256);
      Remainder(2 * w, 256, 1, 2 * w - 256);
    } else {
      Remainder(2 * w, 256, 0, 2 * w);
    }
  }

  // ----- writing

  /** A write that was enabled takes effect on deselection. */
  lemma WriteTakesEffect(c: Chip, d: Device, offset: nat, w: nat, words: seq<U16>)
    requires Fits(c, d) && d.enabled && d.busy == 0 && offset <= w && 2 * w + 2 <= |d.mem|
    requires d.bits == Command(c, OpFor(c, WRITE, offset), w) + Payload(words)
    ensures 2 * Target(c, offset, w) < |d.mem|
    ensures Deselect(c, d) == Device(Burst(d.mem, c.page, 2 * Target(c, offset, w), BytesOf(Payload(words))), false, c.writePolls, [])
  {
    var op := OpFor(c, WRITE, offset);
    CommandAddress(c, d, op, w, Payload(words));
    hide Command, Payload, BytesOf, Burst, Opcode, Address;
    assert d.bits[8 + c.addressBits..] == Payload(words);
  }

  /** A burst that has not reached the end of its page has room for one more word. */
  lemma RoomForWord(page: nat, s: nat, k: nat)
    requires page >= 2 && page % 2 == 0 && Room(page, 2 * s, 2 * k)
    requires k == 0 || (s + k) * 2 % page != 0
    ensures Room(page, 2 * s, 2 * k + 2)
  {
    hide Room;
    var q, r := Divided(2 * s, page);
    RoomIs(page, 2 * s, q, r, 2 * k);
    RoomIs(page, 2 * s, q, r, 2 * k + 2);
    var half := page / 2;
    assert page == 2 * half;
    var e := EvenRemainder(s, half, q, r);
    if r + 2 * k == page && k > 0 {
      AtPageEnd(s, k, page, q, r);
    }
    NextEven(e, k, half);
  }

  lemma Divided(a: nat, p: nat) returns (q: nat, r: nat)
    requires p > 0
    ensures a == p * q + r && r < p
  {
    q, r := a / p, a % p;
  }

  lemma NextEven(e: int, k: nat, half: nat)
    requires 2 * e + 2 * k <= 2 * half && (2 * e + 2 * k == 2 * half ==> k == 0) && 2 * e < 2 * half
    ensures 2 * e + 2 * k + 2 <= 2 * half
  {
  }

  lemma AtPageEnd(s: nat, k: nat, page: nat, q: nat, r: nat)
    requires page > 0 && 2 * s == page * q + r && r + 2 * k == page
    ensures (s + k) * 2 % page == 0
  {
    OnePageMore(page, q);
    Remainder((s + k) * 2, page, q + 1, 0);
  }

  lemma EvenRemainder(s: nat, half: nat, q: nat, r: nat) returns (e: int)
    requires 2 * s == (2 * half) * q + r
    ensures r == 2 * e
  {
    Doubled(half, q);
    e := s - half * q;
  }

  predicate EndsAt128(page: nat) {
    page >= 2 && 256 % page == 0
  }

  /** Pages end at word 128, so a burst that starts below stays below. */
  lemma BurstBelow(page: nat, s: nat, k: nat)
    requires EndsAt128(page) && s < 128 && Room(page, 2 * s, 2 * k + 2)
    ensures s + k < 128
  {
    var q, r, m := 2 * s / page, 2 * s % page, 256 / page;
    assert 2 * s == page * q + r && 256 == page * m;
    if q >= m {
      Times(page, m, q);
    } else {
      Times(page, q + 1, m);
      OnePageMore(page, q);
    }
  }

  lemma SamePlaceInPage(page: nat, s: nat, n: nat)
    requires EndsAt128(page) && s >= 128 && Room(page, 2 * s, n)
    ensures Room(page, 2 * (s - 128), n)
  {
    hide Room;
    var q, r, m := 2 * s / page, 2 * s % page, 256 / page;
    assert 2 * s == page * q + r && 256 == page * m;
    TimesMinus(page, q, m);
    PagesAbove(page, q, r, m, 2 * s);
    RoomIs(page, 2 * s, q, r, n);
    RoomIs(page, 2 * s - 256, q - m, r, n);
    assert Room(page, 2 * (s - 128), n);
  }

  lemma RoomIs(page: nat, addr: nat, q: nat, r: nat, n: nat)
    requires r < page && addr == page * q + r
    ensures Room(page, addr, n) <==> r + n <= page
  {
    Remainder(addr, page, q, r);
  }

  lemma PagesAbove(page: nat, q: nat, r: nat, m: nat, x: nat)
    requires r < page && x == page * q + r && x >= page * m
    ensures q >= m
  {
    if q < m {
      Times(page, q + 1, m);
      OnePageMore(page, q);
    }
  }

  lemma TimesMinus(p: nat, a: int, b: int)
    ensures p * (a - b) == p * a - p * b
  {
  }

  /** A burst inside its page keeps to its page at the target, too. */
  lemma TargetRoom(c: Chip, offset: nat, s: nat, k: nat)
    requires c.page >= 2 && (c.addressBits == 8 ==> EndsAt128(c.page)) && Room(c.page, 2 * s, 2 * k + 2)
    ensures Room(c.page, 2 * Target(c, offset, s), 2 * k + 2)
    ensures Target(c, offset, s + k) == Target(c, offset, s) + k && Target(c, offset, s) <= s
  {
    hide Room, EndsAt128;
    if c.addressBits == 8 && offset < 128 {
      if s < 128 {
        BurstBelow(c.page, s, k);
      } else {
        SamePlaceInPage(c.page, s, 2 * k + 2);
      }
    }
  }

  lemma PayloadOne(words: seq<U16>, v: U16)
    ensures Payload(words + [v]) == Payload(words) + BitsOf(Swap(v), 16)
  {
    assert (words + [v])[..|words|] == words;
  }

  lemma BitsGrow(c: Chip, d: Device, offset: nat, s: nat, words: seq<U16>, v: U16)
    requires d.bits == Command(c, OpFor(c, WRITE, offset), s) + Payload(words)
    ensures d.bits + BitsOf(Swap(v), 16) == Command(c, OpFor(c, WRITE, offset), s) + Payload(words + [v])
  {
    PayloadOne(words, v);
    FrontFirst(Command(c, OpFor(c, WRITE, offset), s), Payload(words), BitsOf(Swap(v), 16));
  }

  /** The memory after a burst of words to word t. */
  function Executed(c: Chip, mem: seq<U8>, t: nat, words: seq<U16>): seq<U8> {
    if Paged(|mem|, c.page) && 2 * t < |mem| then Burst(mem, c.page, 2 * t, BytesOf(Payload(words))) else mem
  }

  lemma ExecutedIs(c: Chip, mem: seq<U8>, t: nat, words: seq<U16>)
    requires Paged(|mem|, c.page) && 2 * t < |mem|
    ensures Executed(c, mem, t, words) == Burst(mem, c.page, 2 * t, BytesOf(Payload(words)))
  {
  }

  lemma MemoryGrows(c: Chip, mem: seq<U8>, t: nat, words: seq<U16>, words': seq<U16>, v: U16)
    requires Paged(|mem|, c.page) && 2 * (t + |words|) + 2 <= |mem| && Room(c.page, 2 * t, 2 * |words| + 2)
    requires words' == words + [v]
    ensures OneWordLater(Executed(c, mem, t, words), Executed(c, mem, t, words'), t + |words|, v)
  {
    hide Executed, Burst, Payload, BytesOf, PutWord, Paged, Room;
    ExecutedIs(c, mem, t, words);
    ExecutedIs(c, mem, t, words');
    BurstGrows(mem, c.page, t, words, v);
  }

  lemma WriteExecuted(c: Chip, d: Device, offset: nat, s: nat, words: seq<U16>)
    requires Fits(c, d) && d.enabled && d.busy == 0 && offset <= s && 2 * s + 2 <= |d.mem|
    requires d.bits == Command(c, OpFor(c, WRITE, offset), s) + Payload(words)
    ensures Deselect(c, d).mem == Executed(c, d.mem, Target(c, offset, s), words)
  {
    hide *;
    WriteTakesEffect(c, d, offset, s, words);
    FitsMeans(c, d);
    ExecutedIs(c, d.mem, Target(c, offset, s), words);
  }

  /** One more word on the wire is one more word in the memory. */
  lemma OneMoreWord(c: Chip, d: Device, d': Device, offset: nat, s: nat, words: seq<U16>, words': seq<U16>, v: U16)
    requires Fits(c, d) && d.enabled && d.busy == 0 && offset <= s && 2 * (s + |words|) + 2 <= |d.mem|
    requires d.bits == Command(c, OpFor(c, WRITE, offset), s) + Payload(words)
    requires Room(c.page, 2 * s, 2 * |words| + 2)
    requires d'.mem == d.mem && d'.enabled && d'.busy == 0 && words' == words + [v]
    requires d'.bits == Command(c, OpFor(c, WRITE, offset), s) + Payload(words')
    ensures Fits(c, d')
    ensures OneWordLater(Deselect(c, d).mem, Deselect(c, d').mem, Target(c, offset, s + |words|), v)
  {
    hide *;
    SameFits(c, d, d');
    WriteExecuted(c, d, offset, s, words);
    WriteExecuted(c, d', offset, s, words');
    FitsMeans(c, d);
    TargetRoom(c, offset, s, |words|);
    MemoryGrows(c, d.mem, Target(c, offset, s), words, words', v);
  }

  /** The second memory is the first with word t put in. */
  predicate OneWordLater(mem: seq<U8>, mem': seq<U8>, t: nat, v: U16) {
    2 * t + 2 <= |mem| && mem' == PutWord(mem, t, v)
  }

  lemma FrontFirst(a: seq<bool>, b: seq<bool>, more: seq<bool>)
    ensures (a + b) + more == a + (b + more)
  {
  }

  lemma FitsMeans(c: Chip, d: Device)
    requires Fits(c, d)
    ensures c.page >= 2 && (c.addressBits == 8 ==> EndsAt128(c.page)) && Paged(|d.mem|, c.page)
    ensures c.addressBits == 8 || c.addressBits == 16
  {
  }

  lemma SameFits(c: Chip, d: Device, d': Device)
    requires Fits(c, d) && |d'.mem| == |d.mem|
    ensures Fits(c, d')
  {
  }

  // ----- what the operations do to the memory

  /** The memory after words were written from offset on. */
  function Written(c: Chip, mem: seq<U8>, offset: nat, words: seq<U16>): (r: seq<U8>)
    requires 2 * (offset + |words|) <= |mem|
    ensures |r| == |mem|
  {
    if words == [] then mem
    else
      var n := |words| - 1;
      PutWord(Written(c, mem, offset, words[..n]), Target(c, offset, offset + n), words[n])
  }

  lemma PutWordPlace(mem: seq<U8>, t: nat, v: U16, w: nat)
    requires 2 * t + 2 <= |mem| && 2 * w + 2 <= |mem|
    ensures WordAt(PutWord(mem, t, v), w) == if w == t then v else WordAt(mem, w)
  {
  }

  /** Without crossing every word reads back from its own place, and no other word changes. */
  lemma {:induction false} WrittenReadsBack(c: Chip, mem: seq<U8>, offset: nat, words: seq<U16>, w: nat)
    requires 2 * (offset + |words|) <= |mem| && 2 * w + 2 <= |mem|
    requires c.addressBits != 8 || offset >= 128 || offset + |words| <= 128
    ensures WordAt(Written(c, mem, offset, words), w)
            == if offset <= w < offset + |words| then words[w - offset] else WordAt(mem, w)
  {
    if words != [] {
      var n := |words| - 1;
      WrittenReadsBack(c, mem, offset, words[..n], w);
      PutWordPlace(Written(c, mem, offset, words[..n]), Target(c, offset, offset + n), words[n], w);
    }
  }

  /** A range that crosses word 128 with eight address bits leaves word 128 as it was and ends up
      overwriting word 0. */
  lemma {:induction false} CrossingGoesAstray(c: Chip, mem: seq<U8>, offset: nat, words: seq<U16>)
    requires 2 * (offset + |words|) <= |mem| <= 512 && c.addressBits == 8 && offset < 128 < offset + |words|
    ensures WordAt(Written(c, mem, offset, words), 128) == WordAt(mem, 128)
    ensures WordAt(Written(c, mem, offset, words), 0) == words[128 - offset]
    decreases |words|
  {
    var n := |words| - 1;
    var before := Written(c, mem, offset, words[..n]);
    PutWordPlace(before, Target(c, offset, offset + n), words[n], 128);
    PutWordPlace(before, Target(c, offset, offset + n), words[n], 0);
    if offset + n > 128 {
      CrossingGoesAstray(c, mem, offset, words[..n]);
    } else {
      WrittenReadsBack(c, mem, offset, words[..n], 128);
    }
  }

  class Hw {
    const chip: Chip
    const wordSize: nat
    /** Whether software is granted access, and the chip behind the pins. */
    const granted: bool
    var dev: Device

    ghost predicate Valid()
      reads this
    {
      Fits(chip, dev) && 2 * wordSize == |dev.mem|
    }

    /** Nothing has been sent since the last command. */
    ghost predicate Quiet()
      reads this
    {
      Valid() && dev.bits == []
    }

    method ShiftOut(data: nat, count: nat)
      requires Valid() && count > 0
      modifies this
      ensures Valid() && dev == old(dev).(bits := old(dev.bits) + BitsOf(data, count))
    {
      hide Fits;
      ghost var d0 := dev;
      var mask: nat := Pow2(count - 1);
      ghost var left: nat := count;
      assert BitsOf(Shr(data, count), 0) == [] && d0.bits + [] == d0.bits;
      while mask > 0
        invariant left <= count && mask == if left == 0 then 0 else Pow2(left - 1)
        invariant dev == d0.(bits := d0.bits + BitsOf(Shr(data, left), count - left))
        decreases left
      {
        var di := data / mask % 2 == 1;
        ShrDivides(data, left - 1);
        ShrOne(data, left - 1);
        assert BitsOf(Shr(data, left - 1), count - left + 1) == BitsOf(Shr(data, left), count - left) + [di];
        dev := Clock(dev, di);
        mask := mask / 2;
        left := left - 1;
      }
      assert Shr(data, 0) == data;
      FitsSame(chip, d0, dev);
    }

    method ShiftIn(count: nat) returns (data: nat)
      requires Valid()
      modifies this
      ensures Valid() && dev == Clocked(old(dev), count)
      ensures data == ValueOf(Outputs(chip, old(dev), count))
    {
      hide Output;
      ghost var d0 := dev;
      data := 0;
      var i := 0;
      assert d0.bits + Zeros(0) == d0.bits;
      while i < count
        invariant i <= count && dev == Clocked(d0, i) && data == ValueOf(Outputs(chip, d0, i))
      {
        assert d0.bits + Zeros(i + 1) == (d0.bits + Zeros(i)) + [false];
        data := 2 * data;
        dev := Clock(dev, false);
        if Output(chip, dev) {
          data := data + 1;
        }
        OutputsGrow(chip, d0, i);
        i := i + 1;
      }
    }

    /** Toggles chip select: e1000_standby_eeprom and e1000_release_eeprom. */
    method Standby()
      requires Valid()
      modifies this
      ensures Quiet() && dev == Deselect(chip, old(dev))
    {
      DeselectKeeps(chip, dev);
      dev := Deselect(chip, dev);
    }

    /** Polls the status until the chip is ready, a thousand times at most. */
    method SpiReady() returns (ok: bool)
      requires Quiet()
      modifies this
      ensures Valid() && (ok <==> 5 * old(dev.busy) < MAX_RETRY)
      ensures ok ==> Deselect(chip, dev) == old(dev).(busy := 0)
      ensures !ok ==> dev.bits == [] && dev.mem == old(dev.mem) && dev.enabled == old(dev.enabled)
    {
      hide Fits, Deselect, ValueOf, Outputs, Clocked;
      ghost var d0 := dev;
      var retry := 0;
      ok := false;
      while retry < MAX_RETRY && !ok
        invariant Valid() && 0 <= retry && retry % 5 == 0 && retry <= MAX_RETRY
        invariant !ok ==> retry <= 5 * d0.busy && dev == d0.(busy := d0.busy - retry / 5)
        invariant ok ==> 5 * d0.busy < MAX_RETRY && Deselect(chip, dev) == d0.(busy := 0)
        decreases MAX_RETRY - retry, !ok
      {
        ghost var d1 := dev;
        ShiftOut(RDSR, 8);
        ghost var d2 := dev;
        assert [] + BitsOf(RDSR, 8) == BitsOf(RDSR, 8);
        var stat := ShiftIn(8);
        StatusBit(chip, d2);
        if stat % 2 == 0 {
          ok := true;
        } else {
          retry := retry + 5;
          Standby();
        }
      }
    }

    /** e1000_do_read_eeprom on a serial EEPROM: words from offset on into data[at..]. */
    method DoRead(offset: nat, words: nat, data: array<U16>, at: nat) returns (ok: bool)
      requires Quiet() && at + words <= data.Length
      modifies this, data
      ensures Quiet() && dev.mem == old(dev.mem) && dev.enabled == old(dev.enabled)
      ensures ok <==> InRange(offset, words) && granted && 5 * old(dev.busy) < MAX_RETRY
      ensures ok ==> dev.busy == 0 && forall j :: at <= j < at + words ==> data[j] == WordAt(dev.mem, offset + (j - at))
      ensures forall k :: 0 <= k < data.Length && !(ok && at <= k < at + words) ==> data[k] == old(data[k])
      ensures !(InRange(offset, words) && granted) ==> dev == old(dev)
    {
      hide Fits, Deselect, Command, WordAt;
      if offset >= wordSize || words > wordSize - offset || words == 0 {
        return false;
      }
      if !granted {
        return false;
      }
      ok := SpiReady();
      if !ok {
        return;
      }
      Standby();
      var readOpcode := READ;
      if chip.addressBits == 8 && offset >= 128 {
        readOpcode := READ + A8;
      }
      SendCommand(readOpcode, offset);
      ghost var d0 := dev;
      AddressSent(chip, d0, readOpcode, offset);
      var i := 0;
      assert d0.bits + Zeros(0) == d0.bits;
      while i < words
        invariant i <= words && Valid() && dev == Clocked(d0, 16 * i)
        invariant forall j :: at <= j < at + i ==> data[j] == WordAt(d0.mem, offset + (j - at))
        invariant forall k :: 0 <= k < data.Length && !(at <= k < at + i) ==> data[k] == old(data[k])
      {
        data[at + i] := NextWord(d0, readOpcode, offset, i);
        i := i + 1;
      }
      ReadDeselected(chip, d0, dev, readOpcode);
      Standby();
    }

    /** The next two bytes of a read, put back into one word. */
    method NextWord(ghost d0: Device, ghost op: nat, ghost offset: nat, ghost i: nat) returns (w: U16)
      requires Valid() && Fits(chip, d0) && dev == Clocked(d0, 16 * i) && d0.busy == 0 && 2 * (offset + i) + 2 <= |d0.mem|
      requires op == READ || op == READ + A8
      requires |d0.bits| == 8 + chip.addressBits && Opcode(d0.bits) == op && Address(chip, d0) == 2 * offset
      modifies this
      ensures Valid() && dev == Clocked(d0, 16 * (i + 1)) && w == WordAt(d0.mem, offset + i)
    {
      hide Fits, Clocked, Outputs, ValueOf, Opcode, Address, Swap, WordAt;
      NextWordOnWire(chip, d0, dev, op, offset, i);
      var wordIn := ShiftIn(16);
      w := Swap(wordIn);
    }

    predicate InRange(offset: nat, words: nat) {
      offset < wordSize && words <= wordSize - offset && words != 0
    }

    /** Opcode and byte address. */
    method SendCommand(op: nat, w: nat)
      requires Quiet()
      modifies this
      ensures Valid() && dev == old(dev).(bits := Command(chip, op, w))
    {
      hide BitsOf;
      FitsMeans(chip, dev);
      ShiftOut(op, 8);
      assert [] + BitsOf(op, 8) == BitsOf(op, 8);
      ShiftOut(2 * w, chip.addressBits);
    }

    /** The words from..widx of a burst are on the wire. */
    ghost predicate Sending(offset: nat, all: seq<U16>, from: nat, widx: nat, mem0: seq<U8>)
      reads this
    {
      && Valid() && dev.enabled && dev.busy == 0 && from <= widx <= |all| && 2 * (offset + |all|) <= |mem0| == |dev.mem|
      && dev.bits == Command(chip, OpFor(chip, WRITE, offset), offset + from) + Payload(all[from..widx])
      && Room(chip.page, 2 * (offset + from), 2 * (widx - from))
      && Deselect(chip, dev).mem == Written(chip, mem0, offset, all[..widx])
    }

    /** One word of a burst. */
    method SendWord(offset: nat, data: array<U16>, ghost from: nat, widx: nat, ghost all: seq<U16>, ghost mem0: seq<U8>)
      requires Sending(offset, all, from, widx, mem0) && widx < |all| <= data.Length && all == data[..|all|]
      requires chip.page > 0 && (widx == from || (offset + widx) * 2 % chip.page != 0)
      modifies this
      ensures Sending(offset, all, from, widx + 1, mem0)
    {
      hide Fits, Deselect, Command, Payload, Written, Effect, Room, BitsOf, Swap, Target, PutWord, OneWordLater;
      ghost var before, s := dev, offset + from;
      RoomInPage(chip, dev, s, widx - from);
      var wordOut := Swap(data[widx]);
      ShiftOut(wordOut, 16);
      assert all[from..widx + 1] == all[from..widx] + [all[widx]];
      assert all[..widx + 1] == all[..widx] + [all[widx]];
      BitsGrow(chip, before, offset, s, all[from..widx], all[widx]);
      OneMoreWord(chip, before, dev, offset, s, all[from..widx], all[from..widx + 1], all[widx]);
      WrittenOne(chip, mem0, offset, all[..widx], all[widx], Deselect(chip, dev).mem);
    }

    /** The inner loop of e1000_write_eeprom_spi: data words until the page or the data ends. */
    method SendPage(offset: nat, words: nat, data: array<U16>, from: nat, ghost mem0: seq<U8>) returns (widx: nat)
      requires Valid() && InRange(offset, words) && from < words <= data.Length && |mem0| == |dev.mem|
      requires dev.bits == Command(chip, OpFor(chip, WRITE, offset), offset + from) && dev.enabled && dev.busy == 0
      requires dev.mem == Written(chip, mem0, offset, data[..from])
      modifies this
      ensures Valid() && from < widx <= words && (widx < words ==> Quiet())
      ensures Effect(chip, dev, Written(chip, mem0, offset, data[..widx]))
    {
      hide Fits, Deselect, Command, Payload, Written, Effect, Room, Target, PutWord;
      ghost var all := data[..words];
      assert data[..from] == all[..from] && all[from..from] == [];
      FitsMeans(chip, dev);
      PageStart(chip, dev, offset, offset + from);
      widx := from;
      while widx < words
        invariant Sending(offset, all, from, widx, mem0) && (widx == from || (offset + widx) * 2 % chip.page != 0)
      {
        SendWord(offset, data, from, widx, all, mem0);
        widx := widx + 1;
        if (offset + widx) * 2 % chip.page == 0 {
          break;
        }
      }
      assert data[..widx] == all[..widx];
      WriteEffect(chip, dev, offset, offset + from, all[from..widx]);
      if (offset + widx) * 2 % chip.page == 0 {
        Standby();
        EffectStays(chip, dev);
      }
    }

    /** The write-enable command. */
    method EnableWrite()
      requires Quiet() && dev.busy == 0
      modifies this
      ensures Quiet() && dev == old(dev).(enabled := true)
    {
      hide Fits, Deselect, BitsOf;
      ShiftOut(WREN, 8);
      EnableTakesEffect(chip, dev);
      Standby();
    }

    /** e1000_write_eeprom_spi. Of a write that fails the first k words are stored. */
    method WriteSpi(offset: nat, words: nat, data: array<U16>) returns (ok: bool, ghost k: nat)
      requires Quiet() && InRange(offset, words) && words <= data.Length
      modifies this
      ensures Valid() && k <= words && (ok ==> k == words)
      ensures Deselect(chip, dev).mem == Written(chip, old(dev.mem), offset, data[..k])
      ensures ok ==> Effect(chip, dev, Written(chip, old(dev.mem), offset, data[..words]))
      ensures 5 * old(dev.busy) < MAX_RETRY && 5 * chip.writePolls < MAX_RETRY ==> ok
    {
      hide Fits, Deselect, Written, Command, Effect;
      ghost var mem0 := dev.mem;
      var widx := 0;
      assert Written(chip, mem0, offset, data[..0]) == mem0 by { WrittenNone(chip, mem0, offset, data[..0]); }
      while widx < words
        invariant widx <= words && Valid() && (widx < words ==> Quiet())
        invariant widx == 0 ==> dev == old(dev)
        invariant widx > 0 ==> Effect(chip, dev, Written(chip, mem0, offset, data[..widx]))
      {
        DeselectIdle(chip, dev);
        if widx > 0 {
          EffectIs(chip, dev, Written(chip, mem0, offset, data[..widx]));
        }
        ok := SpiReady();
        if !ok {
          k := widx;
          DeselectIdle(chip, dev);
          return;
        }
        Standby();
        EnableWrite();
        var writeOpcode := WRITE;
        if chip.addressBits == 8 && offset >= 128 {
          writeOpcode := WRITE + A8;
        }
        SendCommand(writeOpcode, offset + widx);
        widx := SendPage(offset, words, data, widx, mem0);
      }
      ok, k := true, words;
      EffectIs(chip, dev, Written(chip, mem0, offset, data[..words]));
    }

    /** The chip answers its status polls in time, now and after every write. */
    predicate Responsive()
      reads this
    {
      5 * dev.busy < MAX_RETRY && 5 * chip.writePolls < MAX_RETRY
    }

    /** e1000_do_write_eeprom. */
    method DoWrite(offset: nat, words: nat, data: array<U16>) returns (ok: bool, ghost k: nat)
      requires Quiet() && words <= data.Length
      modifies this
      ensures Quiet() && k <= words && (ok ==> k == words && InRange(offset, words) && granted && dev.busy == chip.writePolls)
      ensures InRange(offset, words) ==> dev.mem == Written(chip, old(dev.mem), offset, data[..k])
      ensures !InRange(offset, words) || !granted ==> dev == old(dev)
      ensures old(Responsive()) && InRange(offset, words) && granted ==> ok && Responsive()
    {
      hide Fits, Deselect, Written;
      k := 0;
      ok := false;
      if offset >= wordSize || words > wordSize - offset || words == 0 {
        return;
      }
      WrittenNone(chip, dev.mem, offset, data[..0]);
      if !granted {
        return;
      }
      ok, k := WriteSpi(offset, words, data);
      Standby();
    }

    /** e1000_read_eeprom of one word. */
    method ReadWord(w: nat) returns (ok: bool, v: U16)
      requires Quiet()
      modifies this
      ensures Quiet() && dev.mem == old(dev.mem) && (ok ==> w < wordSize && v == WordAt(dev.mem, w))
      ensures old(Responsive()) && granted && w < wordSize ==> ok && Responsive()
    {
      hide Fits, Deselect, WordAt;
      var one := new U16[1];
      ok := DoRead(w, 1, one, 0);
      v := one[0];
    }

    /** e1000_update_eeprom_checksum: changes word 63 only, and makes the first 64 words add up. */
    method UpdateChecksum() returns (ok: bool)
      requires Quiet() && wordSize >= 64
      modifies this
      ensures Quiet()
      ensures ok ==> ValidImage(dev.mem) && exists v :: PutOne(old(dev.mem), dev.mem, CHECKSUM_REG, v)
      ensures !ok ==> dev.mem == old(dev.mem) || exists v :: PutOne(old(dev.mem), dev.mem, CHECKSUM_REG, v)
      ensures old(Responsive()) && granted ==> ok && Responsive()
    {
      hide Fits, Written, WordAt, PutWord, Target;
      ghost var mem0 := dev.mem;
      var checksum: U16 := 0;
      var i := 0;
      while i < CHECKSUM_REG
        invariant i <= CHECKSUM_REG && Quiet() && dev.mem == mem0
        invariant checksum == WordSum(mem0, i) % 0x1_0000
        invariant old(Responsive()) && granted ==> Responsive()
      {
        var eepromData;
        ok, eepromData := ReadWord(i);
        if !ok {
          return;
        }
        AddedWord(WordSum(mem0, i), eepromData);
        checksum := (checksum + eepromData) % 0x1_0000;
        i := i + 1;
      }
      var sum := new U16[1];
      sum[0] := (EEPROM_SUM - checksum) % 0x1_0000;
      ghost var k;
      ok, k := DoWrite(CHECKSUM_REG, 1, sum);
      if k == 1 {
        assert sum[..1] == [sum[0]];
        OneWordWritten(chip, mem0, CHECKSUM_REG, sum[0]);
        ChecksumFits(mem0, sum[0]);
        assert PutOne(mem0, dev.mem, CHECKSUM_REG, sum[0]);
      } else {
        WrittenNone(chip, mem0, CHECKSUM_REG, sum[..0]);
      }
    }

    /** e1000_validate_eeprom_checksum. */
    method ValidateChecksum() returns (ok: bool)
      requires Quiet() && wordSize >= 64
      modifies this
      ensures Quiet() && dev.mem == old(dev.mem) && (ok ==> ValidImage(dev.mem))
      ensures old(Responsive()) && granted ==> (ok <==> ValidImage(dev.mem))
    {
      hide Fits, WordAt;
      ghost var mem0 := dev.mem;
      var checksum: U16 := 0;
      var i := 0;
      while i < CHECKSUM_REG + 1
        invariant i <= CHECKSUM_REG + 1 && Quiet() && dev.mem == mem0
        invariant checksum == WordSum(mem0, i) % 0x1_0000
        invariant old(Responsive()) && granted ==> Responsive()
      {
        var eepromData;
        ok, eepromData := ReadWord(i);
        if !ok {
          return;
        }
        AddedWord(WordSum(mem0, i), eepromData);
        checksum := (checksum + eepromData) % 0x1_0000;
        i := i + 1;
      }
      ok := checksum == EEPROM_SUM;
    }
  }

  lemma ShrOne(d: nat, m: nat)
    ensures Shr(d, m + 1) == Shr(d, m) / 2
  {
    if m > 0 {
      ShrOne(d / 2, m - 1);
    }
  }

  lemma FitsSame(c: Chip, d: Device, d': Device)
    requires Fits(c, d) && |d'.mem| == |d.mem|
    ensures Fits(c, d')
  {
  }

  lemma OutputsGrow(c: Chip, d: Device, n: nat)
    requires Fits(c, d)
    ensures Fits(c, Clocked(d, n + 1))
    ensures ValueOf(Outputs(c, d, n + 1)) == 2 * ValueOf(Outputs(c, d, n)) + if Output(c, Clocked(d, n + 1)) then 1 else 0
  {
    hide Output;
    assert Outputs(c, d, n + 1)[..n] == Outputs(c, d, n);
  }

  lemma DeselectKeeps(c: Chip, d: Device)
    requires Fits(c, d)
    ensures |Deselect(c, d).mem| == |d.mem| && Deselect(c, d).bits == [] && Fits(c, Deselect(c, d))
  {
  }

  /** The address of a read is the first word's own, in either half of a small chip. */
  lemma AddressSent(c: Chip, d: Device, op: nat, w: nat)
    requires Fits(c, d) && 2 * w + 2 <= |d.mem| && d.bits == Command(c, op, w)
    requires op == if c.addressBits == 8 && w >= 128 then READ + A8 else READ
    ensures |d.bits| == 8 + c.addressBits && Opcode(d.bits) == op && Address(c, d) == 2 * w
  {
    hide Command, Opcode, Address;
    assert Command(c, op, w) + [] == Command(c, op, w);
    CommandAddress(c, d, op, w, []);
  }

  /** The next sixteen clocks of a read. */
  lemma NextWordOnWire(c: Chip, d0: Device, d: Device, op: nat, offset: nat, i: nat)
    requires Fits(c, d0) && Fits(c, d) && d == Clocked(d0, 16 * i) && d0.busy == 0 && 2 * (offset + i) + 2 <= |d0.mem|
    requires op == READ || op == READ + A8
    requires |d0.bits| == 8 + c.addressBits && Opcode(d0.bits) == op && Address(c, d0) == 2 * offset
    ensures Clocked(d, 16) == Clocked(d0, 16 * (i + 1))
    ensures ValueOf(Outputs(c, d, 16)) < 0x1_0000 && Swap(ValueOf(Outputs(c, d, 16))) == WordAt(d0.mem, offset + i)
  {
    hide Fits, Outputs, ValueOf, Opcode, Address, Swap, WordAt, Zeros, BitsOf;
    SameCommand(c, d0, d);
    ReadsWord(c, d, op, offset, i);
    WordFromWire(d0.mem, offset + i);
    ClockedOn(d0, 16 * i, 16);
  }

  lemma WordFromWire(mem: seq<U8>, w: nat)
    requires 2 * w + 2 <= |mem|
    ensures var v := ValueOf(BitsOf(Swap(WordAt(mem, w)), 16));
            v < 0x1_0000 && Swap(v) == WordAt(mem, w)
  {
    ValueOfBits(Swap(WordAt(mem, w)), 16);
    Pow16();
    SwapTwice(WordAt(mem, w));
    hide BitsOf, ValueOf, WordAt;
    Remainder(Swap(WordAt(mem, w)), 0x1_0000, 0, Swap(WordAt(mem, w)));
  }

  lemma {:induction false} ClockedOn(d: Device, n: nat, m: nat)
    ensures Clocked(Clocked(d, n), m) == Clocked(d, n + m)
  {
    if m == 0 {
      assert (d.bits + Zeros(n)) + Zeros(0) == d.bits + Zeros(n);
    } else {
      ClockedOn(d, n, m - 1);
      assert (d.bits + Zeros(n)) + (Zeros(m - 1) + [false]) == ((d.bits + Zeros(n)) + Zeros(m - 1)) + [false];
      assert d.bits + (Zeros(n + m - 1) + [false]) == (d.bits + Zeros(n + m - 1)) + [false];
    }
  }

  /** Ending a read changes nothing. */
  lemma ReadDeselected(c: Chip, d: Device, d': Device, op: nat)
    requires Fits(c, d) && Fits(c, d') && d' == d.(bits := d'.bits) && d.bits <= d'.bits && |d.bits| >= 8
    requires Opcode(d.bits) == op && (op == READ || op == READ + A8)
    ensures Deselect(c, d') == d.(bits := [])
  {
    hide ValueOf;
    assert d'.bits[..8] == d.bits[..8];
  }

  /** Deselecting now leaves this memory and a chip busy with it. */
  predicate Effect(c: Chip, d: Device, mem: seq<U8>)
    requires Fits(c, d)
  {
    Deselect(c, d).mem == mem && Deselect(c, d).busy == c.writePolls
  }

  lemma DeselectIdle(c: Chip, d: Device)
    requires Fits(c, d)
    ensures d.bits == [] ==> Deselect(c, d) == d
  {
  }

  lemma EffectIs(c: Chip, d: Device, mem: seq<U8>)
    requires Fits(c, d) && Effect(c, d, mem)
    ensures Deselect(c, d).mem == mem && Deselect(c, d).busy == c.writePolls
  {
  }

  lemma EffectStays(c: Chip, d: Device)
    requires Fits(c, d) && d.bits == [] && d.busy == c.writePolls
    ensures Effect(c, d, d.mem)
  {
  }

  lemma WrittenNone(c: Chip, mem: seq<U8>, offset: nat, words: seq<U16>)
    requires words == [] && 2 * offset <= |mem|
    ensures Written(c, mem, offset, words) == mem
  {
  }

  lemma WrittenOne(c: Chip, mem: seq<U8>, offset: nat, words: seq<U16>, v: U16, mem': seq<U8>)
    requires 2 * (offset + |words| + 1) <= |mem|
    requires OneWordLater(Written(c, mem, offset, words), mem', Target(c, offset, offset + |words|), v)
    ensures mem' == Written(c, mem, offset, words + [v])
  {
    assert (words + [v])[..|words|] == words;
    hide Target, PutWord;
  }

  lemma RoomInPage(c: Chip, d: Device, s: nat, k: nat)
    requires Fits(c, d) && Room(c.page, 2 * s, 2 * k)
    requires k == 0 || (s + k) * 2 % c.page != 0
    ensures Room(c.page, 2 * s, 2 * k + 2)
  {
    hide Room;
    RoomForWord(c.page, s, k);
  }

  /** A burst without data yet. */
  lemma PageStart(c: Chip, d: Device, offset: nat, s: nat)
    requires Fits(c, d) && d.enabled && d.busy == 0 && offset <= s && 2 * s + 2 <= |d.mem|
    requires d.bits == Command(c, OpFor(c, WRITE, offset), s)
    ensures Room(c.page, 2 * s, 0) && Deselect(c, d).mem == d.mem
    ensures d.bits == Command(c, OpFor(c, WRITE, offset), s) + Payload([])
  {
    hide Command, Deselect;
    assert d.bits + [] == d.bits;
    WriteTakesEffect(c, d, offset, s, []);
    assert BytesOf(Payload([])) == [];
  }

  lemma WriteEffect(c: Chip, d: Device, offset: nat, s: nat, words: seq<U16>)
    requires Fits(c, d) && d.enabled && d.busy == 0 && offset <= s && 2 * s + 2 <= |d.mem|
    requires d.bits == Command(c, OpFor(c, WRITE, offset), s) + Payload(words)
    ensures Effect(c, d, Deselect(c, d).mem) && Deselect(c, d).bits == [] && Deselect(c, d).busy == c.writePolls
  {
    hide Command, Payload, Deselect;
    WriteTakesEffect(c, d, offset, s, words);
  }

  lemma EnableTakesEffect(c: Chip, d: Device)
    requires Fits(c, d) && d.busy == 0 && d.bits == [] + BitsOf(WREN, 8)
    ensures Deselect(c, d) == d.(bits := [], enabled := true)
  {
    assert d.bits == BitsOf(WREN, 8) + [];
    OpcodeBits(WREN, []);
  }

  // ----- the checksum word

  function WordSum(mem: seq<U8>, n: nat): (sum: nat)
    requires 2 * n <= |mem|
  {
    if n == 0 then 0 else WordSum(mem, n - 1) + WordAt(mem, n - 1)
  }

  /** The first 64 words add up to 0xBABA in 16 bits. */
  predicate ValidImage(mem: seq<U8>) {
    |mem| >= 128 && WordSum(mem, CHECKSUM_REG + 1) % 0x1_0000 == EEPROM_SUM
  }

  /** Only word w changed, to v. */
  predicate PutOne(mem: seq<U8>, mem': seq<U8>, w: nat, v: U16) {
    2 * w + 2 <= |mem| && mem' == PutWord(mem, w, v)
  }

  lemma AddedWord(sum: nat, w: U16)
    ensures (sum % 0x1_0000 + w) % 0x1_0000 == (sum + w) % 0x1_0000
  {
  }

  lemma OneWordWritten(c: Chip, mem: seq<U8>, w: nat, v: U16)
    requires 2 * w + 2 <= |mem|
    ensures w < 128 ==> Written(c, mem, w, [v]) == PutWord(mem, w, v)
  {
    assert [v][..0] == [];
  }

  lemma {:induction false} SumUntouched(mem: seq<U8>, v: U16, n: nat)
    requires n <= CHECKSUM_REG && 2 * CHECKSUM_REG + 2 <= |mem|
    ensures WordSum(PutWord(mem, CHECKSUM_REG, v), n) == WordSum(mem, n)
  {
    hide WordAt, PutWord;
    if n > 0 {
      SumUntouched(mem, v, n - 1);
      PutWordPlace(mem, CHECKSUM_REG, v, n - 1);
    }
  }

  lemma ChecksumFits(mem: seq<U8>, v: U16)
    requires |mem| >= 128
    requires v == (EEPROM_SUM - WordSum(mem, CHECKSUM_REG) % 0x1_0000) % 0x1_0000
    ensures ValidImage(PutWord(mem, CHECKSUM_REG, v))
  {
    hide WordAt, PutWord;
    SumUntouched(mem, v, CHECKSUM_REG);
    PutWordPlace(mem, CHECKSUM_REG, v, CHECKSUM_REG);
    SumUp(WordSum(mem, CHECKSUM_REG), v);
  }

  lemma SumUp(sum: nat, v: U16)
    requires v == (EEPROM_SUM - sum % 0x1_0000) % 0x1_0000
    ensures (sum + v) % 0x1_0000 == EEPROM_SUM
  {
  }
}
