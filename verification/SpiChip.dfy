/** A serial EEPROM: bits come in while it is selected, and the command they make up takes effect when it
    is deselected. Writes wrap around inside a page. */
module SpiChip {
  import opened Powers
  import opened Serial

  // ----- bits, most significant first

  function BitsOf(d: nat, n: nat): (bits: seq<bool>)
    ensures |bits| == n
  {
    if n == 0 then [] else BitsOf(d / 2, n - 1) + [d % 2 == 1]
  }

  function ValueOf(bits: seq<bool>): nat {
    if bits == [] then 0 else 2 * ValueOf(bits[..|bits| - 1]) + if bits[|bits| - 1] then 1 else 0
  }

  lemma {:induction false} ValueOfBits(d: nat, n: nat)
    ensures ValueOf(BitsOf(d, n)) == d % Pow2(n)
  {
    if n > 0 {
      ValueOfBits(d / 2, n - 1);
      var bits := BitsOf(d, n);
      assert bits[..n - 1] == BitsOf(d / 2, n - 1);
      LowBits(d, Pow2(n - 1));
    }
  }

  lemma LowBits(d: nat, p: nat)
    requires p > 0
    ensures d % (2 * p) == 2 * (d / 2 % p) + d % 2
  {
    var q, r := d / 2 / p, d / 2 % p;
    assert d / 2 == p * q + r;
    Doubled(p, q);
    Remainder(d, 2 * p, q, 2 * r + d % 2);
  }

  lemma {:induction false} BitsSplit(d: nat, n: nat, m: nat)
    ensures BitsOf(d, n + m) == BitsOf(Shr(d, m), n) + BitsOf(d, m)
    decreases m
  {
    if m == 0 {
      assert BitsOf(d, n) + BitsOf(d, 0) == BitsOf(d, n);
    } else {
      BitsSplit(d / 2, n, m - 1);
      assert BitsOf(Shr(d, m), n) + (BitsOf(d / 2, m - 1) + [d % 2 == 1])
             == (BitsOf(Shr(d, m), n) + BitsOf(d / 2, m - 1)) + [d % 2 == 1];
    }
  }

  lemma {:induction false} ValueOfConcat(a: seq<bool>, b: seq<bool>)
    ensures ValueOf(a + b) == ValueOf(a) * Pow2(|b|) + ValueOf(b)
    decreases |b|
  {
    if b == [] {
      assert a + b == a;
    } else {
      var n := |b| - 1;
      assert (a + b)[..|a + b| - 1] == a + b[..n];
      ValueOfConcat(a, b[..n]);
      DoubledPlace(ValueOf(a), Pow2(n), ValueOf(b[..n]));
    }
  }

  lemma DoubledPlace(a: nat, p: nat, b: nat)
    ensures 2 * (a * p + b) == a * (2 * p) + 2 * b
  {
  }

  lemma ByteValue(v: U8)
    ensures ValueOf(BitsOf(v, 8)) == v
  {
    ValueOfBits(v, 8);
    Pow8();
  }

  lemma Pow8()
    ensures Pow2(8) == 256
  {
    assert Pow2(4) == 16;
  }

  lemma Pow16()
    ensures Pow2(16) == 0x1_0000
  {
    Pow8();
    assert Pow2(12) == 4096;
  }

  // ----- words on the wire

  /** The two bytes of a word change places: the chip keeps the low byte first. */
  function Swap(w: U16): U16 {
    w / 256 + w % 256 * 256
  }

  lemma SwapTwice(w: U16)
    ensures Swap(Swap(w)) == w
  {
    SwapHalves(w);
  }

  lemma WordOnWire(w: U16)
    ensures BitsOf(Swap(w), 16) == BitsOf(w % 256, 8) + BitsOf(w / 256, 8)
  {
    BitsSplit(Swap(w), 8, 8);
    ShrDivides(Swap(w), 8);
    Pow8();
    SwapHalves(w);
    LowByteBits(Swap(w));
  }

  lemma SwapHalves(w: U16)
    ensures Swap(w) / 256 == w % 256 && Swap(w) % 256 == w / 256
  {
  }

  lemma LowByteBits(d: nat)
    ensures BitsOf(d, 8) == BitsOf(d % 256, 8)
  {
    SameLowBits(d, d % 256, 8);
    Pow8();
    Remainder(d % 256, 256, 0, d % 256);
  }

  /** Bits depend on the remainder only. */
  lemma {:induction false} SameLowBits(d: nat, e: nat, n: nat)
    requires d % Pow2(n) == e % Pow2(n)
    ensures BitsOf(d, n) == BitsOf(e, n)
  {
    if n > 0 {
      LowBits(d, Pow2(n - 1));
      LowBits(e, Pow2(n - 1));
      SameLowBits(d / 2, e / 2, n - 1);
    }
  }

  // ----- the chip

  const READ: nat := 3
  const WRITE: nat := 2
  const A8: nat := 8
  const WREN: nat := 6
  const RDSR: nat := 5

  /** Bytes in a page, bits of an address, and how often a status poll finds the chip busy after a write. */
  datatype Chip = Chip(page: nat, addressBits: nat, writePolls: nat)

  /** Memory, write-enable latch, busy polls left, and the bits since the chip was selected. */
  datatype Device = Device(mem: seq<U8>, enabled: bool, busy: nat, bits: seq<bool>)

  predicate Paged(size: nat, page: nat) {
    page > 0 && size % page == 0
  }

  /** Pages of an even number of bytes fill the memory; a ninth address bit travels in the opcode. */
  predicate Fits(c: Chip, d: Device) {
    && c.page >= 2 && c.page % 2 == 0 && 2 <= |d.mem| && Paged(|d.mem|, c.page)
    && (c.addressBits == 8 || c.addressBits == 16)
    && (c.addressBits == 8 ==> |d.mem| <= 512 && 256 % c.page == 0) && |d.mem| <= 0x1_0000
  }

  function BytesOf(bits: seq<bool>): (bytes: seq<U8>)
    ensures |bytes| == |bits| / 8
  {
    seq(|bits| / 8, i requires 0 <= i < |bits| / 8 => ByteAt(bits, i))
  }

  function ByteAt(bits: seq<bool>, i: nat): U8
    requires i < |bits| / 8
  {
    var v := ValueOf(bits[8 * i..8 * i + 8]);
    if v < 256 then v else 0
  }

  /** The k-th byte of a write starting at addr wraps to the start of the page. */
  function InPage(page: nat, addr: nat, k: nat): nat
    requires page > 0
  {
    addr - addr % page + (addr % page + k) % page
  }

  function Burst(mem: seq<U8>, page: nat, addr: nat, bytes: seq<U8>): (r: seq<U8>)
    requires Paged(|mem|, page) && addr < |mem|
    ensures |r| == |mem|
  {
    if bytes == [] then mem
    else
      var n := |bytes| - 1;
      PageInside(|mem|, page, addr, n);
      Burst(mem, page, addr, bytes[..n])[InPage(page, addr, n) := bytes[n]]
  }

  lemma PageInside(size: nat, page: nat, addr: nat, k: nat)
    requires Paged(size, page) && addr < size
    ensures InPage(page, addr, k) < size
  {
    var q, s := addr / page, size / page;
    assert addr == page * q + addr % page && size == page * s;
    if q >= s {
      Times(page, s, q);
      assert false;
    }
    Times(page, q + 1, s);
    OnePageMore(page, q);
  }

  lemma OnePageMore(page: nat, q: nat)
    ensures page * (q + 1) == page * q + page
  {
  }

  /** Opcode and address of what came in. */
  function Opcode(bits: seq<bool>): nat
    requires |bits| >= 8
  {
    ValueOf(bits[..8])
  }

  function Address(c: Chip, d: Device): nat
    requires |d.bits| >= 8 + c.addressBits && |d.mem| > 0
  {
    (ValueOf(d.bits[8..8 + c.addressBits]) + if Opcode(d.bits) >= A8 then 256 else 0) % |d.mem|
  }

  /** Deselecting executes the command. A busy chip answers nothing but its status. */
  function Deselect(c: Chip, d: Device): Device
    requires Fits(c, d)
  {
    var d0 := d.(bits := []);
    if |d.bits| < 8 then d0
    else if Opcode(d.bits) == RDSR then d0.(busy := if d.busy == 0 then 0 else d.busy - 1)
    else if d.busy > 0 then d0
    else if Opcode(d.bits) == WREN then d0.(enabled := true)
    else if (Opcode(d.bits) == WRITE || Opcode(d.bits) == WRITE + A8) && d.enabled && |d.bits| >= 8 + c.addressBits then
      d0.(mem := Burst(d.mem, c.page, Address(c, d), BytesOf(d.bits[8 + c.addressBits..])), enabled := false, busy := c.writePolls)
    else d0
  }

  /** One clock with DI at the given level. */
  function Clock(d: Device, di: bool): Device {
    d.(bits := d.bits + [di])
  }

  /** The level of DO after the latest clock: the status byte over and over, or the bytes of the memory
      from the address on. */
  function Output(c: Chip, d: Device): bool
    requires Fits(c, d)
  {
    if |d.bits| <= 8 then false
    else if Opcode(d.bits) == RDSR then (|d.bits| - 9) % 8 == 7 && d.busy > 0
    else if (Opcode(d.bits) == READ || Opcode(d.bits) == READ + A8) && d.busy == 0 && |d.bits| > 8 + c.addressBits then
      var j := |d.bits| - 9 - c.addressBits;
      BitsOf(d.mem[(Address(c, d) + j / 8) % |d.mem|], 8)[j % 8]
    else false
  }

  // ----- words in the memory

  function WordAt(mem: seq<U8>, w: nat): U16
    requires 2 * w + 2 <= |mem|
  {
    mem[2 * w] as int + 256 * mem[2 * w + 1] as int
  }

  function PutWord(mem: seq<U8>, w: nat, v: U16): (r: seq<U8>)
    requires 2 * w + 2 <= |mem|
    ensures |r| == |mem|
  {
    mem[2 * w := v % 256][2 * w + 1 := v / 256]
  }

  /** The bits of some words on the wire. */
  function Payload(words: seq<U16>): (bits: seq<bool>)
    ensures |bits| == 16 * |words|
  {
    if words == [] then [] else Payload(words[..|words| - 1]) + BitsOf(Swap(words[|words| - 1]), 16)
  }

  lemma ByteOfSlice(bits: seq<bool>, i: nat, v: U8)
    requires i < |bits| / 8 && bits[8 * i..8 * i + 8] == BitsOf(v, 8)
    ensures BytesOf(bits)[i] == v
  {
    ByteValue(v);
  }

  lemma BytesOfPrefix(a: seq<bool>, b: seq<bool>, i: nat)
    requires i < |a| / 8
    ensures BytesOf(a + b)[i] == BytesOf(a)[i]
  {
    hide ValueOf;
    assert (a + b)[8 * i..8 * i + 8] == a[8 * i..8 * i + 8];
  }

  lemma TwoSlices(before: seq<bool>, a: seq<bool>, b: seq<bool>, k: nat)
    requires |before| == 8 * k && |a| == 8 && |b| == 8
    ensures var bits := before + (a + b);
            bits[8 * k..8 * k + 8] == a && bits[8 * (k + 1)..8 * (k + 1) + 8] == b
  {
  }

  lemma LastWord(before: seq<bool>, n: nat, w: U16)
    requires |before| == 16 * n
    ensures var bytes := BytesOf(before + BitsOf(Swap(w), 16));
            |bytes| == 2 * n + 2 && bytes[2 * n] == w % 256 && bytes[2 * n + 1] == w / 256
  {
    WordOnWire(w);
    var bits := before + BitsOf(Swap(w), 16);
    hide BitsOf, BytesOf, Swap;
    TwoSlices(before, BitsOf(w % 256, 8), BitsOf(w / 256, 8), 2 * n);
    ByteOfSlice(bits, 2 * n, w % 256);
    ByteOfSlice(bits, 2 * n + 1, w / 256);
  }

  lemma {:induction false} PayloadByte(words: seq<U16>, i: nat)
    requires i < |words|
    ensures BytesOf(Payload(words))[2 * i] == words[i] % 256 && BytesOf(Payload(words))[2 * i + 1] == words[i] / 256
  {
    hide BitsOf, BytesOf, Swap;
    var n := |words| - 1;
    var before := Payload(words[..n]);
    if i < n {
      PayloadByte(words[..n], i);
      BytesOfPrefix(before, BitsOf(Swap(words[n]), 16), 2 * i);
      BytesOfPrefix(before, BitsOf(Swap(words[n]), 16), 2 * i + 1);
    } else {
      LastWord(before, n, words[n]);
    }
  }

  lemma PayloadGrows(words: seq<U16>, w: U16)
    ensures BytesOf(Payload(words + [w])) == BytesOf(Payload(words)) + [w % 256, w / 256]
  {
    var all, more := BytesOf(Payload(words + [w])), BytesOf(Payload(words));
    hide BytesOf, Payload;
    forall i | 0 <= i < |words|
      ensures all[2 * i] == more[2 * i] && all[2 * i + 1] == more[2 * i + 1]
    {
      PayloadByte(words, i);
      PayloadByte(words + [w], i);
    }
    PayloadByte(words + [w], |words|);
    assert forall k :: 0 <= k < 2 * |words| ==> all[k] == more[k] by {
      forall k | 0 <= k < 2 * |words|
        ensures all[k] == more[k]
      {
        assert all[2 * (k / 2)] == more[2 * (k / 2)] && all[2 * (k / 2) + 1] == more[2 * (k / 2) + 1];
      }
    }
  }

  /** n more bytes after addr stay in its page. */
  predicate Room(page: nat, addr: nat, n: nat)
    requires page > 0
  {
    addr % page + n <= page
  }

  /** Inside a page nothing wraps. */
  lemma StaysInPage(page: nat, addr: nat, k: nat, n: nat)
    requires page > 0 && Room(page, addr, n) && k < n
    ensures InPage(page, addr, k) == addr + k
  {
    Remainder(addr % page + k, page, 0, addr % page + k);
  }

  /** One more word in a burst that stays in its page. */
  lemma BurstGrows(mem: seq<U8>, page: nat, w: nat, words: seq<U16>, v: U16)
    requires Paged(|mem|, page) && 2 * (w + |words|) + 2 <= |mem|
    requires Room(page, 2 * w, 2 * |words| + 2)
    ensures Burst(mem, page, 2 * w, BytesOf(Payload(words + [v])))
            == PutWord(Burst(mem, page, 2 * w, BytesOf(Payload(words))), w + |words|, v)
  {
    PayloadGrows(words, v);
    var before := BytesOf(Payload(words));
    BurstTwo(mem, page, 2 * w, before, v % 256, v / 256);
    hide BytesOf, Payload, Burst;
  }

  lemma BurstTwo(mem: seq<U8>, page: nat, addr: nat, bytes: seq<U8>, b0: U8, b1: U8)
    requires Paged(|mem|, page) && addr + |bytes| + 2 <= |mem| && Room(page, addr, |bytes| + 2)
    ensures Burst(mem, page, addr, bytes + [b0, b1])
            == Burst(mem, page, addr, bytes)[addr + |bytes| := b0][addr + |bytes| + 1 := b1]
  {
    hide Room, InPage;
    BurstOne(mem, page, addr, bytes, b0);
    BurstOne(mem, page, addr, bytes + [b0], b1);
    StaysInPage(page, addr, |bytes|, |bytes| + 2);
    StaysInPage(page, addr, |bytes| + 1, |bytes| + 2);
    assert bytes + [b0, b1] == (bytes + [b0]) + [b1];
  }

  lemma BurstOne(mem: seq<U8>, page: nat, addr: nat, bytes: seq<U8>, b: U8)
    requires Paged(|mem|, page) && addr < |mem|
    ensures InPage(page, addr, |bytes|) < |mem|
    ensures Burst(mem, page, addr, bytes + [b]) == Burst(mem, page, addr, bytes)[InPage(page, addr, |bytes|) := b]
  {
    PageInside(|mem|, page, addr, |bytes|);
    assert (bytes + [b])[..|bytes|] == bytes;
    hide InPage;
  }
}
