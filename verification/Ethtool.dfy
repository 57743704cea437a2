/** Byte ranges of the EEPROM as ethtool reads and writes them, over words. */
module Ethtool {
  import opened Serial
  import opened SpiChip
  import opened Eeprom

  /** Byte i of a buffer of little-endian words. */
  function ByteIn(words: seq<U16>, i: nat): U8
    requires i / 2 < |words|
  {
    if i % 2 == 0 then words[i / 2] % 256 else words[i / 2] / 256
  }

  function SetByte(w: U16, odd: bool, b: U8): U16 {
    if odd then w % 256 + 256 * b else w / 256 * 256 + b
  }

  lemma SetByteReads(w: U16, odd: bool, b: U8)
    ensures SetByte(w, odd, b) % 256 == if odd then w % 256 else b
    ensures SetByte(w, odd, b) / 256 == if odd then b else w / 256
  {
  }

  /** The words of a memory, byte by byte. */
  lemma MemoryByte(mem: seq<U8>, i: nat)
    requires i < |mem| && |mem| % 2 == 0
    ensures mem[i] == if i % 2 == 0 then WordAt(mem, i / 2) % 256 else WordAt(mem, i / 2) / 256
  {
    WordBytes(mem, i / 2);
    hide WordAt;
    assert i == 2 * (i / 2) + i % 2;
  }

  /** A byte of the memory after a write that does not cross. */
  lemma WrittenByte(c: Chip, mem: seq<U8>, first: nat, words: seq<U16>, i: nat)
    requires 2 * (first + |words|) <= |mem| && i < |mem| && |mem| % 2 == 0
    requires c.addressBits != 8 || first >= 128 || first + |words| <= 128
    ensures Written(c, mem, first, words)[i]
            == if 2 * first <= i < 2 * (first + |words|) then ByteIn(words, i - 2 * first) else mem[i]
  {
    MemoryByte(Written(c, mem, first, words), i);
    MemoryByte(mem, i);
    WrittenReadsBack(c, mem, first, words, i / 2);
    hide Written, WordAt;
    if 2 * first <= i < 2 * (first + |words|) {
      HalfOf(i, first);
    }
  }

  lemma HalfOf(i: nat, first: nat)
    requires 2 * first <= i
    ensures (i - 2 * first) / 2 == i / 2 - first && (i - 2 * first) % 2 == i % 2
  {
  }

  /** The buffer holds the bytes to write where they belong and the old memory around them. */
  ghost predicate Patched(mem: seq<U8>, words: seq<U16>, first: nat, offset: nat, bytes: seq<U8>)
    requires 2 * (first + |words|) <= |mem|
  {
    forall i :: 2 * first <= i < 2 * (first + |words|) ==> PatchedAt(mem, words, first, offset, bytes, i)
  }

  predicate PatchedAt(mem: seq<U8>, words: seq<U16>, first: nat, offset: nat, bytes: seq<U8>, i: nat)
    requires 2 * first <= i < 2 * (first + |words|) <= |mem|
  {
    ByteIn(words, i - 2 * first) == if offset <= i < offset + |bytes| then bytes[i - offset] else mem[i]
  }

  /** Exactly the bytes of the range changed, apart from the checksum word when it was refreshed. */
  ghost predicate OnlyRange(mem: seq<U8>, mem': seq<U8>, offset: nat, bytes: seq<U8>, refreshed: bool) {
    && |mem'| == |mem|
    && forall i :: 0 <= i < |mem| && !(refreshed && i / 2 == CHECKSUM_REG) ==>
         mem'[i] == if offset <= i < offset + |bytes| then bytes[i - offset] else mem[i]
  }

  lemma PatchedWrites(c: Chip, mem: seq<U8>, words: seq<U16>, first: nat, offset: nat, bytes: seq<U8>)
    requires 2 * (first + |words|) <= |mem| && |mem| % 2 == 0 && Patched(mem, words, first, offset, bytes)
    requires c.addressBits != 8 || first >= 128 || first + |words| <= 128
    requires 2 * first <= offset && offset + |bytes| <= 2 * (first + |words|)
    ensures OnlyRange(mem, Written(c, mem, first, words), offset, bytes, false)
  {
    hide Written, ByteIn;
    forall i | 0 <= i < |mem|
      ensures Written(c, mem, first, words)[i] == if offset <= i < offset + |bytes| then bytes[i - offset] else mem[i]
    {
      WrittenByte(c, mem, first, words, i);
      assert 2 * first <= i < 2 * (first + |words|) ==> PatchedAt(mem, words, first, offset, bytes, i);
    }
  }

  lemma ChecksumRefreshed(mem: seq<U8>, mem1: seq<U8>, mem2: seq<U8>, offset: nat, bytes: seq<U8>, v: U16)
    requires OnlyRange(mem, mem1, offset, bytes, false) && PutOne(mem1, mem2, CHECKSUM_REG, v)
    ensures OnlyRange(mem, mem2, offset, bytes, true)
  {
  }

  /** One byte copied into the buffer. */
  lemma ByteCopied(words: seq<U16>, i: nat, b: U8, j: nat)
    requires i / 2 < |words| && j / 2 < |words|
    ensures ByteIn(words[i / 2 := SetByte(words[i / 2], i % 2 == 1, b)], j) == if j == i then b else ByteIn(words, j)
  {
    SetByteReads(words[i / 2], i % 2 == 1, b);
    hide SetByte;
    assert i == 2 * (i / 2) + i % 2 && j == 2 * (j / 2) + j % 2;
  }

  /** memcpy from bytes into the words, starting at byte `at`. */
  method CopyBytes(buff: array<U16>, at: nat, bytes: seq<U8>)
    requires at + |bytes| <= 2 * buff.Length
    modifies buff
    ensures forall i :: 0 <= i < 2 * buff.Length ==>
              ByteIn(buff[..], i) == if at <= i < at + |bytes| then bytes[i - at] else ByteIn(old(buff[..]), i)
  {
    hide ByteIn, SetByte;
    var j := 0;
    while j < |bytes|
      invariant j <= |bytes|
      invariant forall i :: 0 <= i < 2 * buff.Length ==>
                  ByteIn(buff[..], i) == if at <= i < at + j then bytes[i - at] else ByteIn(old(buff[..]), i)
    {
      ghost var before := buff[..];
      var p := at + j;
      ghost var after := before[p / 2 := SetByte(before[p / 2], p % 2 == 1, bytes[j])];
      forall i | 0 <= i < 2 * buff.Length
        ensures ByteIn(after, i) == if at <= i < at + j + 1 then bytes[i - at] else ByteIn(old(buff[..]), i)
      {
        ByteCopied(before, p, bytes[j], i);
        assert ByteIn(before, i) == if at <= i < at + j then bytes[i - at] else ByteIn(old(buff[..]), i);
      }
      buff[p / 2] := SetByte(buff[p / 2], p % 2 == 1, bytes[j]);
      assert buff[..] == after;
      j := j + 1;
    }
  }

  /** The words that hold the bytes of a range. */
  function FirstWord(offset: nat): nat { offset / 2 }
  function LastWord(offset: nat, len: nat): nat
    requires len > 0
  {
    (offset + len - 1) / 2
  }

  lemma RangeOfWords(offset: nat, len: nat)
    requires len > 0
    ensures var first, n := FirstWord(offset), LastWord(offset, len) - FirstWord(offset) + 1;
            && n > 0 && 2 * first <= offset <= 2 * first + 1 && offset % 2 == offset - 2 * first
            && 2 * (first + n) - 1 <= offset + len <= 2 * (first + n)
            && ((offset + len) % 2 == 1 <==> offset + len == 2 * (first + n) - 1)
  {
  }

  /** The words that the range covers in part only were read beforehand. */
  lemma BufferPatched(mem: seq<U8>, was: seq<U16>, words: seq<U16>, first: nat, offset: nat, bytes: seq<U8>)
    requires 0 < |words| <= |was| && 2 * (first + |words|) <= |mem| && |mem| % 2 == 0
    requires 2 * first <= offset <= 2 * first + 1 && 2 * (first + |words|) - 1 <= offset + |bytes| <= 2 * (first + |words|)
    requires offset == 2 * first + 1 ==> was[0] == WordAt(mem, first)
    requires offset + |bytes| == 2 * (first + |words|) - 1 ==> was[|words| - 1] == WordAt(mem, first + |words| - 1)
    requires forall i :: 0 <= i < 2 * |words| ==>
               ByteIn(words, i) == if offset - 2 * first <= i < offset - 2 * first + |bytes| then bytes[i - (offset - 2 * first)]
                                   else ByteIn(was, i)
    ensures Patched(mem, words, first, offset, bytes)
  {
    MemoryByte(mem, 2 * first);
    MemoryByte(mem, 2 * (first + |words|) - 1);
    hide WordAt;
    forall i | 2 * first <= i < 2 * (first + |words|)
      ensures PatchedAt(mem, words, first, offset, bytes, i)
    {
      assert 0 <= i - 2 * first < 2 * |words|;
    }
  }

  /** The words at the ends of the range are whole, or the chip answers in time when they are read. */
  predicate EndsRead(offset: nat, len: nat, busy: nat) {
    (offset % 2 == 0 && (offset + len) % 2 == 0) || 5 * busy < MAX_RETRY
  }

  /** e1000_set_eeprom, its arguments checked by ethtool: the range lies inside the EEPROM. A call without
      data or with the wrong magic number, or when the EEPROM is not granted, leaves the chip alone. When a
      write succeeds, the ends of the range were read, and the words written do not cross word 128 with
      eight address bits, exactly the bytes of the range change apart from the checksum word; on a chip
      that answers its polls in time all of this comes about. */
  method SetEeprom(hw: Hw, magicOk: bool, offset: nat, bytes: seq<U8>) returns (ok: bool)
    requires hw.Quiet() && hw.wordSize >= 64 && offset + |bytes| <= 2 * hw.wordSize
    modifies hw
    ensures hw.Quiet()
    ensures |bytes| == 0 || !magicOk || !hw.granted ==> !ok && hw.dev == old(hw.dev)
    ensures |bytes| > 0 && magicOk && hw.granted && old(hw.Responsive()) ==> ok
    ensures ok && EndsRead(offset, |bytes|, old(hw.dev.busy))
            && (hw.chip.addressBits != 8 || FirstWord(offset) >= 128 || LastWord(offset, |bytes|) < 128) ==>
              OnlyRange(old(hw.dev.mem), hw.dev.mem, offset, bytes, FirstWord(offset) <= CHECKSUM_REG)
    ensures ok && FirstWord(offset) <= CHECKSUM_REG && 5 * hw.chip.writePolls < MAX_RETRY ==> ValidImage(hw.dev.mem)
  {
    hide Fits, Written, WordAt, ByteIn, ValidImage, Patched, OnlyRange, PutOne;
    if |bytes| == 0 {
      return false;
    }
    if !magicOk {
      return false;
    }
    ghost var mem0 := hw.dev.mem;
    var firstWord, lastWord := FirstWord(offset), LastWord(offset, |bytes|);
    RangeOfWords(offset, |bytes|);
    var n := lastWord - firstWord + 1;
    var eepromBuff := ReadEnds(hw, offset, |bytes|, n);
    ghost var was := eepromBuff[..];
    CopyBytes(eepromBuff, offset % 2, bytes);
    PrefixBytes(eepromBuff[..], n);
    ghost var k;
    ok, k := hw.DoWrite(firstWord, n, eepromBuff);
    ghost var exactly := EndsRead(offset, |bytes|, old(hw.dev.busy))
                         && (hw.chip.addressBits != 8 || firstWord >= 128 || lastWord < 128);
    if ok && exactly {
      BufferPatched(mem0, was, eepromBuff[..n], firstWord, offset, bytes);
      PatchedWrites(hw.chip, mem0, eepromBuff[..n], firstWord, offset, bytes);
    }
    if ok && firstWord <= CHECKSUM_REG {
      RefreshChecksum(hw, mem0, offset, bytes, exactly);
    }
  }

  /** The end of e1000_set_eeprom: what becomes of the checksum is not reported. */
  method RefreshChecksum(hw: Hw, ghost mem0: seq<U8>, offset: nat, bytes: seq<U8>, ghost exactly: bool)
    requires hw.Quiet() && hw.wordSize >= 64 && hw.granted && hw.dev.busy == hw.chip.writePolls
    requires |bytes| > 0 && exactly ==> OnlyRange(mem0, hw.dev.mem, offset, bytes, false)
    modifies hw
    ensures hw.Quiet()
    ensures |bytes| > 0 && exactly ==> OnlyRange(mem0, hw.dev.mem, offset, bytes, true)
    ensures 5 * hw.chip.writePolls < MAX_RETRY ==> ValidImage(hw.dev.mem)
  {
    hide Fits, ValidImage, OnlyRange, PutOne;
    ghost var mem1 := hw.dev.mem;
    var updated := hw.UpdateChecksum();
    if |bytes| > 0 && exactly {
      if hw.dev.mem == mem1 {
        RangeAndMore(mem0, mem1, offset, bytes);
      } else {
        ghost var v :| PutOne(mem1, hw.dev.mem, CHECKSUM_REG, v);
        ChecksumRefreshed(mem0, mem1, hw.dev.mem, offset, bytes, v);
      }
    }
  }

  lemma RangeAndMore(mem: seq<U8>, mem': seq<U8>, offset: nat, bytes: seq<U8>)
    requires OnlyRange(mem, mem', offset, bytes, false)
    ensures OnlyRange(mem, mem', offset, bytes, true)
  {
  }

  lemma PrefixBytes(words: seq<U16>, n: nat)
    requires n <= |words|
    ensures forall i :: 0 <= i < 2 * n ==> ByteIn(words[..n], i) == ByteIn(words, i)
  {
  }

  /** The first and the last word are read when the range covers them in part; nothing is read after a
      read that failed, and the call goes on all the same. */
  method ReadEnds(hw: Hw, offset: nat, len: nat, n: nat) returns (buff: array<U16>)
    requires hw.Quiet() && len > 0
    requires n == LastWord(offset, len) - FirstWord(offset) + 1 && offset + len <= 2 * hw.wordSize
    modifies hw
    ensures fresh(buff) && buff.Length == hw.wordSize && hw.Quiet() && hw.dev.mem == old(hw.dev.mem)
    ensures old(hw.Responsive()) ==> hw.Responsive()
    ensures !hw.granted ==> hw.dev == old(hw.dev)
    ensures n <= buff.Length && FirstWord(offset) + n <= hw.wordSize && n > 0
    ensures hw.granted && EndsRead(offset, len, old(hw.dev.busy)) ==>
              && (offset % 2 == 1 ==> buff[0] == WordAt(hw.dev.mem, FirstWord(offset)))
              && ((offset + len) % 2 == 1 ==> buff[n - 1] == WordAt(hw.dev.mem, LastWord(offset, len)))
  {
    hide Fits, WordAt;
    RangeOfWords(offset, len);
    buff := new U16[hw.wordSize];
    var ok := true;
    if offset % 2 == 1 {
      ok := hw.DoRead(FirstWord(offset), 1, buff, 0);
    }
    if (offset + len) % 2 == 1 && ok {
      ok := hw.DoRead(LastWord(offset, len), 1, buff, n - 1);
    }
  }

  /** e1000_get_eeprom on a serial EEPROM. */
  method GetEeprom(hw: Hw, offset: nat, len: nat) returns (ok: bool, bytes: seq<U8>)
    requires hw.Quiet() && offset + len <= 2 * hw.wordSize
    modifies hw
    ensures hw.Quiet() && hw.dev.mem == old(hw.dev.mem)
    ensures ok ==> len > 0 && |bytes| == len && forall i :: 0 <= i < len ==> bytes[i] == hw.dev.mem[offset + i]
    ensures old(hw.Responsive()) && hw.granted ==> (ok <==> len > 0)
  {
    hide Fits, WordAt;
    bytes := [];
    if len == 0 {
      return false, bytes;
    }
    RangeOfWords(offset, len);
    var firstWord, n := FirstWord(offset), LastWord(offset, len) - FirstWord(offset) + 1;
    assert firstWord + n <= hw.wordSize;
    var eepromBuff := new U16[n];
    ok := hw.DoRead(firstWord, n, eepromBuff, 0);
    if ok {
      var i := 0;
      while i < len
        invariant i <= len && |bytes| == i && hw.Quiet()
        invariant forall j :: 0 <= j < i ==> bytes[j] == hw.dev.mem[offset + j]
        modifies {}
      {
        var p := offset % 2 + i;
        MemoryByte(hw.dev.mem, offset + i);
        HalfOf(offset + i, firstWord);
        bytes := bytes + [if p % 2 == 0 then eepromBuff[p / 2] % 256 else eepromBuff[p / 2] / 256];
        i := i + 1;
      }
    }
  }
}
