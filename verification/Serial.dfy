/** 32-bit sequence numbers and their serial order (RFC 9293, section 3.4). */
module Serial {

  const TWO_32: int := 0x1_0000_0000
  const TWO_31: int := 0x8000_0000

  type U8 = x: int | 0 <= x < 0x100
  type U16 = x: int | 0 <= x < 0x1_0000
  type U32 = x: int | 0 <= x < 0x1_0000_0000

  /** Unsigned 32-bit arithmetic wraps. */
  function Wrap(x: int): U32 {
    x % TWO_32
  }

  /** before(a, b): the signed 32-bit difference a - b is negative. */
  predicate Before(a: U32, b: U32) {
    Wrap(a - b) >= TWO_31
  }

  predicate After(a: U32, b: U32) {
    Before(b, a)
  }

  lemma WrapTurns(x: int, y: int, turns: int)
    requires x == y + turns * TWO_32
    ensures Wrap(x) == Wrap(y)
  {
  }

  lemma WrapShift(a: int, b: int)
    ensures Wrap(Wrap(a) + b) == Wrap(a + b)
    ensures Wrap(Wrap(a) - b) == Wrap(a - b)
    ensures Wrap(b - Wrap(a)) == Wrap(b - a)
  {
    var turns := a / TWO_32;
    assert Wrap(a) == a - turns * TWO_32;
    hide Wrap;
    WrapTurns(Wrap(a) + b, a + b, 0 - turns);
    WrapTurns(Wrap(a) - b, a - b, 0 - turns);
    WrapTurns(b - Wrap(a), b - a, turns);
  }

  lemma WrapDifference(a: int, b: int)
    ensures Wrap(Wrap(a) - Wrap(b)) == Wrap(a - b)
  {
    hide Wrap;
    WrapShift(a, Wrap(b));
    WrapShift(b, a);
  }

  /** Numbers within half the space of each other compare as the stream offsets they stand for,
      whatever the initial number and however often it wraps. */
  lemma SerialOrderIsOffsetOrder(isn: U32, x: int, y: int)
    requires -TWO_31 < x - y < TWO_31
    ensures Before(Wrap(isn + x), Wrap(isn + y)) <==> x < y
    ensures After(Wrap(isn + x), Wrap(isn + y)) <==> x > y
    ensures Wrap(isn + x) == Wrap(isn + y) <==> x == y
  {
    WrapDifference(isn + x, isn + y);
    WrapDifference(isn + y, isn + x);
    SignOf(x - y);
    SignOf(y - x);
    hide Wrap;
  }

  lemma SignOf(d: int)
    requires -TWO_31 < d < TWO_31
    ensures Wrap(d) >= TWO_31 <==> d < 0
    ensures Wrap(d) == 0 <==> d == 0
  {
  }
}
