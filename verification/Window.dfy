/** The receive window: throttling at a spliced proxy and rescaling between two window scales
    (RFC 7323, section 2.3). */
module Window {
  import N = Numbers
  import opened Powers
  import opened Serial

  /** The 32-bit shift up by the scale of one side and down by the other's, cut to 16 bits. */
  function Rescaled(window: U16, wsIn: nat, wsOut: nat): U16 {
    Wrap(window * Pow2(wsIn)) / Pow2(wsOut) % 0x1_0000
  }

  /** ws_delta != 0, ws_in and ws_out of a control block. */
  datatype Scales = Scales(changed: bool, wsIn: nat, wsOut: nat)

  /** The test for ws_ok is the caller's, the one for ws_delta the rewrite's. */
  function OutScales(n: N.OutNumbers): Scales { Scales(n.wsDelta != 0, n.wsIn, n.wsOut) }
  function InScales(n: N.InNumbers): Scales { Scales(n.wsDelta != 0, n.wsIn, n.wsOut) }

  function Through(window: U16, wsOk: bool, ws: Scales): U16 {
    if wsOk && ws.changed then Rescaled(window, ws.wsIn, ws.wsOut) else window
  }

  const MAX_WND_REC: int := 0x4000

  /** The bytes waiting in the receive buffer, as the proxy reckons them: past a wrap it subtracts the
      other socket's position. */
  function Unread(rcvNxt: U32, copied: U32, otherCopied: U32): U32 {
    if rcvNxt >= copied then rcvNxt - copied else Wrap(rcvNxt + (TWO_32 - otherCopied))
  }

  /** dysco_fix_rcv_window: what the throttled field says, for the receive buffer fill rcvBuf. */
  function Throttled(window: U16, wscale: nat, rcvBuf: U32): U16 {
    if window == 0 then 0
    else
      var oldWnd := Wrap(window * Pow2(wscale));
      var newWnd := if rcvBuf > MAX_WND_REC then 0 else if MAX_WND_REC > oldWnd then oldWnd else MAX_WND_REC;
      newWnd / Pow2(wscale) % 0x1_0000
  }

  lemma ScaleFits(window: U16, ws: nat)
    requires ws <= 14
    ensures window * Pow2(ws) < TWO_32
  {
    Pow2Grows(ws, 14);
    assert Pow2(14) == 16384 by {
      assert Pow2(4) == 16;
      assert Pow2(8) == 256;
      assert Pow2(12) == 4096;
    }
    Product(window, Pow2(ws), 0xFFFF, 16384);
  }

  lemma Product(a: nat, b: nat, c: nat, d: nat)
    requires a <= c && b <= d
    ensures a * b <= c * d
  {
  }

  /** Cutting a quotient to 16 bits: what is left never stands for more than the dividend, and stands for
      all of it but less than one unit exactly when nothing is cut. */
  lemma Cut(x: nat, p: nat)
    requires p > 0
    ensures x / p % 0x1_0000 * p <= x
    ensures x - x / p % 0x1_0000 * p < p <==> x / p < 0x1_0000
  {
    var q, r, c := x / p, x % p, x / p % 0x1_0000;
    assert x == q * p + r;
    if q >= 0x1_0000 {
      Product(c + 1, p, q, p);
      assert (c + 1) * p == c * p + p;
    }
  }

  lemma RescaledIs(window: U16, wsIn: nat, wsOut: nat)
    requires wsIn <= 14
    ensures Rescaled(window, wsIn, wsOut) == window * Pow2(wsIn) / Pow2(wsOut) % 0x1_0000
  {
    ScaleFits(window, wsIn);
    hide Pow2;
    NoWrap(window * Pow2(wsIn));
  }

  lemma NoWrap(x: nat)
    requires x < TWO_32
    ensures Wrap(x) == x
  {
  }

  /** Rescaling advertises at most the bytes the original field advertised, even when the 16-bit field
      cuts the value. */
  lemma RescalingNeverEnlarges(window: U16, wsIn: nat, wsOut: nat)
    requires wsIn <= 14
    ensures Rescaled(window, wsIn, wsOut) * Pow2(wsOut) <= window * Pow2(wsIn)
  {
    hide *;
    RescaledIs(window, wsIn, wsOut);
    Cut(window * Pow2(wsIn), Pow2(wsOut));
  }

  /** It loses less than one unit of the new scale exactly when the new field can hold the value. */
  lemma RescalingIsExactWhenItFits(window: U16, wsIn: nat, wsOut: nat)
    requires wsIn <= 14
    ensures window * Pow2(wsIn) - Rescaled(window, wsIn, wsOut) * Pow2(wsOut) < Pow2(wsOut)
            <==> window * Pow2(wsIn) / Pow2(wsOut) < 0x1_0000
  {
    hide *;
    RescaledIs(window, wsIn, wsOut);
    Cut(window * Pow2(wsIn), Pow2(wsOut));
  }

  /** Throttling never advertises more than the field did, nor more than 16 KB. */
  lemma ThrottlingNeverEnlarges(window: U16, wscale: nat, rcvBuf: U32)
    requires wscale <= 14
    ensures Throttled(window, wscale, rcvBuf) * Pow2(wscale) <= window * Pow2(wscale)
    ensures Throttled(window, wscale, rcvBuf) * Pow2(wscale) <= MAX_WND_REC
  {
    ScaleFits(window, wscale);
    hide Pow2, Wrap;
    NoWrap(window * Pow2(wscale));
    var oldWnd := window * Pow2(wscale);
    Cut(oldWnd, Pow2(wscale));
    Cut(MAX_WND_REC, Pow2(wscale));
    Cut(0, Pow2(wscale));
  }

  /** Nor much less than it could: with at most 16 KB waiting it loses less than one unit of the smaller of
      16 KB and the original bytes, and with more the window is closed. */
  lemma ThrottlingLosesLittle(window: U16, wscale: nat, rcvBuf: U32)
    requires wscale <= 14
    ensures var could := if window * Pow2(wscale) <= MAX_WND_REC then window * Pow2(wscale) else MAX_WND_REC;
            rcvBuf <= MAX_WND_REC ==> could - Throttled(window, wscale, rcvBuf) * Pow2(wscale) < Pow2(wscale)
    ensures rcvBuf > MAX_WND_REC ==> Throttled(window, wscale, rcvBuf) == 0
  {
    ScaleFits(window, wscale);
    hide Pow2, Wrap;
    NoWrap(window * Pow2(wscale));
    var could := if window * Pow2(wscale) <= MAX_WND_REC then window * Pow2(wscale) else MAX_WND_REC;
    Cut(could, Pow2(wscale));
    SmallQuotient(could, Pow2(wscale));
    SmallQuotient(0, Pow2(wscale));
    if window == 0 {
      assert window * Pow2(wscale) == 0;
    }
  }

  lemma SmallQuotient(x: nat, p: nat)
    requires p > 0 && x < 0x1_0000
    ensures x / p <= x && (x == 0 ==> x / p % 0x1_0000 == 0)
  {
    var q, r := x / p, x % p;
    assert x == p * q + r;
    Product(q, 1, q, p);
  }

  /** The bytes waiting, of which the sequence numbers may have wrapped, are reckoned rightly if and only if
      the receive position has not wrapped past the copied one, or both sockets stand at the same place. */
  lemma UnreadExactlyWhen(rcvNxt: U32, copied: U32, otherCopied: U32)
    ensures Unread(rcvNxt, copied, otherCopied) == Wrap(rcvNxt - copied) <==> rcvNxt >= copied || otherCopied == copied
  {
  }

  lemma RescalingToItself(window: U16, ws: nat)
    requires ws <= 14
    ensures Rescaled(window, ws, ws) == window
  {
    hide *;
    RescaledIs(window, ws, ws);
    Undone(window, Pow2(ws));
  }

  lemma Undone(window: U16, p: nat)
    requires p > 0
    ensures window * p / p % 0x1_0000 == window
  {
    QuotientIs(window * p, p, window);
  }

  lemma QuotientIs(x: nat, p: nat, q: nat)
    requires p > 0 && x == p * q
    ensures x / p == q
  {
    Remainder(x, p, q, 0);
  }

  /** The rewriting of a block from one scale to another, left out when they are equal. */
  lemma ThroughScales(window: U16, wsIn: U16, wsOut: U16)
    requires wsIn <= 14 && wsOut <= 14
    ensures Through(window, true, Scales(N.ScaleDelta(wsIn, wsOut) != 0, wsIn, wsOut)) == Rescaled(window, wsIn, wsOut)
  {
    hide Rescaled;
    RescalingToItself(window, wsIn);
  }

  // ----- the new path

  /** The field that the left stack sees of a window the right stack advertises, and the other way. */
  function SeenAtLeft(left: N.OutNumbers, leftIn: N.InNumbers, right: N.OutNumbers, window: U16): U16 {
    var r := N.SynMessage(left, leftIn);
    var o, i := N.RightOutNumbers(right, r), N.ReverseNumbers(N.LeftOutNumbers(r));
    Through(Through(window, o.wsOk, OutScales(o)), i.wsOk, InScales(i))
  }

  function SeenAtRight(left: N.OutNumbers, leftIn: N.InNumbers, was: N.InNumbers, right: N.OutNumbers, rightIn: N.InNumbers,
                       window: U16): U16
  {
    var r := N.SynMessage(left, leftIn);
    var o, i := N.LeftOutNumbers(r), N.RightInNumbers(was, right, rightIn, r);
    Through(Through(window, o.wsOk, OutScales(o)), i.wsOk, InScales(i))
  }

  lemma AtLeftIs(left: N.OutNumbers, leftIn: N.InNumbers, right: N.OutNumbers, window: U16)
    requires right.wsIn <= 14 && leftIn.wsIn <= 14
    ensures SeenAtLeft(left, leftIn, right, window)
            == if leftIn.wsIn != 0 then Rescaled(window, right.wsIn, leftIn.wsIn) else window
  {
    hide Rescaled;
    ThroughScales(window, right.wsIn, leftIn.wsIn);
  }

  lemma AtRightIs(left: N.OutNumbers, leftIn: N.InNumbers, was: N.InNumbers, right: N.OutNumbers,
                  rightIn: N.InNumbers, window: U16)
    requires left.wsIn <= 14 && right.wsIn <= 14
    ensures SeenAtRight(left, leftIn, was, right, rightIn, window)
            == if left.wsIn != 0 then Rescaled(window, left.wsIn, right.wsIn) else window
  {
    hide Rescaled;
    ThroughScales(window, left.wsIn, right.wsIn);
  }

  /** From right to left, throttled or not, the left stack never reads more bytes than the right one
      offers: it reads the field in the scale it was told, leftIn.wsIn. */
  lemma PipelineNeverEnlarges(left: N.OutNumbers, leftIn: N.InNumbers, right: N.OutNumbers, window: U16, rcvBuf: U32)
    requires right.wsIn <= 14 && leftIn.wsIn <= 14
    ensures forall w: U16 :: SeenAtLeft(left, leftIn, right, w) * Pow2(leftIn.wsIn) <= w * Pow2(right.wsIn)
    ensures var throttled := Throttled(window, right.wsIn, rcvBuf);
            SeenAtLeft(left, leftIn, right, throttled) * Pow2(leftIn.wsIn)
            <= throttled * Pow2(right.wsIn) <= window * Pow2(right.wsIn)
  {
    hide *;
    forall w: U16
      ensures SeenAtLeft(left, leftIn, right, w) * Pow2(leftIn.wsIn) <= w * Pow2(right.wsIn)
    {
      AtLeftIs(left, leftIn, right, w);
      RescalingNeverEnlarges(w, right.wsIn, leftIn.wsIn);
      PowerOfNone();
      Product(w, 1, w, Pow2(right.wsIn));
      if leftIn.wsIn == 0 {
        assert w * Pow2(leftIn.wsIn) == w;
      }
    }
    ThrottlingNeverEnlarges(window, right.wsIn, rcvBuf);
  }

  lemma PowerOfNone()
    ensures Pow2(0) == 1
  {
  }

  /** From left to right the block rescales to the scale the right stack itself announced, right.wsIn, but
      that stack reads the field in the scale it was told, rightIn.wsIn. No window is ever read as larger
      than it was offered if and only if the scale told is at most the one rescaled to, or, when the left
      scale is zero and nothing is rescaled, if it is zero too. */
  lemma LeftToRightNeverEnlargesExactlyWhen(left: N.OutNumbers, leftIn: N.InNumbers, was: N.InNumbers, right: N.OutNumbers,
                                            rightIn: N.InNumbers)
    requires left.wsIn <= 14 && right.wsIn <= 14 && rightIn.wsIn <= 14
    ensures (forall w: U16 :: SeenAtRight(left, leftIn, was, right, rightIn, w) * Pow2(rightIn.wsIn) <= w * Pow2(left.wsIn))
            <==> rightIn.wsIn <= if left.wsIn == 0 then 0 else right.wsIn
  {
    hide *;
    var told, own := rightIn.wsIn, if left.wsIn == 0 then 0 else right.wsIn;
    if told <= own {
      forall w: U16
        ensures SeenAtRight(left, leftIn, was, right, rightIn, w) * Pow2(told) <= w * Pow2(left.wsIn)
      {
        var seen := SeenAtRight(left, leftIn, was, right, rightIn, w);
        AtRightIs(left, leftIn, was, right, rightIn, w);
        RescalingNeverEnlarges(w, left.wsIn, right.wsIn);
        Pow2Grows(told, own);
        Product(seen, Pow2(told), seen, Pow2(own));
      }
    } else {
      var w := Unit(left.wsIn, own);
      AtRightIs(left, leftIn, was, right, rightIn, w);
      UnitEnlarges(left.wsIn, own, told);
      if left.wsIn == 0 {
        RescalingToItself(w, 0);
      }
      assert SeenAtRight(left, leftIn, was, right, rightIn, w) * Pow2(told) > w * Pow2(left.wsIn);
    }
  }

  /** The smallest window of one scale that is a whole number of units of the other. */
  function Unit(wsIn: nat, wsOut: nat): U16
    requires wsIn <= 14 && wsOut <= 14
  {
    Pow2Grows(if wsOut > wsIn then wsOut - wsIn else 0, 14);
    SixteenK();
    if wsOut > wsIn then Pow2(wsOut - wsIn) else 1
  }

  lemma SixteenK()
    ensures Pow2(14) == 16384
  {
    assert Pow2(4) == 16;
    assert Pow2(8) == 256;
    assert Pow2(12) == 4096;
  }

  lemma UnitRescaled(wsIn: nat, wsOut: nat)
    requires wsIn <= 14 && wsOut <= 14
    ensures var w := Unit(wsIn, wsOut);
            var f := Rescaled(w, wsIn, wsOut);
            f > 0 && f * Pow2(wsOut) == Pow2(wsOut) * f == w * Pow2(wsIn)
  {
    hide Pow2, Rescaled;
    var w := Unit(wsIn, wsOut);
    RescaledIs(w, wsIn, wsOut);
    var q := if wsOut > wsIn then 1 else Pow2(wsIn - wsOut);
    UnitsTogether(wsIn, wsOut, w, q);
    QuotientIs(w * Pow2(wsIn), Pow2(wsOut), q);
    SmallWord(q);
  }

  lemma SmallWord(q: nat)
    requires q < 0x1_0000
    ensures q % 0x1_0000 == q
  {
  }

  lemma UnitsTogether(wsIn: nat, wsOut: nat, w: nat, q: nat)
    requires wsIn <= 14 && wsOut <= 14
    requires w == if wsOut > wsIn then Pow2(wsOut - wsIn) else 1
    requires q == if wsOut > wsIn then 1 else Pow2(wsIn - wsOut)
    ensures w * Pow2(wsIn) == Pow2(wsOut) * q == q * Pow2(wsOut) && 0 < q < 0x1_0000
  {
    hide Pow2;
    SixteenK();
    if wsOut > wsIn {
      Pow2Adds(wsOut - wsIn, wsIn);
    } else {
      Pow2Adds(wsOut, wsIn - wsOut);
      Pow2Grows(wsIn - wsOut, 14);
    }
  }

  lemma UnitEnlarges(wsIn: nat, wsOut: nat, told: nat)
    requires wsIn <= 14 && wsOut < told <= 14
    ensures Rescaled(Unit(wsIn, wsOut), wsIn, wsOut) * Pow2(told) > Unit(wsIn, wsOut) * Pow2(wsIn)
  {
    hide Pow2, Rescaled, Unit;
    var w := Unit(wsIn, wsOut);
    var f := Rescaled(w, wsIn, wsOut);
    UnitRescaled(wsIn, wsOut);
    TwiceAsMuch(wsOut, told);
    Enlarged(f, Pow2(wsOut), Pow2(told));
  }

  lemma TwiceAsMuch(a: nat, b: nat)
    requires a < b
    ensures 0 < Pow2(a) < Pow2(b)
  {
    Pow2Grows(a + 1, b);
  }

  lemma Enlarged(f: nat, p: nat, q: nat)
    requires f > 0 && p < q
    ensures f * p < f * q
  {
  }
}
