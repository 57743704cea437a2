/** Sign-and-magnitude deltas between two initial numbers, modulo 2^32. */
module Translation {
  import opened Serial

  /** A field pair such as seq_delta / seq_add. */
  datatype Delta = Delta(mag: U32, add: bool)

  /** The branch every dysco_compute_deltas_* assignment takes. */
  function MakeDelta(incoming: U32, outgoing: U32): Delta {
    if incoming < outgoing then Delta(outgoing - incoming, true) else Delta(incoming - outgoing, false)
  }

  /** The rewrite of one number; a zero delta leaves it alone. */
  function Apply(d: Delta, x: U32): U32 {
    if d.mag == 0 then x else if d.add then Wrap(x + d.mag) else Wrap(x - d.mag)
  }

  /** The reverse shift used for cutoffs: from the outgoing to the incoming numbering. */
  function Rebase(incoming: U32, outgoing: U32, x: U32): U32 {
    if incoming < outgoing then Wrap(x - (outgoing - incoming)) else Wrap(x + (incoming - outgoing))
  }

  lemma ApplyMovesOffset(incoming: U32, outgoing: U32, k: int)
    ensures Apply(MakeDelta(incoming, outgoing), Wrap(incoming + k)) == Wrap(outgoing + k)
  {
    WrapShift(incoming + k, outgoing - incoming);
  }

  lemma RebaseMovesOffset(incoming: U32, outgoing: U32, k: int)
    ensures Rebase(incoming, outgoing, Wrap(outgoing + k)) == Wrap(incoming + k)
  {
    WrapShift(outgoing + k, incoming - outgoing);
  }

  /** Opposite deltas undo each other on every 32-bit number. */
  lemma ApplyRoundTrip(a: U32, b: U32, x: U32)
    ensures Apply(MakeDelta(b, a), Apply(MakeDelta(a, b), x)) == x
  {
    ApplyMovesOffset(a, b, x - a);
    ApplyMovesOffset(b, a, x - a);
  }
}
