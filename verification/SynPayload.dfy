/** The payload of a SYN that sets up a service chain: the original session and the hops still to visit,
    appended by one agent and stripped by the next. */
module SynPayload {
  import opened Serial
  import opened Sessions
  import O = Options

  // ----- the payload of a SYN

  function Encode32(v: U32): (b: seq<U8>)
    ensures |b| == 4
  {
    O.Bytes32(v)
  }

  function Encode16(v: U16): (b: seq<U8>)
    ensures |b| == 2
  {
    [v / 256, v % 256]
  }

  function Decode32(b: seq<U8>, p: nat): U32
    requires p + 4 <= |b|
  {
    O.Be32(b[p], b[p + 1], b[p + 2], b[p + 3])
  }

  function Decode16(b: seq<U8>, p: nat): U16
    requires p + 2 <= |b|
  {
    b[p] as int * 256 + b[p + 1] as int
  }

  function EncodeHops(sc: seq<U32>): (b: seq<U8>)
    ensures |b| == 4 * |sc|
  {
    if sc == [] then [] else EncodeHops(sc[..|sc| - 1]) + Encode32(sc[|sc| - 1])
  }

  /** dysco_add_sc: struct tcp_session, then len and pos of struct service_chain, then the hops. */
  function EncodeSc(super: Session, sc: seq<U32>): (b: seq<U8>)
    requires |sc| < 0x1_0000
    ensures |b| == 16 + 4 * |sc|
  {
    EncodeHead(super, |sc|) + EncodeHops(sc)
  }

  function EncodeHead(super: Session, len: U16): (b: seq<U8>)
    ensures |b| == 16
  {
    Encode32(super.sip) + Encode32(super.dip) + Encode16(super.sport) + Encode16(super.dport) + Encode16(len) + Encode16(0)
  }

  /** sc.len as read at the start of the payload. */
  function ScLen(payload: seq<U8>): U16
    requires |payload| >= 16
  {
    Decode16(payload, 12)
  }

  /** What an agent may find in the payload of a SYN: room for as many hops as it says. */
  predicate FromDysco(payload: seq<U8>) {
    |payload| >= 16 && |payload| >= 16 + 4 * ScLen(payload)
  }

  function DecodeSession(payload: seq<U8>): Session
    requires FromDysco(payload)
  {
    Session(Decode32(payload, 0), Decode32(payload, 4), Decode16(payload, 8), Decode16(payload, 10))
  }

  function HopsFrom(payload: seq<U8>, k: nat): (sc: seq<U32>)
    requires FromDysco(payload) && k <= ScLen(payload)
    ensures |sc| == ScLen(payload) - k
    decreases ScLen(payload) - k
  {
    if k == ScLen(payload) then [] else [Decode32(payload, 16 + 4 * k)] + HopsFrom(payload, k + 1)
  }

  function DecodeHops(payload: seq<U8>): (sc: seq<U32>)
    requires FromDysco(payload)
    ensures |sc| == ScLen(payload)
  {
    HopsFrom(payload, 0)
  }

  /** dysco_remove_sc trims as many bytes as the chain says it has. */
  function Strip(payload: seq<U8>): seq<U8>
    requires FromDysco(payload)
  {
    payload[..|payload| - (16 + 4 * ScLen(payload))]
  }

  lemma {:induction false} HopEncoded(sc: seq<U32>, k: nat)
    requires k < |sc|
    ensures EncodeHops(sc)[4 * k..4 * k + 4] == Encode32(sc[k])
  {
    var n := |sc| - 1;
    var before := EncodeHops(sc[..n]);
    hide Encode32;
    if k < n {
      HopEncoded(sc[..n], k);
      assert EncodeHops(sc)[4 * k..4 * k + 4] == before[4 * k..4 * k + 4];
    }
  }

  lemma Decode32Slice(b: seq<U8>, p: nat, v: U32)
    requires p + 4 <= |b| && b[p..p + 4] == Encode32(v)
    ensures Decode32(b, p) == v
  {
    var e := Encode32(v);
    assert b[p] == e[0] && b[p + 1] == e[1] && b[p + 2] == e[2] && b[p + 3] == e[3];
  }

  lemma Decode16Slice(b: seq<U8>, p: nat, v: U16)
    requires p + 2 <= |b| && b[p..p + 2] == Encode16(v)
    ensures Decode16(b, p) == v
  {
    assert b[p] == Encode16(v)[0] && b[p + 1] == Encode16(v)[1];
  }

  lemma HeadIsRead(super: Session, len: U16, rest: seq<U8>)
    requires |rest| >= 4 * len
    ensures var payload := EncodeHead(super, len) + rest;
            FromDysco(payload) && ScLen(payload) == len && DecodeSession(payload) == super
  {
    var payload := EncodeHead(super, len) + rest;
    hide Encode32, Encode16, Decode32, Decode16;
    assert payload[0..4] == Encode32(super.sip);
    assert payload[4..8] == Encode32(super.dip);
    assert payload[8..10] == Encode16(super.sport);
    assert payload[10..12] == Encode16(super.dport);
    assert payload[12..14] == Encode16(len);
    Decode32Slice(payload, 0, super.sip);
    Decode32Slice(payload, 4, super.dip);
    Decode16Slice(payload, 8, super.sport);
    Decode16Slice(payload, 10, super.dport);
    Decode16Slice(payload, 12, len);
  }

  /** The receiver of a SYN without data reads the session and the chain that were appended, and strips
      exactly what was appended. */
  lemma AppendedIsRead(super: Session, sc: seq<U32>)
    requires |sc| < 0x1_0000
    ensures var payload := EncodeSc(super, sc);
            FromDysco(payload) && DecodeSession(payload) == super && DecodeHops(payload) == sc && Strip(payload) == []
  {
    var payload := EncodeSc(super, sc);
    HeadIsRead(super, |sc|, EncodeHops(sc));
    hide EncodeHead, EncodeHops, Encode32, Decode32, HopsFrom, ScLen, FromDysco, DecodeSession;
    forall k | 0 <= k < |sc|
      ensures DecodeHops(payload)[k] == sc[k]
    {
      HopsFromAt(payload, 0, k);
      HopEncoded(sc, k);
      SliceBehind(EncodeHead(super, |sc|), EncodeHops(sc), 4 * k);
      Decode32Slice(payload, 16 + 4 * k, sc[k]);
    }
  }

  lemma SliceBehind(a: seq<U8>, b: seq<U8>, k: nat)
    requires k + 4 <= |b|
    ensures (a + b)[|a| + k..|a| + k + 4] == b[k..k + 4]
  {
  }

  lemma {:induction false} HopsFromAt(payload: seq<U8>, from: nat, k: nat)
    requires FromDysco(payload) && from <= k < ScLen(payload)
    ensures HopsFrom(payload, from)[k - from] == Decode32(payload, 16 + 4 * k)
    decreases k - from
  {
    if from < k {
      HopsFromAt(payload, from + 1, k);
    }
  }
}
