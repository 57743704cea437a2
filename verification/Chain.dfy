/** Setting up a service chain: the SYN visits the hops, every agent records how the session maps to the
    sub-sessions on both sides, and all later packets follow these records in both directions. */
module Chain {
  import opened Serial
  import opened Sessions
  import opened SynPayload
  import opened Wrappers

  type Hops = s: seq<U32> | |s| < 0x1_0000

  datatype CbOut = CbOut(super: Session, sub: Session, sc: Hops)
  datatype CbIn = CbIn(super: Session, sub: Session)

  /** dysco_hash_out, dysco_hash_in and dysco_hash_pen of one namespace. */
  datatype Tables = Tables(out: map<Session, CbOut>, inp: map<Session, CbIn>, pen: map<Session, CbOut>)

  datatype Segment = Segment(ss: Session, syn: bool, ack: bool, payload: seq<U8>)

  /** rhashtable_insert_fast: an existing key keeps its value. */
  function Insert<V>(m: map<Session, V>, k: Session, v: V): map<Session, V> {
    if k in m then m else m[k := v]
  }

  /** dysco_insert_cb_out and dysco_insert_cb_out_reverse. */
  function InsertCbOut(t: Tables, cb: CbOut): Tables {
    Tables(Insert(t.out, cb.super, cb),
           Insert(t.inp, Reverse(cb.sub), CbIn(Reverse(cb.super), Reverse(cb.sub))), t.pen)
  }

  /** dysco_insert_cb_input, for a SYN that came in as the sub-session sub. */
  function InsertCbInput(t: Tables, super: Session, sub: Session, hops: Hops): Tables {
    Tables(Insert(t.out, Reverse(super), CbOut(Reverse(super), Reverse(sub), [])),
           Insert(t.inp, sub, CbIn(super, sub)),
           if |hops| > 1 then Insert(t.pen, super, CbOut(super, Session(0, 0, 0, 0), hops[1..])) else t.pen)
  }

  /** The sub-session to the first hop. */
  function NewSub(local: U32, sc: Hops, ports: (U16, U16)): Session
    requires sc != []
  {
    Session(local, sc[0], ports.0, ports.1)
  }

  /** A SYN leaves with its chain, everything else with its addresses changed only. */
  function Leave(cb: CbOut, seg: Segment, append: bool): Segment {
    seg.(ss := cb.sub, payload := if append then seg.payload + EncodeSc(cb.super, cb.sc) else seg.payload)
  }

  /** dysco_output without the data path's rewriting: `policy` is the chain that matches the packet,
      `local` the address that routing picks, `ports` what the allocators return. */
  function Output(t: Tables, policy: Option<Hops>, local: U32, ports: (U16, U16), seg: Segment): (Tables, Segment) {
    if seg.ss in t.out then (t, Leave(t.out[seg.ss], seg, seg.syn && !seg.ack))
    else if seg.ss in t.pen then
      var p := t.pen[seg.ss];
      var cb := if p.sc != [] then p.(sub := NewSub(local, p.sc, ports)) else p.(sub := p.sub.(sport := ports.0, dport := ports.1));
      (InsertCbOut(t.(pen := t.pen - {seg.ss}), cb), Leave(cb, seg, true))
    else if seg.syn && policy.Some? && policy.value != [] then
      var cb := CbOut(seg.ss, NewSub(local, policy.value, ports), policy.value);
      (InsertCbOut(t, cb), Leave(cb, seg, !seg.ack))
    else (t, seg)
  }

  /** A chain is appended to the initial SYN of a session with a chain, first or resent, and to whatever is
      the first to leave for a pending session; nothing else grows. */
  lemma ChainRidesExactlyWhen(t: Tables, policy: Option<Hops>, local: U32, ports: (U16, U16), seg: Segment)
    ensures var sent := Output(t, policy, local, ports, seg).1;
            && (|sent.payload| > |seg.payload|
                <==> (seg.ss !in t.out && seg.ss in t.pen)
                     || (seg.syn && !seg.ack && (seg.ss in t.out || (policy.Some? && policy.value != []))))
            && (|sent.payload| <= |seg.payload| ==> sent.payload == seg.payload)
            && sent.syn == seg.syn && sent.ack == seg.ack
  {
  }

  /** What the agent of the previous hop guarantees about a SYN. */
  predicate Readable(t: Tables, seg: Segment) {
    seg.syn && (if seg.ss in t.inp then !seg.ack else seg.payload != []) ==> FromDysco(seg.payload)
  }

  /** dysco_input, likewise. */
  function Input(t: Tables, seg: Segment): (Tables, Segment)
    requires Readable(t, seg)
  {
    if seg.ss in t.inp then
      (t, seg.(ss := t.inp[seg.ss].super, payload := if seg.syn && !seg.ack then Strip(seg.payload) else seg.payload))
    else if seg.syn && seg.payload != [] then
      var super := DecodeSession(seg.payload);
      (InsertCbInput(t, super, seg.ss, DecodeHops(seg.payload)), seg.(ss := super, payload := Strip(seg.payload)))
    else (t, seg)
  }

  /** The agent of one host, its tables updated in place. */
  class Agent {
    var hashOut: map<Session, CbOut>
    var hashIn: map<Session, CbIn>
    var hashPen: map<Session, CbOut>

    ghost function View(): Tables
      reads this
    {
      Tables(hashOut, hashIn, hashPen)
    }

    constructor ()
      ensures View() == Tables(map[], map[], map[])
    {
      hashOut, hashIn, hashPen := map[], map[], map[];
    }

    method InsertOut(cb: CbOut)
      modifies this
      ensures View() == InsertCbOut(old(View()), cb)
    {
      if cb.super !in hashOut {
        hashOut := hashOut[cb.super := cb];
      }
      var dcbIn := CbIn(Reverse(cb.super), Reverse(cb.sub));
      if dcbIn.sub !in hashIn {
        hashIn := hashIn[dcbIn.sub := dcbIn];
      }
    }

    method InsertInput(super: Session, sub: Session, hops: Hops)
      modifies this
      ensures View() == InsertCbInput(old(View()), super, sub, hops)
    {
      var dcbIn := CbIn(super, sub);
      var dcbOut := CbOut(Reverse(super), Reverse(sub), []);
      if |hops| > 1 {
        var pending := CbOut(super, Session(0, 0, 0, 0), hops[1..]);
        if super !in hashPen {
          hashPen := hashPen[super := pending];
        }
      }
      if dcbIn.sub !in hashIn {
        hashIn := hashIn[dcbIn.sub := dcbIn];
      }
      if dcbOut.super !in hashOut {
        hashOut := hashOut[dcbOut.super := dcbOut];
      }
    }

    /** dysco_out_handle_mb: the pending block gets its sub-session and moves to the output table. */
    method HandleMb(local: U32, ports: (U16, U16), seg: Segment) returns (sent: Segment)
      requires seg.ss in hashPen && seg.ss !in hashOut
      modifies this
      ensures (View(), sent) == Output(old(View()), None, local, ports, seg)
    {
      var dcbOut := hashPen[seg.ss];
      hashPen := hashPen - {seg.ss};
      if dcbOut.sc != [] {
        dcbOut := dcbOut.(sub := dcbOut.sub.(sip := local, dip := dcbOut.sc[0]));
      }
      dcbOut := dcbOut.(sub := dcbOut.sub.(sport := ports.0, dport := ports.1));
      InsertOut(dcbOut);
      sent := Leave(dcbOut, seg, true);
    }

    /** dysco_output. */
    method Send(policy: Option<Hops>, local: U32, ports: (U16, U16), seg: Segment) returns (sent: Segment)
      modifies this
      ensures (View(), sent) == Output(old(View()), policy, local, ports, seg)
    {
      if seg.ss in hashOut {
        sent := Leave(hashOut[seg.ss], seg, seg.syn && !seg.ack);
        return;
      }
      if seg.ss in hashPen {
        sent := HandleMb(local, ports, seg);
        return;
      }
      sent := seg;
      if seg.syn {
        match policy
        case None =>
        case Some(sc) =>
          if sc != [] {
            var dcbOut := CbOut(seg.ss, NewSub(local, sc, ports), sc);
            InsertOut(dcbOut);
            sent := Leave(dcbOut, seg, !seg.ack);
          }
      }
    }

    /** dysco_input. */
    method Receive(seg: Segment) returns (seen: Segment)
      requires Readable(View(), seg)
      modifies this
      ensures (View(), seen) == Input(old(View()), seg)
    {
      seen := seg;
      if seg.ss !in hashIn {
        if seg.syn && seg.payload != [] {
          var super := DecodeSession(seg.payload);
          InsertInput(super, seg.ss, DecodeHops(seg.payload));
          seen := seg.(ss := super, payload := Strip(seg.payload));
        }
        return;
      }
      var dcbIn := hashIn[seg.ss];
      if seg.syn && !seg.ack {
        seen := seen.(payload := Strip(seg.payload));
      }
      seen := seen.(ss := dcbIn.super);
    }
  }

  // ----- a network of hosts

  type Net = map<U32, Tables>

  /** The SYN reached host with the chain got, and the stack there saw the session seen. */
  datatype Visit = Visit(host: U32, got: seq<U32>, seen: Session)

  /** The stack of the host passes a SYN of s on: a middlebox, before or after it first did so. */
  predicate PassesOn(t: Tables, s: Session) {
    s in t.pen || s in t.out
  }

  /** A SYN leaves the stack of `here`, goes where its address says, and is passed on by every middlebox,
      until it got through or was handled as often as `handled` says and then lost: an odd number loses it
      on a link, an even one before it is sent on. Each link has the next pair of ports. */
  function Forward(net: Net, policy: map<U32, Hops>, here: U32, seg: Segment, ports: seq<(U16, U16)>, handled: nat)
      : (Net, seq<Visit>)
    decreases handled
  {
    if handled == 0 || ports == [] || here !in net then (net, [])
    else
      var (t, sent) := Output(net[here], PolicyAt(policy, here), here, ports[0], seg);
      var net1, there := net[here := t], sent.ss.dip;
      if handled == 1 || there !in net1 || !Readable(net1[there], sent) then (net1, [])
      else
        var (t', seen) := Input(net1[there], sent);
        var net2 := net1[there := t'];
        var visit := Visit(there, if FromDysco(sent.payload) then DecodeHops(sent.payload) else [], seen.ss);
        if PassesOn(t', seen.ss) then
          var rest := Forward(net2, policy, there, seen, ports[1..], handled - 2);
          (rest.0, [visit] + rest.1)
        else (net2, [visit])
  }

  function PolicyAt(policy: map<U32, Hops>, h: U32): Option<Hops> {
    if h in policy then Some(policy[h]) else None
  }

  /** The two ends of one link know the session and each other. */
  predicate Linked(net: Net, a: U32, b: U32, s: Session, sub: Session) {
    && a in net && b in net
    && s in net[a].out && net[a].out[s].sub == sub
    && sub in net[b].inp && net[b].inp[sub].super == s
    && Reverse(s) in net[b].out && net[b].out[Reverse(s)].sub == Reverse(sub)
    && Reverse(sub) in net[a].inp && net[a].inp[Reverse(sub)].super == Reverse(s)
  }

  function Link(nodes: seq<U32>, ports: seq<(U16, U16)>, i: nat): Session
    requires i + 1 < |nodes| && i < |ports|
  {
    Session(nodes[i], nodes[i + 1], ports[i].0, ports[i].1)
  }

  ghost predicate AllLinked(net: Net, nodes: seq<U32>, s: Session, ports: seq<(U16, U16)>) {
    |nodes| == |ports| + 1
    && forall i :: 0 <= i < |ports| ==> Linked(net, nodes[i], nodes[i + 1], s, Link(nodes, ports, i))
  }

  /** Tables only grow, but for the pending one. */
  ghost predicate Grows(net: Net, net': Net) {
    forall h :: h in net ==> h in net' && Kept(net[h].out, net'[h].out) && Kept(net[h].inp, net'[h].inp)
  }

  ghost predicate Kept<V>(m: map<Session, V>, m': map<Session, V>) {
    forall k :: k in m ==> k in m' && m'[k] == m[k]
  }

  lemma LinkStays(net: Net, net': Net, a: U32, b: U32, s: Session, sub: Session)
    requires Linked(net, a, b, s, sub) && Grows(net, net')
    ensures Linked(net', a, b, s, sub)
  {
  }

  ghost predicate TablesKept(t: Tables, t': Tables) {
    Kept(t.out, t'.out) && Kept(t.inp, t'.inp)
  }

  lemma OutputKeeps(t: Tables, policy: Option<Hops>, local: U32, ports: (U16, U16), seg: Segment)
    ensures TablesKept(t, Output(t, policy, local, ports, seg).0)
  {
  }

  lemma InputKeeps(t: Tables, seg: Segment)
    requires Readable(t, seg)
    ensures TablesKept(t, Input(t, seg).0)
  {
  }

  lemma OneHostGrows(net: Net, h: U32, t: Tables)
    requires h in net && TablesKept(net[h], t)
    ensures Grows(net, net[h := t])
  {
  }

  lemma GrowsOn(a: Net, b: Net, c: Net)
    requires Grows(a, b) && Grows(b, c)
    ensures Grows(a, c)
  {
  }

  lemma {:induction false} ForwardGrows(
      net: Net, policy: map<U32, Hops>, here: U32, seg: Segment, ports: seq<(U16, U16)>, handled: nat)
    ensures Grows(net, Forward(net, policy, here, seg, ports, handled).0)
    decreases handled
  {
    hide Output, Input, Readable, Grows, TablesKept, FromDysco, PolicyAt;
    GrowsItself(net);
    if handled > 0 && ports != [] && here in net {
      var p := PolicyAt(policy, here);
      var (t, sent) := Output(net[here], p, here, ports[0], seg);
      var net1, there := net[here := t], sent.ss.dip;
      OutputKeeps(net[here], p, here, ports[0], seg);
      OneHostGrows(net, here, t);
      if handled > 1 && there in net1 && Readable(net1[there], sent) {
        var (t', seen) := Input(net1[there], sent);
        var net2 := net1[there := t'];
        InputKeeps(net1[there], sent);
        OneHostGrows(net1, there, t');
        GrowsOn(net, net1, net2);
        if PassesOn(t', seen.ss) {
          ForwardGrows(net2, policy, there, seen, ports[1..], handled - 2);
          GrowsOn(net, net2, Forward(net2, policy, there, seen, ports[1..], handled - 2).0);
        }
      }
    }
  }

  lemma GrowsItself(net: Net)
    ensures Grows(net, net)
  {
  }

  // ----- the SYN

  /** The host sends the SYN of s on towards the hops: from the policy at the client, from the pending
      table at a middlebox. */
  predicate Sends(t: Tables, policy: Option<Hops>, s: Session, hops: Hops) {
    s !in t.out && if s in t.pen then t.pen[s].super == s && t.pen[s].sc == hops else policy == Some(hops)
  }

  /** The host has not heard of s. */
  predicate New(t: Tables, s: Session) {
    s !in t.out && Reverse(s) !in t.out && s !in t.pen
  }

  /** The sub-session is new to the host at either end. */
  predicate NewLink(from: Tables, to: Tables, sub: Session) {
    sub !in to.inp && Reverse(sub) !in from.inp
  }

  /** What the hops see: each the chain from itself on, and the original session. */
  function Expected(hops: Hops, s: Session): (visits: seq<Visit>)
    ensures |visits| == |hops| && forall i :: 0 <= i < |hops| ==> visits[i] == Visit(hops[i], hops[i..], s)
  {
    if hops == [] then [] else [Visit(hops[0], hops, s)] + Expected(hops[1..], s)
  }

  /** One link of the SYN. */
  lemma SynOverLink(from: Tables, to: Tables, policy: Option<Hops>, here: U32, s: Session, hops: Hops, ports: (U16, U16))
    requires Sends(from, policy, s, hops) && hops != [] && New(to, s) && here != hops[0] && s != Reverse(s)
    requires NewLink(from, to, Session(here, hops[0], ports.0, ports.1))
    ensures var seg := Segment(s, true, false, []);
            var sub := Session(here, hops[0], ports.0, ports.1);
            var (t, sent) := Output(from, policy, here, ports, seg);
            && sent.ss == sub && Readable(to, sent) && FromDysco(sent.payload) && DecodeHops(sent.payload) == hops
            && t == InsertCbOut(from.(pen := from.pen - {s}), CbOut(s, sub, hops))
            && Input(to, sent) == (InsertCbInput(to, s, sub, hops), seg)
  {
    AppendedIsRead(s, hops);
    hide EncodeSc, FromDysco, DecodeSession, DecodeHops, Strip;
    assert [] + EncodeSc(s, hops) == EncodeSc(s, hops);
    assert |EncodeSc(s, hops)| > 0;
    if s !in from.pen {
      assert from.pen - {s} == from.pen;
    }
  }

  /** The hosts of a path exist, and none comes twice. */
  ghost predicate Path(net: Net, nodes: seq<U32>, ports: seq<(U16, U16)>) {
    && |nodes| == |ports| + 1
    && (forall i, j :: 0 <= i < j < |nodes| ==> nodes[i] != nodes[j])
    && (forall i :: 0 <= i < |nodes| ==> nodes[i] in net)
  }

  /** Nothing beyond the first host is known yet, and no link is taken. */
  ghost predicate FreshPath(net: Net, nodes: seq<U32>, s: Session, ports: seq<(U16, U16)>) {
    && Path(net, nodes, ports)
    && (forall i :: 0 < i < |nodes| ==> New(net[nodes[i]], s))
    && (forall i :: 0 <= i < |ports| ==> NewLink(net[nodes[i]], net[nodes[i + 1]], Link(nodes, ports, i)))
  }

  /** The host sent a SYN of s over sub. */
  predicate Sent(t: Tables, s: Session, sub: Session, hops: Hops) {
    && s in t.out && t.out[s] == CbOut(s, sub, hops)
    && Reverse(sub) in t.inp && t.inp[Reverse(sub)].super == Reverse(s)
  }

  /** The host received one. */
  predicate Received(t: Tables, s: Session, sub: Session) {
    && sub in t.inp && t.inp[sub].super == s
    && Reverse(s) in t.out && t.out[Reverse(s)].sub == Reverse(sub)
  }

  /** No SYN of s over sub has arrived at this host. */
  predicate Unheard(t: Tables, s: Session, sub: Session) {
    New(t, s) && sub !in t.inp
  }

  /** However often the SYN of s was sent and wherever its copies were lost: up to some host everybody sent
      one and all but perhaps the last one's arrived, beyond that nothing is known. */
  ghost predicate Underway(net: Net, policy: Option<Hops>, here: U32, s: Session, hops: Hops, ports: seq<(U16, U16)>)
    decreases |hops|
  {
    && hops != [] && ports != [] && here in net && hops[0] in net
    && var sub := Session(here, hops[0], ports[0].0, ports[0].1);
       || (Sends(net[here], policy, s, hops) && FreshPath(net, [here] + hops, s, ports))
       || (Sent(net[here], s, sub, hops) && Unheard(net[hops[0]], s, sub) && FreshPath(net, hops, s, ports[1..]))
       || (Sent(net[here], s, sub, hops) && Received(net[hops[0]], s, sub)
           && if |hops| == 1 then !PassesOn(net[hops[0]], s) else Underway(net, None, hops[0], s, hops[1..], ports[1..]))
  }

  lemma PathBeyond(net: Net, here: U32, hops: Hops, ports: seq<(U16, U16)>)
    requires hops != [] && Path(net, [here] + hops, ports)
    ensures Path(net, hops, ports[1..]) && here in net && hops[0] in net && here !in hops
    ensures Link([here] + hops, ports, 0) == Session(here, hops[0], ports[0].0, ports[0].1)
  {
    var nodes := [here] + hops;
    assert nodes[0] == here;
    forall i | 0 <= i < |hops|
      ensures hops[i] == nodes[i + 1] && hops[i] != here && hops[i] in net
    {
      assert nodes[i + 1] != nodes[0];
    }
    forall i, j | 0 <= i < j < |hops|
      ensures hops[i] != hops[j]
    {
      assert nodes[i + 1] != nodes[j + 1];
    }
  }

  function Syn(s: Session): Segment { Segment(s, true, false, []) }

  /** The SYN of s on its way over sub, with the chain from the next host on and nothing else. */
  predicate Carrying(sent: Segment, s: Session, sub: Session, hops: Hops) {
    && sent.ss == sub && sent.syn && !sent.ack && FromDysco(sent.payload)
    && DecodeSession(sent.payload) == s && DecodeHops(sent.payload) == hops && Strip(sent.payload) == []
  }

  /** A SYN leaves with the session and the whole chain, be it the first one or sent again. */
  lemma SynCarriesChain(t: Tables, policy: Option<Hops>, local: U32, ports: (U16, U16), s: Session, sub: Session, hops: Hops)
    requires || Sent(t, s, sub, hops)
             || (Sends(t, policy, s, hops) && hops != [] && sub == Session(local, hops[0], ports.0, ports.1)
                 && Reverse(sub) !in t.inp)
    ensures var (t', sent) := Output(t, policy, local, ports, Syn(s));
            && Carrying(sent, s, sub, hops) && Sent(t', s, sub, hops) && (Sent(t, s, sub, hops) ==> t' == t)
  {
    EncodedIsCarried(s, sub, hops);
    hide EncodeSc, Carrying, Reverse;
    assert [] + EncodeSc(s, hops) == EncodeSc(s, hops);
  }

  lemma EncodedIsCarried(s: Session, sub: Session, hops: Hops)
    ensures Carrying(Segment(sub, true, false, EncodeSc(s, hops)), s, sub, hops)
  {
    AppendedIsRead(s, hops);
    hide EncodeSc, FromDysco, DecodeSession, DecodeHops, Strip;
  }

  /** At the next host the stack gets the original SYN, whether an earlier copy arrived or none, and the
      host has received it then. */
  lemma SynArrives(t: Tables, s: Session, sub: Session, hops: Hops, sent: Segment)
    requires s != Reverse(s) && (Received(t, s, sub) || Unheard(t, s, sub))
    requires Carrying(sent, s, sub, hops)
    ensures Readable(t, sent)
    ensures var (t', seen) := Input(t, sent);
            && seen == Syn(s) && Received(t', s, sub)
            && (Received(t, s, sub) ==> t' == t) && (!Received(t, s, sub) ==> t' == InsertCbInput(t, s, sub, hops))
  {
    assert sent.payload != [];
    hide FromDysco, DecodeSession, DecodeHops, Strip;
  }

  /** What a fresh path says of its first link and of the rest. */
  lemma FreshBeyond(net: Net, here: U32, s: Session, hops: Hops, ports: seq<(U16, U16)>)
    requires hops != [] && FreshPath(net, [here] + hops, s, ports)
    ensures ports != []
    ensures var sub := Session(here, hops[0], ports[0].0, ports[0].1);
            && here in net && hops[0] in net && Reverse(sub) !in net[here].inp && Unheard(net[hops[0]], s, sub)
    ensures FreshPath(net, hops, s, ports[1..])
  {
    var nodes := [here] + hops;
    PathBeyond(net, here, hops, ports);
    hide Reverse, Path;
    assert nodes[0] == here && nodes[1] == hops[0] && New(net[nodes[1]], s);
    assert NewLink(net[nodes[0]], net[nodes[1]], Link(nodes, ports, 0));
    forall i | 0 < i < |hops|
      ensures New(net[hops[i]], s)
    {
      assert New(net[nodes[i + 1]], s);
    }
    forall i | 0 <= i < |ports[1..]|
      ensures NewLink(net[hops[i]], net[hops[i + 1]], Link(hops, ports[1..], i))
    {
      assert NewLink(net[nodes[i + 1]], net[nodes[i + 2]], Link(nodes, ports, i + 1));
    }
  }

  lemma FreshElsewhere(net: Net, net': Net, nodes: seq<U32>, s: Session, ports: seq<(U16, U16)>)
    requires FreshPath(net, nodes, s, ports) && forall h :: h in nodes && h in net ==> h in net' && net'[h] == net[h]
    ensures FreshPath(net', nodes, s, ports)
  {
    hide New, Reverse;
    forall i | 0 <= i < |ports|
      ensures NewLink(net'[nodes[i]], net'[nodes[i + 1]], Link(nodes, ports, i))
    {
      assert nodes[i] in nodes && nodes[i + 1] in nodes;
      assert NewLink(net[nodes[i]], net[nodes[i + 1]], Link(nodes, ports, i));
    }
  }

  /** A host that got the SYN has it pending for the remaining hops, and the path from there is fresh. */
  lemma NextIsReady(net: Net, net': Net, s: Session, sub: Session, hops: Hops, ports: seq<(U16, U16)>)
    requires |hops| > 1 && s != Reverse(s) && FreshPath(net, hops, s, ports) && sub.sip !in hops
    requires hops[0] in net && Unheard(net[hops[0]], s, sub)
    requires net' == net[hops[0] := InsertCbInput(net[hops[0]], s, sub, hops)]
    ensures FreshPath(net', hops, s, ports) && Sends(net'[hops[0]], None, s, hops[1..])
  {
    hide Reverse;
    forall i | 0 < i < |hops|
      ensures net'[hops[i]] == net[hops[i]] && New(net'[hops[i]], s)
    {
      assert New(net[hops[i]], s);
    }
    forall i | 0 <= i < |ports|
      ensures NewLink(net'[hops[i]], net'[hops[i + 1]], Link(hops, ports, i))
    {
      assert hops[i + 1] in hops;
      assert NewLink(net[hops[i]], net[hops[i + 1]], Link(hops, ports, i));
      ReverseDiffers(Link(hops, ports, i), sub);
    }
  }

  lemma ReverseDiffers(a: Session, b: Session)
    requires a.dip != b.sip
    ensures Reverse(a) != b
  {
  }

  // ----- any transmission

  /** The SYN as it is on the link behind `here`, and the network then. */
  function OnLink(net: Net, policy: Option<Hops>, here: U32, s: Session, ports: (U16, U16)): (Net, Segment)
    requires here in net
  {
    var (t, sent) := Output(net[here], policy, here, ports, Syn(s));
    (net[here := t], sent)
  }

  lemma FirstSynLeaves(net: Net, policy: Option<Hops>, here: U32, s: Session, hops: Hops, ports: seq<(U16, U16)>)
    requires hops != [] && FreshPath(net, [here] + hops, s, ports) && here !in hops
    requires here in net && Sends(net[here], policy, s, hops)
    ensures hops[0] in net && ports != []
    ensures var sub := Session(here, hops[0], ports[0].0, ports[0].1);
            var (net', sent) := OnLink(net, policy, here, s, ports[0]);
            && net'.Keys == net.Keys && Carrying(sent, s, sub, hops) && Sent(net'[here], s, sub, hops)
            && Unheard(net'[hops[0]], s, sub) && FreshPath(net', hops, s, ports[1..])
  {
    hide Output, Carrying, Reverse, Sends, Sent, Unheard, FreshPath;
    FreshBeyond(net, here, s, hops, ports);
    var sub := Session(here, hops[0], ports[0].0, ports[0].1);
    var (net', sent) := OnLink(net, policy, here, s, ports[0]);
    SynCarriesChain(net[here], policy, here, ports[0], s, sub, hops);
    FreshElsewhere(net, net', hops, s, ports[1..]);
  }

  lemma SynLeaves(net: Net, policy: Option<Hops>, p: Option<Hops>, here: U32, s: Session, hops: Hops, ports: seq<(U16, U16)>)
    requires hops != [] && Path(net, [here] + hops, ports) && Underway(net, p, here, s, hops, ports)
    requires p == policy || p == None
    ensures var sub := Session(here, hops[0], ports[0].0, ports[0].1);
            var (net', sent) := OnLink(net, policy, here, s, ports[0]);
            && Carrying(sent, s, sub, hops) && net'.Keys == net.Keys && Sent(net'[here], s, sub, hops)
            && Underway(net', p, here, s, hops, ports)
  {
    hide *;
    PathBeyond(net, here, hops, ports);
    NotSentYet(net, p, here, s, hops, ports);
    SendsAnyway(net[here], policy, s, hops);
    var sub := Session(here, hops[0], ports[0].0, ports[0].1);
    if Sent(net[here], s, sub, hops) {
      SynLeavesAgain(net, policy, here, s, sub, hops, ports[0]);
    } else {
      FirstSynLeaves(net, policy, here, s, hops, ports);
      SentIsUnderway(OnLink(net, policy, here, s, ports[0]).0, p, here, s, hops, ports);
    }
  }

  lemma SynLeavesAgain(net: Net, policy: Option<Hops>, here: U32, s: Session, sub: Session, hops: Hops, ports: (U16, U16))
    requires here in net && Sent(net[here], s, sub, hops)
    ensures OnLink(net, policy, here, s, ports).0 == net && Carrying(OnLink(net, policy, here, s, ports).1, s, sub, hops)
  {
    hide Output, Carrying, Reverse, Sends, Sent;
    SynCarriesChain(net[here], policy, here, ports, s, sub, hops);
  }

  lemma NotSentYet(net: Net, p: Option<Hops>, here: U32, s: Session, hops: Hops, ports: seq<(U16, U16)>)
    requires Underway(net, p, here, s, hops, ports)
    ensures hops != [] && ports != [] && here in net
    ensures !Sent(net[here], s, Session(here, hops[0], ports[0].0, ports[0].1), hops) ==>
              Sends(net[here], p, s, hops) && FreshPath(net, [here] + hops, s, ports)
  {
    hide Sent, Sends, FreshPath, Reverse;
  }

  lemma SentIsUnderway(net: Net, p: Option<Hops>, here: U32, s: Session, hops: Hops, ports: seq<(U16, U16)>)
    requires hops != [] && ports != [] && here in net && hops[0] in net
    requires var sub := Session(here, hops[0], ports[0].0, ports[0].1);
             Sent(net[here], s, sub, hops) && Unheard(net[hops[0]], s, sub) && FreshPath(net, hops, s, ports[1..])
    ensures Underway(net, p, here, s, hops, ports)
  {
  }

  lemma SendsAnyway(t: Tables, policy: Option<Hops>, s: Session, hops: Hops)
    ensures Sends(t, None, s, hops) ==> Sends(t, policy, s, hops)
  {
  }

  /** The network after the SYN was handled at the other end of the link. */
  function Taken(net: Net, there: U32, sent: Segment): (Net, Segment)
    requires there in net && Readable(net[there], sent)
  {
    var (t, seen) := Input(net[there], sent);
    (net[there := t], seen)
  }

  lemma SynIsTaken(net: Net, p: Option<Hops>, here: U32, s: Session, sub: Session, hops: Hops, ports: seq<(U16, U16)>,
                   sent: Segment)
    requires hops != [] && s != Reverse(s) && Path(net, [here] + hops, ports) && Underway(net, p, here, s, hops, ports)
    requires sub == Session(here, hops[0], ports[0].0, ports[0].1)
    requires here in net && Sent(net[here], s, sub, hops) && Carrying(sent, s, sub, hops)
    ensures hops[0] in net && Readable(net[hops[0]], sent)
    ensures var (net', seen) := Taken(net, hops[0], sent);
            && seen == Syn(s) && net'.Keys == net.Keys
            && Sent(net'[here], s, sub, hops) && Received(net'[hops[0]], s, sub)
            && (PassesOn(net'[hops[0]], s) <==> |hops| > 1)
            && (|hops| > 1 ==> Underway(net', None, hops[0], s, hops[1..], ports[1..]))
  {
    PathBeyond(net, here, hops, ports);
    SentIsUnsent(net[here], p, s, sub, hops);
    if Received(net[hops[0]], s, sub) {
      ReceivedIsHeard(net[hops[0]], s, sub);
      SynArrives(net[hops[0]], s, sub, hops, sent);
      hide Input, Readable, Carrying, Reverse, FreshPath, Path, Received;
      assert Taken(net, hops[0], sent).0 == net;
    } else {
      hide Input, Readable, Carrying, Path, Sends, Sent, FreshPath, Received;
      SynArrives(net[hops[0]], s, sub, hops, sent);
      if |hops| > 1 {
        NextIsReady(net, Taken(net, hops[0], sent).0, s, sub, hops, ports[1..]);
        assert [hops[0]] + hops[1..] == hops;
      }
    }
  }

  lemma SentIsUnsent(t: Tables, p: Option<Hops>, s: Session, sub: Session, hops: Hops)
    requires Sent(t, s, sub, hops)
    ensures !Sends(t, p, s, hops)
  {
  }

  lemma ReceivedIsHeard(t: Tables, s: Session, sub: Session)
    requires Received(t, s, sub)
    ensures !Unheard(t, s, sub)
  {
  }

  /** The SYN of s may be sent by `here`, for the first time or again: the client has it from the policy,
      a middlebox has it pending. */
  ghost predicate Ready(net: Net, policy: map<U32, Hops>, p: Option<Hops>, here: U32, s: Session, hops: Hops,
                        ports: seq<(U16, U16)>)
  {
    && hops != [] && s != Reverse(s) && Path(net, [here] + hops, ports) && Underway(net, p, here, s, hops, ports)
    && (p == PolicyAt(policy, here) || p == None)
  }

  /** One link of any transmission: the network when the SYN is on it, and when it is taken. */
  lemma OneLink(net: Net, policy: map<U32, Hops>, p: Option<Hops>, here: U32, s: Session, hops: Hops,
                ports: seq<(U16, U16)>, handled: nat) returns (net1: Net, net2: Net)
    requires Ready(net, policy, p, here, s, hops, ports) && handled > 0
    ensures net1.Keys == net2.Keys == net.Keys && Underway(net1, p, here, s, hops, ports)
    ensures Crossed(net2, here, s, hops, ports)
    ensures Unrolls(net, net1, net2, policy, here, s, hops, ports, handled)
  {
    PathBeyond(net, here, hops, ports);
    var sub := Session(here, hops[0], ports[0].0, ports[0].1);
    SynLeaves(net, PolicyAt(policy, here), p, here, s, hops, ports);
    var (onLink, sent) := OnLink(net, PolicyAt(policy, here), here, s, ports[0]);
    PathStays(net, onLink, [here] + hops, ports);
    SynIsTaken(onLink, p, here, s, sub, hops, ports, sent);
    net1, net2 := onLink, Taken(onLink, hops[0], sent).0;
    hide Output, Input, Readable, DecodeHops, FromDysco, DecodeSession, Strip, Reverse, PolicyAt, Underway, Path, Sent, Received,
         PassesOn;
  }

  /** What Forward does, by the first link. */
  ghost predicate Unrolls(net: Net, net1: Net, net2: Net, policy: map<U32, Hops>, here: U32, s: Session, hops: Hops,
                          ports: seq<(U16, U16)>, handled: nat)
  {
    && handled > 0 && hops != [] && ports != []
    && Forward(net, policy, here, Syn(s), ports, handled)
       == if handled == 1 then (net1, [])
          else if |hops| == 1 then (net2, [Visit(hops[0], hops, s)])
          else var rest := Forward(net2, policy, hops[0], Syn(s), ports[1..], handled - 2);
               (rest.0, [Visit(hops[0], hops, s)] + rest.1)
  }

  /** The link was crossed, and the rest of the chain is under way. */
  ghost predicate Crossed(net: Net, here: U32, s: Session, hops: Hops, ports: seq<(U16, U16)>) {
    && hops != [] && ports != [] && here in net && hops[0] in net
    && var sub := Session(here, hops[0], ports[0].0, ports[0].1);
       && Sent(net[here], s, sub, hops) && Received(net[hops[0]], s, sub)
       && (PassesOn(net[hops[0]], s) <==> |hops| > 1)
       && (|hops| > 1 ==> Underway(net, None, hops[0], s, hops[1..], ports[1..]))
  }

  lemma CrossedIsUnderway(net: Net, p: Option<Hops>, here: U32, s: Session, hops: Hops, ports: seq<(U16, U16)>)
    requires Crossed(net, here, s, hops, ports)
    ensures Underway(net, p, here, s, hops, ports)
    ensures Path(net, [here] + hops, ports) ==> Linked(net, here, hops[0], s, Link([here] + hops, ports, 0))
  {
  }

  lemma PathStays(net: Net, net': Net, nodes: seq<U32>, ports: seq<(U16, U16)>)
    requires Path(net, nodes, ports) && net'.Keys == net.Keys
    ensures Path(net', nodes, ports)
  {
    assert forall h :: h in net.Keys ==> h in net'.Keys;
  }

  function FirstOf<T>(list: seq<T>, n: nat): seq<T> {
    if n < |list| then list[..n] else list
  }

  lemma ExpectedOneMore(hops: Hops, s: Session, n: nat)
    requires hops != []
    ensures FirstOf(Expected(hops, s), n + 1) == [Visit(hops[0], hops, s)] + FirstOf(Expected(hops[1..], s), n)
  {
  }

  /** A transmission that reached n hosts: these saw what they should, the rest of the chain can still be
      set up by another transmission, and a SYN that reached the last hop left all neighbours linked. */
  ghost predicate Reached(net: Net, visits: seq<Visit>, p: Option<Hops>, here: U32, s: Session, hops: Hops,
                          ports: seq<(U16, U16)>, n: nat)
  {
    && Underway(net, p, here, s, hops, ports)
    && visits == FirstOf(Expected(hops, s), n)
    && (n >= |hops| ==> AllLinked(net, [here] + hops, s, ports))
  }

  /** One transmission of the SYN by `here`, lost after it was handled `handled` times. */
  ghost predicate Transmits(net: Net, policy: map<U32, Hops>, p: Option<Hops>, here: U32, s: Session, hops: Hops,
                            ports: seq<(U16, U16)>, handled: nat)
  {
    var (net', visits) := Forward(net, policy, here, Syn(s), ports, handled);
    net'.Keys == net.Keys && Reached(net', visits, p, here, s, hops, ports, handled / 2)
  }

  lemma TransmitsOneLink(net: Net, policy: map<U32, Hops>, p: Option<Hops>, here: U32, s: Session, hops: Hops,
                         ports: seq<(U16, U16)>, handled: nat)
    requires Ready(net, policy, p, here, s, hops, ports) && (handled < 2 || |hops| == 1)
    ensures Transmits(net, policy, p, here, s, hops, ports, handled)
  {
    if handled > 0 {
      hide Reverse, Crossed, Underway, Path, Linked, PolicyAt, Forward;
      var net1, net2 := OneLink(net, policy, p, here, s, hops, ports, handled);
      if handled > 1 {
        PathStays(net, net2, [here] + hops, ports);
        CrossedIsUnderway(net2, p, here, s, hops, ports);
        assert [Visit(hops[0], hops, s)] == Expected(hops, s);
        assert AllLinked(net2, [here] + hops, s, ports);
      }
    }
  }

  lemma CrossedStays(net: Net, net': Net, here: U32, s: Session, hops: Hops, ports: seq<(U16, U16)>)
    requires |hops| > 1 && Crossed(net, here, s, hops, ports) && Grows(net, net')
    requires Underway(net', None, hops[0], s, hops[1..], ports[1..])
    ensures Crossed(net', here, s, hops, ports)
  {
    hide FreshPath, Reverse;
  }

  lemma LinksTogether(net: Net, nodes: seq<U32>, s: Session, ports: seq<(U16, U16)>)
    requires |nodes| == |ports| + 1 >= 2
    requires Linked(net, nodes[0], nodes[1], s, Link(nodes, ports, 0)) && AllLinked(net, nodes[1..], s, ports[1..])
    ensures AllLinked(net, nodes, s, ports)
  {
    hide Linked;
    forall i | 0 <= i < |ports|
      ensures Linked(net, nodes[i], nodes[i + 1], s, Link(nodes, ports, i))
    {
      if i > 0 {
        assert Linked(net, nodes[1..][i - 1], nodes[1..][i], s, Link(nodes[1..], ports[1..], i - 1));
      }
    }
  }

  /** What a transmission behind the next host leaves of the link to it. */
  lemma LinkAndRest(net: Net, net': Net, p: Option<Hops>, here: U32, s: Session, hops: Hops, ports: seq<(U16, U16)>)
    requires |hops| > 1 && Path(net, [here] + hops, ports) && net'.Keys == net.Keys && Crossed(net, here, s, hops, ports)
    requires Grows(net, net') && Underway(net', None, hops[0], s, hops[1..], ports[1..])
    ensures Underway(net', p, here, s, hops, ports)
    ensures AllLinked(net', hops, s, ports[1..]) ==> AllLinked(net', [here] + hops, s, ports)
  {
    PathBeyond(net, here, hops, ports);
    hide Crossed, Underway, Grows, Linked;
    CrossedStays(net, net', here, s, hops, ports);
    PathStays(net, net', [here] + hops, ports);
    CrossedIsUnderway(net', p, here, s, hops, ports);
    if AllLinked(net', hops, s, ports[1..]) {
      assert hops == ([here] + hops)[1..];
      LinksTogether(net', [here] + hops, s, ports);
    }
  }

  lemma ReachedOneMore(net: Net, net': Net, visits: seq<Visit>, p: Option<Hops>, here: U32, s: Session, hops: Hops,
                       ports: seq<(U16, U16)>, n: nat)
    requires |hops| > 1 && Path(net, [here] + hops, ports) && net'.Keys == net.Keys && Crossed(net, here, s, hops, ports)
    requires ports != [] && Grows(net, net') && Reached(net', visits, None, hops[0], s, hops[1..], ports[1..], n)
    ensures Reached(net', [Visit(hops[0], hops, s)] + visits, p, here, s, hops, ports, n + 1)
  {
    hide Crossed, Underway, Grows, Path, AllLinked, Expected;
    LinkAndRest(net, net', p, here, s, hops, ports);
    ExpectedOneMore(hops, s, n);
    assert [hops[0]] + hops[1..] == hops;
  }

  /** Transmits for the chain, from Transmits for the chain behind the next host. */
  lemma TransmitsOneMore(net: Net, policy: map<U32, Hops>, p: Option<Hops>, here: U32, s: Session, hops: Hops,
                         ports: seq<(U16, U16)>, handled: nat, net1: Net, net2: Net)
    requires |hops| > 1 && handled > 1 && ports != [] && Path(net, [here] + hops, ports) && net2.Keys == net.Keys
    requires Crossed(net2, here, s, hops, ports) && Unrolls(net, net1, net2, policy, here, s, hops, ports, handled)
    requires Transmits(net2, policy, None, hops[0], s, hops[1..], ports[1..], handled - 2)
    ensures Transmits(net, policy, p, here, s, hops, ports, handled)
  {
    hide Forward, Crossed, Grows, Path, Reached, Syn;
    PathStays(net, net2, [here] + hops, ports);
    ForwardGrows(net2, policy, hops[0], Syn(s), ports[1..], handled - 2);
    var (net', visits) := Forward(net2, policy, hops[0], Syn(s), ports[1..], handled - 2);
    ReachedOneMore(net2, net', visits, p, here, s, hops, ports, (handled - 2) / 2);
    assert handled / 2 == (handled - 2) / 2 + 1;
    assert Transmits(net, policy, p, here, s, hops, ports, handled);
  }

  lemma {:induction false} AnyTransmission(net: Net, policy: map<U32, Hops>, p: Option<Hops>, here: U32, s: Session, hops: Hops,
                                           ports: seq<(U16, U16)>, handled: nat)
    requires Ready(net, policy, p, here, s, hops, ports)
    ensures Transmits(net, policy, p, here, s, hops, ports, handled)
    decreases |hops|
  {
    hide *;
    if handled < 2 || |hops| == 1 {
      TransmitsOneLink(net, policy, p, here, s, hops, ports, handled);
    } else {
      PathIn(net, policy, p, here, s, hops, ports);
      var net1, net2 := OneLink(net, policy, p, here, s, hops, ports, handled);
      RestIsReady(net, net2, policy, p, here, s, hops, ports);
      AnyTransmission(net2, policy, None, hops[0], s, hops[1..], ports[1..], handled - 2);
      TransmitsOneMore(net, policy, p, here, s, hops, ports, handled, net1, net2);
    }
  }

  lemma PathIn(net: Net, policy: map<U32, Hops>, p: Option<Hops>, here: U32, s: Session, hops: Hops, ports: seq<(U16, U16)>)
    requires Ready(net, policy, p, here, s, hops, ports)
    ensures hops != [] && ports != [] && |ports| == |hops| && Path(net, [here] + hops, ports)
  {
  }

  lemma RestIsReady(net: Net, net2: Net, policy: map<U32, Hops>, p: Option<Hops>, here: U32, s: Session, hops: Hops,
                    ports: seq<(U16, U16)>)
    requires |hops| > 1 && ports != [] && Ready(net, policy, p, here, s, hops, ports) && net2.Keys == net.Keys
    requires Crossed(net2, here, s, hops, ports)
    ensures Ready(net2, policy, None, hops[0], s, hops[1..], ports[1..])
  {
    PathBeyond(net, here, hops, ports);
    PathStays(net, net2, hops, ports[1..]);
    hide Underway, Path, Reverse, Sent, Received, PolicyAt;
    assert [hops[0]] + hops[1..] == hops;
  }

  /** A copy of the SYN: the stack of the at-th host sends it on, and it is handled `handled` times until it
      is lost. Several copies on the way at once are such pieces in any order. */
  datatype Copy = Copy(at: nat, handled: nat)

  /** The client may send the SYN at any time, a middlebox once the SYN reached its stack. */
  predicate MaySend(net: Net, nodes: seq<U32>, s: Session, at: nat) {
    at < |nodes| && (at == 0 || (nodes[at] in net && PassesOn(net[nodes[at]], s)))
  }

  function Transmitted(net: Net, policy: map<U32, Hops>, nodes: seq<U32>, s: Session, ports: seq<(U16, U16)>, copies: seq<Copy>)
      : Net
    requires |nodes| == |ports| + 1
  {
    if copies == [] then net
    else
      var before, c := Transmitted(net, policy, nodes, s, ports, copies[..|copies| - 1]), copies[|copies| - 1];
      if MaySend(before, nodes, s, c.at)
      then Forward(before, policy, nodes[c.at], Syn(s), ports[c.at..], c.handled).0 else before
  }

  lemma MiddleboxPassesOn(net: Net, here: U32, s: Session, hops: Hops, ports: seq<(U16, U16)>)
    requires Underway(net, None, here, s, hops, ports)
    ensures here in net && PassesOn(net[here], s)
  {
  }

  /** A middlebox passes the SYN on only when all links before it were crossed. */
  lemma CrossedBefore(net: Net, policy: map<U32, Hops>, p: Option<Hops>, here: U32, s: Session, hops: Hops,
                      ports: seq<(U16, U16)>, at: nat)
    requires Ready(net, policy, p, here, s, hops, ports) && 0 < at <= |hops| && MaySend(net, [here] + hops, s, at)
    ensures |hops| > 1 && ports != [] && Crossed(net, here, s, hops, ports)
    ensures MaySend(net, [hops[0]] + hops[1..], s, at - 1)
  {
    var nodes := [here] + hops;
    PathBeyond(net, here, hops, ports);
    hide Path, Reverse, Sent, Received, Sends;
    if |hops| > 1 && Underway(net, None, hops[0], s, hops[1..], ports[1..]) {
      MiddleboxPassesOn(net, hops[0], s, hops[1..], ports[1..]);
    }
    assert nodes[at] == hops[at - 1] && [hops[0]] + hops[1..] == hops;
    FreshIsSilent(net, nodes, s, ports, at);
    if at > 1 {
      FreshIsSilent(net, hops, s, ports[1..], at - 1);
    }
  }

  lemma FreshIsSilent(net: Net, nodes: seq<U32>, s: Session, ports: seq<(U16, U16)>, i: nat)
    requires 0 < i < |nodes| && nodes[i] in net && PassesOn(net[nodes[i]], s)
    ensures !FreshPath(net, nodes, s, ports)
  {
    var t := net[nodes[i]];
    hide Path, NewLink, Reverse;
    assert FreshPath(net, nodes, s, ports) ==> New(t, s);
  }

  lemma {:induction false} AnyCopy(net: Net, policy: map<U32, Hops>, p: Option<Hops>, here: U32, s: Session, hops: Hops,
                                   ports: seq<(U16, U16)>, c: Copy)
    requires Ready(net, policy, p, here, s, hops, ports) && MaySend(net, [here] + hops, s, c.at)
    ensures |hops| == |ports|
    ensures var net' := Forward(net, policy, ([here] + hops)[c.at], Syn(s), ports[c.at..], c.handled).0;
            net'.Keys == net.Keys && Ready(net', policy, p, here, s, hops, ports)
    decreases |hops|
  {
    assert c.at <= |hops|;
    hide *;
    PathIn(net, policy, p, here, s, hops, ports);
    if c.at == 0 {
      assert ports[0..] == ports;
      AnyTransmission(net, policy, p, here, s, hops, ports, c.handled);
      ReadyAgain(net, policy, p, here, s, hops, ports, c.handled);
    } else {
      CrossedBefore(net, policy, p, here, s, hops, ports, c.at);
      RestIsReady(net, net, policy, p, here, s, hops, ports);
      AnyCopy(net, policy, None, hops[0], s, hops[1..], ports[1..], Copy(c.at - 1, c.handled));
      assert [hops[0]] + hops[1..] == hops && ports[1..][c.at - 1..] == ports[c.at..];
      assert ([here] + hops)[c.at] == hops[c.at - 1];
      ForwardGrows(net, policy, hops[c.at - 1], Syn(s), ports[c.at..], c.handled);
      RestReadyAgain(net, Forward(net, policy, hops[c.at - 1], Syn(s), ports[c.at..], c.handled).0, policy, p, here, s, hops, ports);
    }
  }

  lemma ReadyAgain(net: Net, policy: map<U32, Hops>, p: Option<Hops>, here: U32, s: Session, hops: Hops,
                   ports: seq<(U16, U16)>, handled: nat)
    requires Ready(net, policy, p, here, s, hops, ports) && Transmits(net, policy, p, here, s, hops, ports, handled)
    ensures var net' := Forward(net, policy, here, Syn(s), ports, handled).0;
            net'.Keys == net.Keys && Ready(net', policy, p, here, s, hops, ports)
  {
    hide Forward, Underway, Path, Reverse, AllLinked, PolicyAt;
    PathStays(net, Forward(net, policy, here, Syn(s), ports, handled).0, [here] + hops, ports);
  }

  lemma RestReadyAgain(net: Net, net': Net, policy: map<U32, Hops>, p: Option<Hops>, here: U32, s: Session, hops: Hops,
                       ports: seq<(U16, U16)>)
    requires |hops| > 1 && ports != [] && Ready(net, policy, p, here, s, hops, ports) && Crossed(net, here, s, hops, ports)
    requires Grows(net, net') && net'.Keys == net.Keys && Ready(net', policy, None, hops[0], s, hops[1..], ports[1..])
    ensures Ready(net', policy, p, here, s, hops, ports)
  {
    hide Crossed, Underway, Path, Reverse, PolicyAt, Grows;
    CrossedStays(net, net', here, s, hops, ports);
    CrossedIsUnderway(net', p, here, s, hops, ports);
    PathStays(net, net', [here] + hops, ports);
  }

  lemma {:induction false} CopiesLeaveReady(net: Net, policy: map<U32, Hops>, here: U32, s: Session, hops: Hops,
                                            ports: seq<(U16, U16)>, copies: seq<Copy>)
    requires hops != [] && s != Reverse(s) && here in net && FreshPath(net, [here] + hops, s, ports)
    requires Sends(net[here], PolicyAt(policy, here), s, hops)
    ensures Ready(Transmitted(net, policy, [here] + hops, s, ports, copies), policy, PolicyAt(policy, here), here, s, hops, ports)
  {
    if copies == [] {
      PathBeyond(net, here, hops, ports);
    } else {
      hide Forward, Underway, FreshPath, Path, Sends, PolicyAt, Reverse, MaySend, Ready;
      CopiesLeaveReady(net, policy, here, s, hops, ports, copies[..|copies| - 1]);
      var before := Transmitted(net, policy, [here] + hops, s, ports, copies[..|copies| - 1]);
      if MaySend(before, [here] + hops, s, copies[|copies| - 1].at) {
        AnyCopy(before, policy, PolicyAt(policy, here), here, s, hops, ports, copies[|copies| - 1]);
      }
    }
  }

  /** For a chain of any length the SYN visits the hops in the order of the policy, however many earlier
      copies were sent, wherever they were lost or even delivered, and however they overtook each other.
      Every hop reads the chain from itself on, every stack sees the original session, and afterwards all
      neighbours are linked. */
  lemma SynVisitsHopsInOrder(net: Net, policy: map<U32, Hops>, here: U32, s: Session, hops: Hops, ports: seq<(U16, U16)>,
                             copies: seq<Copy>, handled: nat)
    requires hops != [] && s != Reverse(s) && here in net && FreshPath(net, [here] + hops, s, ports)
    requires Sends(net[here], PolicyAt(policy, here), s, hops) && handled >= 2 * |hops|
    ensures var net1 := Transmitted(net, policy, [here] + hops, s, ports, copies);
            var (net', visits) := Forward(net1, policy, here, Syn(s), ports, handled);
            visits == Expected(hops, s) && AllLinked(net', [here] + hops, s, ports)
  {
    CopiesLeaveReady(net, policy, here, s, hops, ports, copies);
    var net1 := Transmitted(net, policy, [here] + hops, s, ports, copies);
    AnyTransmission(net1, policy, PolicyAt(policy, here), here, s, hops, ports, handled);
    hide Forward, AllLinked, FreshPath, Sends, Underway, Path, Reverse;
    assert handled / 2 >= |hops|;
  }

  // ----- later packets

  /** One link for a packet after the SYN: where it goes, and what the stack there sees. The tables of
      the two hosts stay as they are. */
  ghost predicate Carries(net: Net, here: U32, there: U32, seg: Segment) {
    && here in net && there in net
    && forall policy, ports ::
         var (t, sent) := Output(net[here], policy, here, ports, seg);
         && t == net[here] && sent.ss.dip == there
         && Readable(net[there], sent) && Input(net[there], sent) == (net[there], seg)
  }

  /** Everything but an initial SYN crosses a link unchanged, from either end. */
  lemma LinkCarries(net: Net, a: U32, b: U32, s: Session, sub: Session, seg: Segment)
    requires Linked(net, a, b, s, sub) && sub.sip == a && sub.dip == b && !(seg.syn && !seg.ack)
    ensures seg.ss == s ==> Carries(net, a, b, seg)
    ensures seg.ss == Reverse(s) ==> Carries(net, b, a, seg)
  {
    hide EncodeSc, FromDysco;
    if seg.ss == s {
      forall policy, ports
        ensures var (t, sent) := Output(net[a], policy, a, ports, seg);
                && t == net[a] && sent.ss.dip == b
                && Readable(net[b], sent) && Input(net[b], sent) == (net[b], seg)
      {
      }
    }
    if seg.ss == Reverse(s) {
      forall policy, ports
        ensures var (t, sent) := Output(net[b], policy, b, ports, seg);
                && t == net[b] && sent.ss.dip == a
                && Readable(net[a], sent) && Input(net[a], sent) == (net[a], seg)
      {
      }
    }
  }

  /** Once the SYN went through, every packet of the session crosses every link of the chain, hop by hop
      from the client and back from the server, and every stack sees the original session. */
  lemma ChainCarriesBothWays(net: Net, nodes: seq<U32>, s: Session, ports: seq<(U16, U16)>, seg: Segment, i: nat)
    requires AllLinked(net, nodes, s, ports) && i < |ports| && !(seg.syn && !seg.ack)
    ensures seg.ss == s ==> Carries(net, nodes[i], nodes[i + 1], seg)
    ensures seg.ss == Reverse(s) ==> Carries(net, nodes[i + 1], nodes[i], seg)
  {
    hide Linked, Carries;
    LinkCarries(net, nodes[i], nodes[i + 1], s, Link(nodes, ports, i), seg);
  }
}
