/** Port pairs of sub-sessions: a global 32-bit counter whose upper half is the next neighbour port and
    whose lower half is the next local port. */
module Ports {
  import opened Serial
  import opened Sessions

  /** Local ports 65535 down to 10001 are used once for every neighbour port. */
  const ROUND: int := 55535

  /** The counter after n local allocations. */
  function CounterAfter(n: nat): int {
    (10000 - n / ROUND) * 0x1_0000 + 65535 - n % ROUND
  }

  /** The neighbour port has not run out. */
  predicate Lasts(n: nat) {
    (n + 1) / ROUND <= 8000
  }

  /** The pair that starts with the n-th local port, when `between` other local ports are taken before
      its neighbour port is read. */
  function LocalPort(n: nat): int {
    65535 - n % ROUND
  }

  function NeighborPort(n: nat, between: nat): int {
    10000 - (n + 1 + between) / ROUND
  }

  // ----- calls in any order

  /** The two functions each hold the lock for themselves, so calls of several sessions interleave. */
  datatype Call = TakeLocal | ReadNeighbor

  function Locals(calls: seq<Call>): nat {
    if calls == [] then 0
    else Locals(calls[..|calls| - 1]) + if calls[|calls| - 1].TakeLocal? then 1 else 0
  }

  /** What the k-th of the calls returns after `taken` local ports were taken before all of them. */
  function Served(taken: nat, calls: seq<Call>, k: nat): int
    requires k < |calls|
  {
    var n := taken + Locals(calls[..k]);
    if calls[k].TakeLocal? then LocalPort(n) else 10000 - n / ROUND
  }

  lemma {:induction false} LocalsTogether(a: seq<Call>, b: seq<Call>)
    ensures Locals(a + b) == Locals(a) + Locals(b)
  {
    if b == [] {
      assert a + b == a;
    } else {
      assert (a + b)[..|a + b| - 1] == a + b[..|b| - 1];
      LocalsTogether(a, b[..|b| - 1]);
    }
  }

  lemma LocalsUpTo(calls: seq<Call>, k: nat)
    requires k < |calls|
    ensures Locals(calls[..k + 1]) == Locals(calls[..k]) + if calls[k].TakeLocal? then 1 else 0
    ensures Locals(calls[..k + 1]) <= Locals(calls)
  {
    assert calls[..k + 1][..k] == calls[..k];
    LocalsTogether(calls[..k + 1], calls[k + 1..]);
    assert calls[..k + 1] + calls[k + 1..] == calls;
  }

  /** Halves taken by calls i and j make the pair of the closed form, whatever comes in between. */
  lemma SplitPairServed(taken: nat, calls: seq<Call>, i: nat, j: nat)
    requires i < j < |calls| && calls[i].TakeLocal? && calls[j].ReadNeighbor?
    ensures var n, between := taken + Locals(calls[..i]), Locals(calls[i + 1..j]);
            Served(taken, calls, i) == LocalPort(n) && Served(taken, calls, j) == NeighborPort(n, between)
  {
    LocalsUpTo(calls, i);
    LocalsTogether(calls[..i + 1], calls[i + 1..j]);
    assert calls[..i + 1] + calls[i + 1..j] == calls[..j];
  }

  class PortAllocator {
    var allocPorts: U32
    ghost var taken: nat

    ghost predicate Valid()
      reads this
    {
      taken / ROUND <= 8000 && allocPorts == CounterAfter(taken)
    }

    constructor ()
      ensures Valid() && taken == 0
    {
      allocPorts := 0x2710_ffff;
      taken := 0;
    }

    method AllocateNeighborPort() returns (rport: U16)
      requires Valid()
      ensures rport == 10000 - taken / ROUND && 2000 <= rport <= 10000
    {
      UpperHalf(taken);
      rport := allocPorts / 0x1_0000;
    }

    method AllocateLocalPort() returns (lport: U16)
      requires Valid() && Lasts(taken)
      modifies this
      ensures Valid() && taken == old(taken) + 1
      ensures lport == LocalPort(old(taken)) && 10001 <= lport
    {
      NextRound(taken);
      UpperHalf(taken);
      lport := allocPorts % 0x1_0000;
      allocPorts := allocPorts - 1;
      if lport == 10001 {
        allocPorts := allocPorts - 10001;
      }
      taken := taken + 1;
    }

    /** Any interleaving of calls, one lock hold each. */
    method Serve(calls: seq<Call>) returns (ports: seq<U16>)
      requires Valid() && (taken + Locals(calls)) / ROUND <= 8000
      modifies this
      ensures Valid() && taken == old(taken) + Locals(calls)
      ensures |ports| == |calls| && forall k :: 0 <= k < |calls| ==> ports[k] == Served(old(taken), calls, k)
    {
      ports := [];
      for i := 0 to |calls|
        invariant Valid() && taken == old(taken) + Locals(calls[..i])
        invariant |ports| == i && forall k :: 0 <= k < i ==> ports[k] == Served(old(taken), calls, k)
      {
        LocalsUpTo(calls, i);
        var port;
        if calls[i].TakeLocal? {
          Ordered(taken + 1, old(taken) + Locals(calls));
          port := AllocateLocalPort();
        } else {
          port := AllocateNeighborPort();
        }
        ports := ports + [port];
      }
      assert calls[..|calls|] == calls;
    }

    /** The two calls in a row, as the output path makes them. */
    method AllocatePair() returns (sport: U16, dport: U16)
      requires Valid() && Lasts(taken)
      modifies this
      ensures Valid() && taken == old(taken) + 1
      ensures sport == LocalPort(old(taken)) && dport == NeighborPort(old(taken), 0)
      ensures dport <= 10000 < sport && 2000 <= dport
    {
      sport := AllocateLocalPort();
      dport := AllocateNeighborPort();
    }
  }

  lemma UpperHalf(n: nat)
    requires n / ROUND <= 8000
    ensures 0 <= CounterAfter(n) < 0x1_0000_0000
    ensures CounterAfter(n) / 0x1_0000 == 10000 - n / ROUND && CounterAfter(n) % 0x1_0000 == 65535 - n % ROUND
  {
    Halves(10000 - n / ROUND, 65535 - n % ROUND);
  }

  lemma Halves(hi: int, lo: int)
    requires 0 <= hi < 0x1_0000 && 0 <= lo < 0x1_0000
    ensures (hi * 0x1_0000 + lo) / 0x1_0000 == hi && (hi * 0x1_0000 + lo) % 0x1_0000 == lo
  {
  }

  /** The rounds advance together with the remainder. */
  lemma NextRound(n: nat)
    ensures n % ROUND == ROUND - 1 ==> (n + 1) / ROUND == n / ROUND + 1 && (n + 1) % ROUND == 0
    ensures n % ROUND < ROUND - 1 ==> (n + 1) / ROUND == n / ROUND && (n + 1) % ROUND == n % ROUND + 1
  {
  }

  /** No pair repeats as long as the neighbour port lasts. */
  lemma PairsDiffer(n: nat, m: nat)
    requires n != m
    ensures LocalPort(n) != LocalPort(m) || NeighborPort(n, 0) != NeighborPort(m, 0)
  {
    NextRound(n);
    NextRound(m);
    var a, b := n / ROUND, m / ROUND;
    assert n == a * ROUND + n % ROUND && m == b * ROUND + m % ROUND;
  }

  lemma Ordered(n: nat, m: nat)
    requires n <= m
    ensures n / ROUND <= m / ROUND
  {
  }

  predicate SamePair(n: nat, between: nat, m: nat, between': nat) {
    LocalPort(n) == LocalPort(m) && NeighborPort(n, between) == NeighborPort(m, between')
  }

  /** How many rounds end between taking the local port and reading the neighbour port. */
  function Crossed(n: nat, between: nat): nat {
    ((n + 1) % ROUND + between) / ROUND
  }

  /** Two pairs whose halves were taken apart are equal exactly when they are whole rounds apart and the
      rounds that ended inside them make up for these. */
  lemma SplitPairsCollideExactlyWhen(n: nat, between: nat, m: nat, between': nat)
    requires Lasts(n + between) && Lasts(m + between')
    ensures SamePair(n, between, m, between')
            <==> (m - n) % ROUND == 0 && (m - n) / ROUND == Crossed(n, between) - Crossed(m, between')
  {
    NeighborByRounds(n, between);
    NeighborByRounds(m, between');
    SameRemainder(n, m);
    if LocalPort(n) == LocalPort(m) {
      SameRemainder(n + 1, m + 1);
      NextRound(n);
      NextRound(m);
    }
  }

  lemma NeighborByRounds(n: nat, between: nat)
    ensures NeighborPort(n, between) == 10000 - (n + 1) / ROUND - Crossed(n, between)
  {
    var q, r := (n + 1) / ROUND, (n + 1) % ROUND;
    assert n + 1 == q * ROUND + r;
    ManyRounds((r + between) % ROUND + (r + between) / ROUND * ROUND, q, (r + between) % ROUND, (r + between) / ROUND);
  }

  lemma SameRemainder(n: nat, m: nat)
    ensures n % ROUND == m % ROUND <==> (m - n) % ROUND == 0
    ensures n % ROUND == m % ROUND ==> (m - n) / ROUND == m / ROUND - n / ROUND
  {
    var d := m / ROUND - n / ROUND;
    assert m - n == d * ROUND + (m % ROUND - n % ROUND);
    Quotient(m - n, d, m % ROUND - n % ROUND);
  }

  lemma Quotient(x: int, q: int, r: int)
    requires x == q * ROUND + r && -ROUND < r < ROUND
    ensures x % ROUND == 0 <==> r == 0
    ensures r == 0 ==> x / ROUND == q
  {
  }

  lemma ManyRounds(n: nat, rounds: nat, r: nat, q: int)
    requires n == q * ROUND + r && r < ROUND
    ensures (n + rounds * ROUND) / ROUND == q + rounds && (n + rounds * ROUND) % ROUND == r
  {
  }

  /** The same for any two pairs of one interleaving of calls: no two sessions get the same pair, unless
      rounds end between the halves of one of them. */
  lemma ServedPairsCollideExactlyWhen(taken: nat, calls: seq<Call>, i: nat, j: nat, i': nat, j': nat)
    requires (taken + Locals(calls)) / ROUND <= 8000
    requires i < j < |calls| && calls[i].TakeLocal? && calls[j].ReadNeighbor?
    requires i' < j' < |calls| && calls[i'].TakeLocal? && calls[j'].ReadNeighbor?
    ensures var n, m := taken + Locals(calls[..i]), taken + Locals(calls[..i']);
            Served(taken, calls, i) == Served(taken, calls, i') && Served(taken, calls, j) == Served(taken, calls, j')
            <==> (m - n) % ROUND == 0
                 && (m - n) / ROUND == Crossed(n, Locals(calls[i + 1..j])) - Crossed(m, Locals(calls[i' + 1..j']))
  {
    SplitPairServed(taken, calls, i, j);
    SplitPairServed(taken, calls, i', j');
    SplitLasts(taken, calls, i, j);
    SplitLasts(taken, calls, i', j');
    SplitPairsCollideExactlyWhen(taken + Locals(calls[..i]), Locals(calls[i + 1..j]),
                                 taken + Locals(calls[..i']), Locals(calls[i' + 1..j']));
  }

  lemma SplitLasts(taken: nat, calls: seq<Call>, i: nat, j: nat)
    requires (taken + Locals(calls)) / ROUND <= 8000
    requires i < j < |calls| && calls[i].TakeLocal?
    ensures Lasts(taken + Locals(calls[..i]) + Locals(calls[i + 1..j]))
  {
    LocalsUpTo(calls, i);
    LocalsTogether(calls[..i + 1], calls[i + 1..j]);
    assert calls[..i + 1] + calls[i + 1..j] == calls[..j];
    LocalsUpTo(calls, j);
    Ordered(taken + Locals(calls[..j]), taken + Locals(calls));
  }

  /** A split pair is taken again, by a later session that nobody disturbs, exactly when the other
      allocations in between reach the end of the round. */
  lemma SplitPairRepeatsExactlyWhen(n: nat, between: nat)
    requires Lasts(n + between)
    ensures (exists m: nat :: m != n && Lasts(m) && SamePair(n, between, m, 0)) <==> (n + 1) % ROUND + between >= ROUND
  {
    var k := Crossed(n, between);
    assert k >= 1 <==> (n + 1) % ROUND + between >= ROUND;
    forall m: nat | m != n && Lasts(m) && SamePair(n, between, m, 0)
      ensures k >= 1
    {
      SplitPairsCollideExactlyWhen(n, between, m, 0);
      assert Crossed(m, 0) == 0;
    }
    if k >= 1 {
      var m := n + k * ROUND;
      ManyRounds(n, k, n % ROUND, n / ROUND);
      ManyRounds(n + 1, k, (n + 1) % ROUND, (n + 1) / ROUND);
      NeighborByRounds(n, between);
      assert m != n && Lasts(m);
      assert SamePair(n, between, m, 0);
    }
  }

  /** It takes one allocation in between: a run of the allocator in which another session comes between
      the halves of one pair and an undisturbed session gets the same pair a round later. */
  method OneInBetweenCollides() returns (first: (U16, U16), second: (U16, U16))
    ensures first == second
  {
    var a := new PortAllocator();
    TakePairs(a, 55533);
    var lport := a.AllocateLocalPort();
    TakePairs(a, 1);
    var rport := a.AllocateNeighborPort();
    first := (lport, rport);
    TakePairs(a, 55533);
    var sport, dport := a.AllocatePair();
    second := (sport, dport);
  }

  method TakePairs(a: PortAllocator, count: nat)
    requires a.Valid() && (a.taken + count) / ROUND <= 8000
    modifies a
    ensures a.Valid() && a.taken == old(a.taken) + count
  {
    for i := 0 to count
      invariant a.Valid() && a.taken == old(a.taken) + i
    {
      Ordered(a.taken + 1, old(a.taken) + count);
      var sport, dport := a.AllocatePair();
    }
  }

  // ----- the input tables of two hosts

  /** A sub-session that `from` opened to `to` with its n-th pair. */
  function Sub(from: U32, to: U32, n: nat): Session
    requires Lasts(n)
  {
    NextRound(n);
    Session(from, to, LocalPort(n), NeighborPort(n, 0))
  }

  /** Who opened a sub-session between a host and its neighbour, and with which of its pairs. */
  datatype Opened = ByHost(n: nat) | ByNeighbor(n: nat)

  /** The key under which the host's input table has it: packets come from the neighbour. */
  function InputKey(host: U32, neighbor: U32, o: Opened): Session
    requires Lasts(o.n)
  {
    match o
    case ByHost(n) => Reverse(Sub(host, neighbor, n))
    case ByNeighbor(n) => Sub(neighbor, host, n)
  }

  /** Keys are distinct, whichever end of the pair of hosts opened the sub-session. */
  lemma InputKeysDiffer(host: U32, neighbor: U32, o: Opened, o': Opened)
    requires Lasts(o.n) && Lasts(o'.n) && o != o'
    ensures InputKey(host, neighbor, o) != InputKey(host, neighbor, o')
  {
    if o.n != o'.n {
      PairsDiffer(o.n, o'.n);
    }
    NextRound(o.n);
    NextRound(o'.n);
  }

  /** The input table of a host after the given sub-sessions were opened, in this order. */
  function Table(host: U32, neighbor: U32, subs: seq<Opened>, supers: Opened -> Session): map<Session, Session>
    requires forall o :: o in subs ==> Lasts(o.n)
  {
    if subs == [] then map[]
    else
      var last := subs[|subs| - 1];
      Table(host, neighbor, subs[..|subs| - 1], supers)[InputKey(host, neighbor, last) := supers(last)]
  }

  /** Lookup finds the original session of every sub-session ever opened between the two hosts. */
  lemma {:induction false} LookupRecovers(host: U32, neighbor: U32, subs: seq<Opened>, supers: Opened -> Session, o: Opened)
    requires forall o :: o in subs ==> Lasts(o.n)
    requires o in subs
    ensures var table := Table(host, neighbor, subs, supers);
            InputKey(host, neighbor, o) in table && table[InputKey(host, neighbor, o)] == supers(o)
  {
    var last := subs[|subs| - 1];
    if o != last {
      InputKeysDiffer(host, neighbor, o, last);
      assert o in subs[..|subs| - 1];
      LookupRecovers(host, neighbor, subs[..|subs| - 1], supers, o);
    }
  }
}
