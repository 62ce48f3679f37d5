/**
 * What every interleaving of the pool keeps: each port that Neutron lists is
 * in exactly one place, and tokens plus places are conserved.
 */
module PoolInvariant {
  import opened PoolTypes
  import opened PoolSteps
  import Heap

  // ----- where the ports are -----

  function One(same: bool): (r: nat) {
    if same then 1 else 0
  }

  function CountIdle(q: seq<Item>, id: string): (r: nat) {
    if q == [] then 0
    else CountIdle(q[..|q| - 1], id) + One(q[|q| - 1].port.id == id)
  }

  /** The port a caller is about to add to the pool. */
  function PcPort(pc: Pc): (r: Option<Port>) {
    match pc
    case Made(p) => Some(p)
    case StaticAdd(p) => Some(p)
    case _ => None
  }

  /** The port the ticker is disposing of or about to add to the pool. */
  function TickerPort(k: Ticker): (r: Option<Port>) {
    match k
    case Disposing(p, _) => Some(p)
    case PutBack(p, _) => Some(p)
    case FillMade(p, _) => Some(p)
    case _ => None
  }

  function CountOpt(p: Option<Port>, id: string): (r: nat) {
    One(p.Some? && p.value.id == id)
  }

  function CountProcs(procs: seq<Pc>, id: string): (r: nat) {
    if procs == [] then 0
    else CountProcs(procs[..|procs| - 1], id) + CountOpt(PcPort(procs[|procs| - 1]), id)
  }

  /** In how many places the id is: idle, in use, about to be added, being disposed of. */
  function Places(s: St, id: string): (r: nat) {
    CountIdle(s.idle, id) + One(id in s.inuse) + CountProcs(s.procs, id) + CountOpt(TickerPort(s.ticker), id)
  }

  // ----- who holds a token -----

  function PcTokens(pc: Pc): (r: nat) {
    if pc.Creating? || pc.Made? || pc.Refund? then 1 else 0
  }

  function TickerTokens(k: Ticker): (r: nat) {
    match k
    case Disposing(_, _) => 1
    case Disposed(_) => 1
    case PutBack(_, _) => 1
    case Collect(_, got) => got
    case Fill(more) => more + 1
    case FillMade(_, more) => more + 1
    case FillReturn(more) => more + 1
    case _ => 0
  }

  function ProcTokens(procs: seq<Pc>): (r: nat) {
    if procs == [] then 0
    else ProcTokens(procs[..|procs| - 1]) + PcTokens(procs[|procs| - 1])
  }

  /** Creates and disposes in flight, each worth one token. */
  function InFlight(s: St): (r: nat) {
    ProcTokens(s.procs) + TickerTokens(s.ticker)
  }

  function Total(s: St): (r: nat) {
    s.tokens + |s.idle| + |s.inuse| + InFlight(s)
  }

  // ----- the invariant -----

  predicate Known(cloud: map<string, Port>, p: Port) {
    p.id in cloud && cloud[p.id] == p
  }

  /** Each listed port is in exactly one place, nothing else is anywhere. */
  ghost predicate Placed(s: St) {
    forall id: string :: Places(s, id) == One(id in s.cloud)
  }

  ghost predicate Genuine(s: St) {
    && (forall x | x in s.idle :: Known(s.cloud, x.port))
    && (forall k | k in s.inuse :: s.inuse[k].id == k && Known(s.cloud, s.inuse[k]))
    && (forall t | 0 <= t < |s.procs| && PcPort(s.procs[t]).Some? :: Known(s.cloud, PcPort(s.procs[t]).value))
    && (TickerPort(s.ticker).Some? ==> Known(s.cloud, TickerPort(s.ticker).value))
    && "" !in s.cloud && forall k | k in s.cloud :: s.cloud[k].id == k
  }

  ghost predicate Conserved(s: St) {
    Total(s) == Max(s.cfg.capacity, s.loaded) + s.statics
  }

  ghost predicate Inv(s: St) {
    Placed(s) && Genuine(s) && Conserved(s)
  }

  // ----- counts and sums over sequences -----

  lemma CountAppend(q: seq<Item>, x: Item, id: string)
    ensures CountIdle(q + [x], id) == CountIdle(q, id) + One(x.port.id == id)
  {
    assert (q + [x])[..|q|] == q;
  }

  lemma {:induction false} CountSplit(a: seq<Item>, x: Item, b: seq<Item>, id: string)
    ensures CountIdle(a + [x] + b, id) == CountIdle(a + b, id) + One(x.port.id == id)
  {
    if b == [] {
      assert a + [x] + b == a + [x] && a + b == a;
      CountAppend(a, x, id);
    } else {
      var n := |b| - 1;
      CountSplit(a, x, b[..n], id);
      CountAppend(a + [x] + b[..n], b[n], id);
      CountAppend(a + b[..n], b[n], id);
      assert a + [x] + b == a + [x] + b[..n] + [b[n]];
      assert a + b == a + b[..n] + [b[n]];
    }
  }

  lemma {:induction false} CountPermute(a: seq<Item>, b: seq<Item>, id: string)
    requires multiset(a) == multiset(b)
    ensures CountIdle(a, id) == CountIdle(b, id)
  {
    if a == [] {
      assert |multiset(b)| == 0;
    } else {
      var n := |a| - 1;
      var x := a[n];
      assert x in multiset(b);
      var k :| 0 <= k < |b| && b[k] == x;
      var c := b[..k] + b[k + 1..];
      assert a == a[..n] + [x];
      assert b == b[..k] + [x] + b[k + 1..];
      assert multiset(b) == multiset(c) + multiset{x};
      assert multiset(a) == multiset(a[..n]) + multiset{x};
      assert multiset(a[..n]) == multiset(a) - multiset{x} == multiset(c);
      CountPermute(a[..n], c, id);
      CountSplit(b[..k], x, b[k + 1..], id);
    }
  }

  lemma SameMembers(a: seq<Item>, b: seq<Item>)
    requires multiset(a) == multiset(b)
    ensures forall y :: y in a <==> y in b
  {
    forall y: Item
      ensures y in a <==> y in b
    {
      assert y in a <==> y in multiset(a);
      assert y in b <==> y in multiset(b);
    }
  }

  lemma PushCount(q: seq<Item>, x: Item)
    ensures forall id :: CountIdle(Heap.Push(q, x), id) == CountIdle(q, id) + One(x.port.id == id)
    ensures forall y :: y in Heap.Push(q, x) <==> y == x || y in q
  {
    var r := Heap.Push(q, x);
    assert multiset(q + [x]) == multiset(r);
    forall id
      ensures CountIdle(r, id) == CountIdle(q, id) + One(x.port.id == id)
    {
      CountPermute(r, q + [x], id);
      CountAppend(q, x, id);
    }
    SameMembers(r, q + [x]);
  }

  lemma PushHas(q: seq<Item>, x: Item)
    ensures x in Heap.Push(q, x)
  {
    assert x in multiset(Heap.Push(q, x));
  }

  lemma RobCount(q: seq<Item>, i: nat)
    requires i < |q|
    ensures forall id :: CountIdle(Heap.RobAt(q, i), id) + One(q[i].port.id == id) == CountIdle(q, id)
    ensures forall y | y in Heap.RobAt(q, i) :: y in q
    ensures forall y | y in q && y != q[i] :: y in Heap.RobAt(q, i)
  {
    var r := Heap.RobAt(q, i);
    assert q[i] in q;
    assert multiset(r + [q[i]]) == multiset(q);
    forall id
      ensures CountIdle(r, id) + One(q[i].port.id == id) == CountIdle(q, id)
    {
      CountPermute(r + [q[i]], q, id);
      CountAppend(r, q[i], id);
    }
    SameMembers(r + [q[i]], q);
  }

  /** getOneLocked takes exactly one item out of the queue. */
  lemma GetOneTakesOne(q: seq<Item>, prefer: string)
    requires q != []
    ensures var (x, r) := GetOne(q, prefer);
            && x in q && |r| == |q| - 1
            && (forall id :: CountIdle(r, id) + One(x.port.id == id) == CountIdle(q, id))
            && (forall y | y in r :: y in q)
            && (forall y | y in q && y != x :: y in r)
  {
    var i := Heap.IndexOf(q, prefer);
    if prefer != "" && i < |q| {
      RobCount(q, i);
    } else {
      RobCount(q, 0);
    }
  }

  lemma {:induction false} ProcCountUpdate(procs: seq<Pc>, t: nat, pc: Pc, id: string)
    requires t < |procs|
    ensures CountProcs(procs[t := pc], id) + CountOpt(PcPort(procs[t]), id)
            == CountProcs(procs, id) + CountOpt(PcPort(pc), id)
  {
    var n := |procs| - 1;
    var u := procs[t := pc];
    if t == n {
      assert u[..n] == procs[..n];
    } else {
      ProcCountUpdate(procs[..n], t, pc, id);
      assert u[..n] == procs[..n][t := pc];
    }
  }

  lemma {:induction false} ProcTokensUpdate(procs: seq<Pc>, t: nat, pc: Pc)
    requires t < |procs|
    ensures ProcTokens(procs[t := pc]) + PcTokens(procs[t]) == ProcTokens(procs) + PcTokens(pc)
  {
    var n := |procs| - 1;
    var u := procs[t := pc];
    if t == n {
      assert u[..n] == procs[..n];
    } else {
      ProcTokensUpdate(procs[..n], t, pc);
      assert u[..n] == procs[..n][t := pc];
    }
  }

  lemma ProcAppend(procs: seq<Pc>, pc: Pc)
    ensures forall id :: CountProcs(procs + [pc], id) == CountProcs(procs, id) + CountOpt(PcPort(pc), id)
    ensures ProcTokens(procs + [pc]) == ProcTokens(procs) + PcTokens(pc)
  {
    assert (procs + [pc])[..|procs|] == procs;
  }

  lemma {:induction false} ProcCountHas(procs: seq<Pc>, t: nat)
    requires t < |procs| && PcPort(procs[t]).Some?
    ensures CountProcs(procs, PcPort(procs[t]).value.id) > 0
  {
    if t < |procs| - 1 {
      ProcCountHas(procs[..|procs| - 1], t);
    }
  }

  lemma {:induction false} CountHas(q: seq<Item>, id: string)
    ensures CountIdle(q, id) > 0 <==> exists x :: x in q && x.port.id == id
  {
    if q != [] {
      var n := |q| - 1;
      CountHas(q[..n], id);
      assert q == q[..n] + [q[n]];
      assert q[n] in q;
    }
  }

  lemma MapRemove(m: map<string, Port>, id: string)
    requires id in m
    ensures |m - {id}| + 1 == |m|
  {
    assert (m - {id}).Keys == m.Keys - {id};
    assert |m| == |m.Keys| && |m - {id}| == |(m - {id}).Keys|;
  }
}
