/** How a pool is filled before it serves anybody, and that it then satisfies `Started`. */
module Startup {
  import opened PoolTypes
  import opened PoolSteps
  import opened PoolInvariant
  import opened Environments
  import PoolSafety
  import PoolTheorems
  import Heap

  /** The ports seen so far, split into used ones (named by a record) and idle ones. */
  ghost predicate SplitPart(q: seq<Item>, inuse: map<string, Port>, named: set<string>, seen: seq<Port>) {
    && |q| + |inuse| == |seen|
    && (forall x | x in q :: x.port in seen && x.port.id !in named)
    && (forall id | id in inuse :: inuse[id].id == id && inuse[id] in seen && id in named)
    && (forall p | p in seen && p.id in named :: p.id in inuse)
    && (forall p | p in seen && p.id !in named :: CountIdle(q, p.id) == 1)
  }

  /** Every port of the cloud is in use if it is named, idle if not, and in no second place. */
  ghost predicate Split(q: seq<Item>, inuse: map<string, Port>, named: set<string>, cloud: map<string, Port>) {
    && inuse.Keys == cloud.Keys * named
    && (forall id :: CountIdle(q, id) == One(id in cloud && id !in named))
    && (forall id | id in inuse :: inuse[id].id == id && Known(cloud, inuse[id]))
    && (forall x | x in q :: Known(cloud, x.port))
  }

  lemma SplitNothing(named: set<string>)
    ensures SplitPart([], map[], named, []) && Heap.IsHeap([])
  {
  }

  lemma NotListedBefore(ports: seq<Port>, cloud: map<string, Port>, i: nat)
    requires Lists(ports, cloud) && i < |ports|
    ensures forall o | o in ports[..i] :: o.id != ports[i].id
  {
  }

  lemma SplitAddIdle(q: seq<Item>, inuse: map<string, Port>, named: set<string>, seen: seq<Port>, p: Port, now: int)
    requires SplitPart(q, inuse, named, seen) && p.id !in named
    requires forall o | o in seen :: o.id != p.id
    ensures SplitPart(Heap.Push(q, Item(p, now)), inuse, named, seen + [p])
  {
    PushCount(q, Item(p, now));
    CountHas(q, p.id);
    assert CountIdle(q, p.id) == 0;
  }

  lemma SplitAddInuse(q: seq<Item>, inuse: map<string, Port>, named: set<string>, seen: seq<Port>, p: Port)
    requires SplitPart(q, inuse, named, seen) && p.id in named
    requires forall o | o in seen :: o.id != p.id
    ensures SplitPart(q, inuse[p.id := p], named, seen + [p])
  {
    assert p.id !in inuse;
  }

  lemma SplitWhole(q: seq<Item>, inuse: map<string, Port>, named: set<string>, ports: seq<Port>, cloud: map<string, Port>)
    requires SplitPart(q, inuse, named, ports) && Lists(ports, cloud)
    ensures Split(q, inuse, named, cloud) && |q| + |inuse| == |ports|
  {
    forall id
      ensures CountIdle(q, id) == One(id in cloud && id !in named)
      ensures id in inuse <==> id in cloud && id in named
    {
      CountHas(q, id);
      if id in cloud {
        var i :| 0 <= i < |ports| && ports[i].id == id;
        assert ports[i] in ports;
      }
    }
  }

  lemma SplitIsPlaced(s: St, named: set<string>)
    requires Split(s.idle, s.inuse, named, s.cloud) && s.procs == [] && s.ticker == Check(false) && "" !in s.cloud
    requires forall k | k in s.cloud :: s.cloud[k].id == k
    ensures Placed(s) && Genuine(s)
  {
    forall id
      ensures Places(s, id) == One(id in s.cloud)
    {
      assert CountIdle(s.idle, id) == One(id in s.cloud && id !in named);
    }
  }

  lemma SplitInuse(q: seq<Item>, inuse: map<string, Port>, named: set<string>, cloud: map<string, Port>)
    requires Split(q, inuse, named, cloud)
    ensures inuse.Keys == cloud.Keys * named && |inuse| <= |cloud|
  {
    Smaller(inuse.Keys, cloud.Keys);
    assert |inuse| == |inuse.Keys| && |cloud| == |cloud.Keys|;
  }

  lemma {:induction false} Smaller(a: set<string>, b: set<string>)
    requires a <= b
    ensures |a| <= |b|
  {
    assert b == a + (b - a);
    assert |b| == |a| + |b - a|;
  }

  ghost predicate IdleUnlessNamed(q: seq<Item>, named: set<string>, cloud: map<string, Port>) {
    forall k | k in cloud && k !in named :: exists x :: x in q && x.port == cloud[k]
  }

  lemma IdleWhereNotNamed(q: seq<Item>, inuse: map<string, Port>, named: set<string>, cloud: map<string, Port>)
    requires Split(q, inuse, named, cloud)
    ensures IdleUnlessNamed(q, named, cloud)
  {
    forall k | k in cloud && k !in named
      ensures exists x :: x in q && x.port == cloud[k]
    {
      CountHas(q, k);
      assert CountIdle(q, k) == 1;
    }
  }

  /** Idle ports and listed ports have only been added, and heap order is kept. */
  ghost predicate Grown(q: seq<Item>, cloud: map<string, Port>, r: seq<Item>, larger: map<string, Port>) {
    && (forall x | x in q :: x in r)
    && (forall k | k in cloud :: k in larger && larger[k] == cloud[k])
    && (Heap.IsHeap(q) ==> Heap.IsHeap(r))
  }

  lemma GrownByNone(q: seq<Item>, cloud: map<string, Port>)
    ensures Grown(q, cloud, q, cloud)
  {
  }

  lemma GrownByOne(q0: seq<Item>, cloud0: map<string, Port>, q: seq<Item>, cloud: map<string, Port>, p: Port, now: int)
    requires Grown(q0, cloud0, q, cloud) && p.id !in cloud
    ensures Grown(q0, cloud0, Heap.Push(q, Item(p, now)), cloud[p.id := p])
  {
    hide Heap.Push, Heap.IsHeap;
    PushCount(q, Item(p, now));
    if Heap.IsHeap(q) {
      Heap.PushKeepsHeap(q, Item(p, now));
    }
  }

  lemma StillIdle(q: seq<Item>, r: seq<Item>, named: set<string>, cloud: map<string, Port>, larger: map<string, Port>)
    requires IdleUnlessNamed(q, named, cloud)
    requires Grown(q, cloud, r, larger)
    ensures IdleUnlessNamed(r, named, cloud)
    ensures forall k | k in cloud :: k in larger && larger[k] == cloud[k]
    ensures Heap.IsHeap(q) ==> Heap.IsHeap(r)
  {
  }

  /** One turn of preload: a created port goes straight to the queue. */
  lemma PreloadKeeps(s: St, p: Port, to: int, s': St)
    requires Placed(s) && Genuine(s) && Fresh(s, Some(p))
    requires s' == s.(idle := Heap.Push(s.idle, Item(p, to)), cloud := s.cloud[p.id := p], now := to)
    ensures Placed(s') && Genuine(s')
  {
    hide CountIdle, CountProcs, ProcTokens, Heap.Push;
    PushCount(s.idle, Item(p, to));
    forall id
      ensures Places(s', id) == One(id in s'.cloud)
    {
      assert Places(s, id) == One(id in s.cloud);
    }
  }

  /** Everything placed, and then the tokens put in. */
  lemma PlacedStarts(m: St, tokens: nat, s: St)
    requires Placed(m) && Genuine(m) && m.procs == [] && m.ticker == Check(false) && m.statics == 0
    requires tokens == Max(0, m.cfg.capacity - Size(m))
    requires Max(m.cfg.capacity, Size(m)) == Max(m.cfg.capacity, m.loaded)
    requires s == m.(tokens := tokens)
    ensures Started(s)
  {
    PoolSafety.SamePlaces(m, s);
    assert Inv(s);
    PoolTheorems.EveryPortInOnePlace(s);
    forall k | k in s.cloud
      ensures s.cloud[k].id == k && (k in s.inuse || exists x :: x in s.idle && x.port.id == k)
    {
      CountHas(s.idle, k);
      assert Places(s, k) == 1;
    }
  }

  /** The idle ports preload stops at. */
  function PreloadTarget(idle: nat, inuse: nat, minIdle: int, capacity: int): (r: nat) {
    Max(idle, Min(minIdle, capacity - inuse))
  }

  /**
   * Recovery: the ports of the cloud that some record names are in use, all
   * others are idle, in heap order and none reserved; preload created ports up
   * to minIdle or the capacity and put in the tokens left.
   */
  ghost predicate RecoveredPool(s: St, cloud: map<string, Port>, named: set<string>) {
    && s.inuse.Keys == cloud.Keys * named
    && IdleUnlessNamed(s.idle, named, cloud) && Heap.IsHeap(s.idle)
    && (forall x | x in s.idle :: x.reverse <= s.now)
    && (forall k | k in cloud :: k in s.cloud && s.cloud[k] == cloud[k])
    && s.loaded == |cloud| >= |s.inuse|
    && |s.idle| == Max(|cloud| - |s.inuse|, Min(s.cfg.minIdle, s.cfg.capacity - |s.inuse|))
    && s.tokens == Max(0, s.cfg.capacity - Size(s))
  }

  /** The Initializer left m, preload made s of it. */
  lemma PreloadRecovers(m: St, s: St, named: set<string>)
    requires Split(m.idle, m.inuse, named, m.cloud) && Heap.IsHeap(m.idle) && m.loaded == |m.cloud| == Size(m)
    requires s.inuse == m.inuse && s.loaded == m.loaded && s.cfg == m.cfg && Grown(m.idle, m.cloud, s.idle, s.cloud)
    requires |s.idle| == PreloadTarget(|m.idle|, |m.inuse|, m.cfg.minIdle, m.cfg.capacity)
    requires s.tokens == Max(0, s.cfg.capacity - Size(s)) && forall x | x in s.idle :: x.reverse <= s.now
    ensures RecoveredPool(s, m.cloud, named)
  {
    SplitInuse(m.idle, m.inuse, named, m.cloud);
    IdleWhereNotNamed(m.idle, m.inuse, named, m.cloud);
    StillIdle(m.idle, s.idle, named, m.cloud, s.cloud);
  }
}
