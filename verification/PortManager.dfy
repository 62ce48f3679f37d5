/** `PortResourceManager` of pkg/ipam/port.go: dynamic and static allocation on one pool. */
module PortManagers {
  import opened PoolTypes
  import opened PoolSteps
  import opened PoolInvariant
  import opened SequentialRuns
  import opened Environments
  import opened ObjectPools
  import Heap

  /** The annotations of a pod that ask for a static address. */
  datatype Annotations = Annotations(ipAddress: string, ipPool: string)

  predicate RequireStaticIP(a: Annotations) {
    |a.ipAddress| > 0 || |a.ipPool| > 0
  }

  /** A new port put into a placed queue is the first one found under its id. */
  lemma NewPortIsFound(s: St, p: Port, now: int)
    requires Genuine(s) && p.id !in s.cloud
    ensures var q := Heap.Push(s.idle, Item(p, now));
            Heap.IndexOf(q, p.id) < |q| && q[Heap.IndexOf(q, p.id)].port == p
  {
    var x := Item(p, now);
    var q := Heap.Push(s.idle, x);
    var i := Heap.IndexOf(q, p.id);
    PushCount(s.idle, x);
    var k :| 0 <= k < |q| && q[k] == x;
    assert q[i] in q;
    assert forall y | y in s.idle :: y.port.id != p.id;
  }

  /** Two idle items with one id are items of one port. */
  lemma IdlePortIsFound(s: St, k: nat)
    requires Genuine(s) && k < |s.idle|
    ensures var i := Heap.IndexOf(s.idle, s.idle[k].port.id);
            i < |s.idle| && s.idle[i].port == s.idle[k].port && s.idle[k].port.id != ""
  {
    var i := Heap.IndexOf(s.idle, s.idle[k].port.id);
    assert i < |s.idle|;
    assert s.idle[i] in s.idle && s.idle[k] in s.idle;
  }

  /** Some port of the network has the address. */
  ghost predicate AddressListed(ip: string, cloud: map<string, Port>, others: seq<Port>) {
    (exists k :: k in cloud && cloud[k].ip == ip) || (exists p :: p in others && p.ip == ip)
  }

  ghost predicate AddressIdle(ip: string, q: seq<Item>) {
    exists x :: x in q && x.port.ip == ip
  }

  /** The port is that of the first idle item with the address. */
  ghost predicate FirstWithAddress(ip: string, q: seq<Item>, p: Port) {
    exists i | 0 <= i < |q| :: q[i].port == p && p.ip == ip && forall k | 0 <= k < i :: q[k].port.ip != ip
  }

  lemma FirstFound(ip: string, q: seq<Item>, i: nat)
    requires i < |q| && q[i].port.ip == ip && forall k | 0 <= k < i :: q[k].port.ip != ip
    ensures FirstWithAddress(ip, q, q[i].port)
  {
  }

  lemma ListedAddress(ip: string, ports: seq<Port>, cloud: map<string, Port>, others: seq<Port>)
    requires Lists(ports, cloud)
    ensures (exists p :: p in ports + others && p.ip == ip) <==> AddressListed(ip, cloud, others)
  {
    if k :| k in cloud && cloud[k].ip == ip {
      var i :| 0 <= i < |ports| && ports[i].id == k;
      assert ports[i] in ports + others;
    } else if p :| p in others && p.ip == ip {
      assert p in ports + others;
    }
  }

  lemma IdleAddressListed(s: St, others: seq<Port>, ip: string)
    requires Genuine(s)
    ensures AddressIdle(ip, s.idle) ==> AddressListed(ip, s.cloud, others)
  {
    if x :| x in s.idle && x.port.ip == ip {
      assert Known(s.cloud, x.port);
    }
  }

  lemma Joined(s: St, run1: seq<Label>, m: St, run2: seq<Label>, e: St) returns (run: seq<Label>)
    requires Exec(s, run1) == Some(m) && Exec(m, run2) == Some(e) && AllInternal(run1) && AllInternal(run2)
    ensures Exec(s, run) == Some(e) && AllInternal(run)
  {
    ExecConcat(s, run1, m, run2);
    run := run1 + run2;
  }

  lemma CreatedStatic(s: St, procs: seq<Pc>, t: nat, p: Port, to: int, e: St) returns (run: seq<Label>)
    requires LockFree(s) && t < |procs| && s.procs == procs[t := StaticCreate(p.ip)]
    requires Fresh(s, Some(p)) && s.now <= to
    requires e.procs == procs[t := Start(p.id)] && e.idle == Heap.Push(s.idle, Item(p, to))
    requires e.cloud == s.cloud[p.id := p] && e.statics == s.statics + 1 && e.now == to
    requires e.cfg == s.cfg && e.inuse == s.inuse && e.tokens == s.tokens && e.ticker == s.ticker && e.loaded == s.loaded
    ensures Exec(s, run) == Some(e) && AllInternal(run)
  {
    hide Exec, Heap.Push, AllInternal;
    Overwrite(procs, t, StaticCreate(p.ip), Start(p.id));
    run := StaticRun(s, t, p, to, e);
  }

  class PortResourceManager {
    const pool: SimpleObjectPool

    constructor (pool: SimpleObjectPool)
      ensures this.pool == pool
    {
      this.pool := pool;
    }

    ghost predicate Valid()
      reads pool, pool.idle, pool.idle.slots, pool.factory
    {
      pool.Valid() && !pool.locked && Genuine(pool.View([], Rest))
    }

    /** Is the address on some port Neutron lists for the network, of this node or another? */
    method Occupied(ipAddress: string, listed: seq<Port>) returns (occupied: bool)
      ensures occupied <==> exists p :: p in listed && p.ip == ipAddress
    {
      for i := 0 to |listed|
        invariant forall k | 0 <= k < i :: listed[k].ip != ipAddress
      {
        if listed[i].ip == ipAddress {
          return true;
        }
      }
      return false;
    }

    /** List the ports of the network and look for the address; None if Neutron does not answer. */
    method Listed(ipAddress: string, others: seq<Port>) returns (occupied: Option<bool>)
      requires Valid()
      modifies pool.factory`faults
      ensures occupied.Some? ==>
                pool.factory.faults == old(pool.factory.faults)
                && (occupied.value <==> AddressListed(ipAddress, pool.factory.cloud, others))
      ensures occupied.None? ==> pool.factory.faults < old(pool.factory.faults)
    {
      var ports := pool.factory.List();
      if ports.None? {
        return None;
      }
      var taken := Occupied(ipAddress, ports.value + others);
      ListedAddress(ipAddress, ports.value, pool.factory.cloud, others);
      return Some(taken);
    }

    /** The scan of the idle queue for the address. */
    method FindIdle(ipAddress: string) returns (found: Option<nat>)
      requires Valid()
      ensures found.Some? ==>
                found.value < pool.idle.size && pool.idle.Contents()[found.value].port.ip == ipAddress
                && forall k | 0 <= k < found.value :: pool.idle.Contents()[k].port.ip != ipAddress
      ensures found.Some? <==> AddressIdle(ipAddress, pool.idle.Contents())
    {
      ghost var q := pool.idle.Contents();
      for i := 0 to pool.idle.size
        invariant forall k | 0 <= k < i :: q[k].port.ip != ipAddress
      {
        assert pool.idle.slots[i] == q[i];
        if pool.idle.slots[i].port.ip == ipAddress {
          assert q[i] in q;
          return Some(i);
        }
      }
      return None;
    }

    /** The address is taken by a port of this pool that is idle: acquire that port by id. */
    method AcquireIdleAddress(ipAddress: string, index: nat, ctxDone: bool,
                              ghost procs: seq<Pc>, ghost t: nat, ghost ticker: Ticker)
      returns (r: Result<Port>, ghost begun: Pc, ghost run: seq<Label>)
      requires Valid() && !ticker.Wedged? && t < |procs|
      requires index < pool.idle.size && pool.idle.Contents()[index].port.ip == ipAddress
      modifies pool`inuse, pool`tokens, pool.idle, pool.idle.slots, pool.factory
      ensures pool.Valid() && pool.idle.slots == old(pool.idle.slots)
      ensures r == Ok(old(pool.idle.Contents())[index].port)
      ensures pool.inuse == old(pool.inuse)[r.value.id := r.value] && pool.idle.size == old(pool.idle.size) - 1
      ensures pool.tokens == old(pool.tokens) && pool.factory.cloud == old(pool.factory.cloud)
      ensures begun == Start(r.value.id) && AllInternal(run)
      ensures Exec(old(pool.View(procs[t := begun], ticker)), run)
              == Some(pool.View(procs[t := Done(Some(r.value))], ticker))
    {
      IdlePortIsFound(pool.View([], Rest), index);
      ghost var q := pool.idle.Contents();
      assert pool.idle.slots[index] == q[index];
      var id := pool.idle.slots[index].port.id;
      begun := Start(id);
      Overwrite(procs, t, begun, Done(Some(q[index].port)));
      hide Exec, Heap.RobAt, Heap.Pop;
      r, run := pool.Acquire(id, ctxDone, procs[t := begun], t, ticker);
    }

    /** Create(ip) and AddIdle. */
    method MakeIdleAddress(ipAddress: string, ghost procs: seq<Pc>, ghost t: nat, ghost ticker: Ticker)
      returns (made: Option<Port>, ghost run: seq<Label>)
      requires Valid() && !ticker.Wedged? && t < |procs| && ipAddress != ""
      modifies pool`statics, pool.idle, pool.idle.slots, pool.factory
      ensures pool.Valid() && (pool.idle.slots == old(pool.idle.slots) || fresh(pool.idle.slots))
      ensures made.None? ==>
                pool.factory.faults < old(pool.factory.faults)
                && pool.View(procs, ticker) == old(pool.View(procs, ticker))
      ensures made.Some? ==>
                made.value.ip == ipAddress && made.value.id != "" && AllInternal(run)
                && pool.factory.cloud == old(pool.factory.cloud)[made.value.id := made.value]
                && Exec(old(pool.View(procs[t := StaticCreate(ipAddress)], ticker)), run)
                   == Some(pool.View(procs[t := Start(made.value.id)], ticker))
                && made.value.id !in old(pool.factory.cloud)
                && pool.idle.Contents() == Heap.Push(old(pool.idle.Contents()), Item(made.value, pool.factory.now))
    {
      hide Genuine, Exec, Heap.Push, AllInternal;
      ghost var s := pool.View(procs[t := StaticCreate(ipAddress)], ticker);
      made := pool.factory.Create(ipAddress);
      if made.None? {
        return None, [];
      }
      ghost var p := made.value;
      pool.AddIdle(made.value);
      pool.statics := pool.statics + 1;
      run := CreatedStatic(s, procs, t, p, pool.factory.now, pool.View(procs[t := Start(p.id)], ticker));
    }

    /** Nobody has the address: create a port with it, make it idle, acquire it by id. */
    method CreateAddress(ipAddress: string, ctxDone: bool, ghost procs: seq<Pc>, ghost t: nat, ghost ticker: Ticker)
      returns (r: Result<Port>, ghost run: seq<Label>)
      requires Valid() && !ticker.Wedged? && t < |procs| && ipAddress != ""
      modifies pool`inuse, pool`tokens, pool`statics, pool.idle, pool.idle.slots, pool.factory
      ensures pool.Valid() && (pool.idle.slots == old(pool.idle.slots) || fresh(pool.idle.slots))
      ensures r.Ok? ==>
                r.value.ip == ipAddress && r.value.id !in old(pool.factory.cloud)
                && pool.factory.cloud == old(pool.factory.cloud)[r.value.id := r.value]
                && pool.inuse == old(pool.inuse)[r.value.id := r.value] && AllInternal(run)
                && pool.idle.size == old(pool.idle.size) && pool.tokens == old(pool.tokens)
                && Exec(old(pool.View(procs[t := StaticCreate(ipAddress)], ticker)), run)
                   == Some(pool.View(procs[t := Done(Some(r.value))], ticker))
      ensures r.Err? ==>
                r == Err(BadAddress) && pool.factory.faults < old(pool.factory.faults)
                && pool.View(procs, ticker) == old(pool.View(procs, ticker))
    {
      ghost var s0 := pool.View([], Rest);
      ghost var s := pool.View(procs[t := StaticCreate(ipAddress)], ticker);
      hide Genuine, Exec, Heap.RobAt, Heap.Pop, Heap.Push;
      var made;
      made, run := MakeIdleAddress(ipAddress, procs, t, ticker);
      if made.None? {
        return Err(BadAddress), run;
      }
      var p := made.value;
      NewPortIsFound(s0, p, pool.factory.now);
      ghost var s1 := pool.View(procs[t := Start(p.id)], ticker);
      Overwrite(procs, t, Start(p.id), Done(Some(p)));
      ghost var run2;
      r, run2 := pool.Acquire(p.id, ctxDone, procs[t := Start(p.id)], t, ticker);
      run := Joined(s, run, s1, run2, pool.View(procs[t := Done(Some(p))], ticker));
    }

    /**
     * acquireStaticAddress, run without interference. `parses` stands for
     * net.ParseIP, `others` for the ports of other nodes on the network. A
     * success is a port with exactly the annotated address, now in use: the
     * first idle one that has it if the address is listed, else a new one.
     */
    method AcquireStaticAddress(a: Annotations, parses: bool, others: seq<Port>, ctxDone: bool,
                                ghost procs: seq<Pc>, ghost t: nat, ghost ticker: Ticker)
      returns (r: Result<Port>, ghost begun: Pc, ghost run: seq<Label>)
      requires Valid() && !ticker.Wedged? && t < |procs|
      modifies pool`inuse, pool`tokens, pool`statics, pool.idle, pool.idle.slots, pool.factory
      ensures pool.Valid() && (pool.idle.slots == old(pool.idle.slots) || fresh(pool.idle.slots))
      ensures r.Ok? ==>
                r.value.ip == a.ipAddress && pool.inuse == old(pool.inuse)[r.value.id := r.value]
                && (begun == StaticCreate(a.ipAddress) || begun == Start(r.value.id)) && AllInternal(run)
                && Exec(old(pool.View(procs[t := begun], ticker)), run)
                   == Some(pool.View(procs[t := Done(Some(r.value))], ticker))
      ensures r.Ok? && AddressListed(a.ipAddress, old(pool.factory.cloud), others) ==>
                FirstWithAddress(a.ipAddress, old(pool.idle.Contents()), r.value)
                && pool.factory.cloud == old(pool.factory.cloud)
      ensures r.Ok? && !AddressListed(a.ipAddress, old(pool.factory.cloud), others) ==>
                r.value.id !in old(pool.factory.cloud)
                && pool.factory.cloud == old(pool.factory.cloud)[r.value.id := r.value]
      ensures r.Err? ==> pool.View(procs, ticker) == old(pool.View(procs, ticker))
      ensures a.ipAddress == "" || !parses ==> r == Err(BadAddress)
      ensures r.Err? && a.ipAddress != "" && parses ==>
                (pool.factory.faults < old(pool.factory.faults) && (r == Err(ListFailed) || r == Err(BadAddress)))
                || (r == Err(AddressOccupied) && AddressListed(a.ipAddress, old(pool.factory.cloud), others)
                    && !AddressIdle(a.ipAddress, old(pool.idle.Contents())))
      // Without failures of Neutron it succeeds exactly on an address that parses and is free or idle here.
      ensures old(pool.factory.faults) == 0 ==>
                (r.Ok? <==> a.ipAddress != "" && parses
                            && (AddressIdle(a.ipAddress, old(pool.idle.Contents()))
                                || !AddressListed(a.ipAddress, old(pool.factory.cloud), others)))
    {
      begun, run := Done(None), [];
      if |a.ipAddress| == 0 || !parses {
        return Err(BadAddress), begun, run;
      }
      IdleAddressListed(pool.View([], Rest), others, a.ipAddress);
      hide Genuine, Exec, AddressListed, AddressIdle, AllInternal, FirstWithAddress;
      var occupied := Listed(a.ipAddress, others);
      if occupied.None? {
        return Err(ListFailed), begun, run;
      }
      if occupied.value {
        var found := FindIdle(a.ipAddress);
        if found.None? {
          return Err(AddressOccupied), begun, run;
        }
        FirstFound(a.ipAddress, pool.idle.Contents(), found.value);
        r, begun, run := AcquireIdleAddress(a.ipAddress, found.value, ctxDone, procs, t, ticker);
        return;
      }
      begun := StaticCreate(a.ipAddress);
      r, run := CreateAddress(a.ipAddress, ctxDone, procs, t, ticker);
    }
  }
}
