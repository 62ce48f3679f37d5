/**
 * `SimpleObjectPool` of pkg/pool/pool.go as a class: the calls as they run when
 * nobody else touches the pool. Each call returns, as a ghost, the run of the
 * step system that it is. `run` starts in a state with any other callers
 * (`procs`) waiting anywhere, so the invariants of all interleavings hold here.
 */
module ObjectPools {
  import opened PoolTypes
  import opened PoolSteps
  import opened SequentialRuns
  import opened Environments
  import opened PriorityQueues
  import opened Maintenance
  import opened PoolInvariant
  import opened Startup
  import Heap

  const DEFAULT_MAX_IDLE := 20
  const DEFAULT_CAPACITY := 50

  class SimpleObjectPool {
    var inuse: map<string, Port>
    const idle: PriorityQueue
    const factory: Environment
    const minIdle: int
    const maxIdle: int
    const capacity: nat
    var tokens: nat
    /** The lock is held by a ticker that will not give it back. */
    var locked: bool
    ghost var loaded: nat
    ghost var statics: nat

    ghost predicate Valid()
      reads this, idle
    {
      idle.Valid() && tokens <= capacity
    }

    /** This pool as a state of the step system. */
    ghost function View(procs: seq<Pc>, ticker: Ticker): (r: St)
      requires Valid()
      reads this, idle, idle.slots, factory
    {
      St(Config(minIdle, maxIdle, capacity), idle.Contents(), inuse, tokens, procs, ticker,
         factory.cloud, factory.now, loaded, statics)
    }

    /** Every idle port's reservation is over. */
    ghost predicate Unreserved()
      requires Valid()
      reads this, idle, idle.slots, factory
    {
      forall x | x in idle.Contents() :: x.reverse <= factory.now
    }

    function PoolSize(): (r: nat)
      reads this, idle
    {
      idle.size + |inuse|
    }

    constructor Empty(factory: Environment, minIdle: int, maxIdle: int, capacity: nat)
      ensures Valid() && fresh(idle) && fresh(idle.slots)
      ensures this.factory == factory && this.minIdle == minIdle && this.maxIdle == maxIdle
      ensures this.capacity == capacity && tokens == 0 && !locked && statics == 0
      ensures inuse == map[] && idle.Contents() == []
    {
      inuse := map[];
      idle := new PriorityQueue();
      this.factory := factory;
      this.minIdle := minIdle;
      this.maxIdle := maxIdle;
      this.capacity := capacity;
      tokens := 0;
      locked := false;
      loaded := 0;
      statics := 0;
    }

    /**
     * NewSimpleObjectPool with the Initializer of pkg/ipam/port.go. A negative
     * capacity makes the channel allocation panic.
     */
    static method NewSimpleObjectPool(factory: Environment, cfgMinIdle: int, cfgMaxIdle: int, cfgCapacity: int,
                                      portsMapping: map<string, seq<string>>)
      returns (r: Result<SimpleObjectPool>)
      requires "" !in factory.cloud && forall k | k in factory.cloud :: factory.cloud[k].id == k
      modifies factory
      ensures cfgMinIdle > cfgMaxIdle || cfgMaxIdle > cfgCapacity ==> r == Err(InvalidArguments)
      ensures cfgMinIdle <= cfgMaxIdle <= cfgCapacity < 0 ==> r == Err(Panic)
      ensures r.Err? && cfgMinIdle <= cfgMaxIdle <= cfgCapacity && cfgCapacity >= 0 ==>
                factory.faults < old(factory.faults)
      ensures old(factory.faults) == 0 && cfgMinIdle <= cfgMaxIdle <= cfgCapacity && cfgCapacity >= 0 ==> r.Ok?
      ensures r.Ok? ==>
                var p := r.value;
                && cfgMinIdle <= cfgMaxIdle <= cfgCapacity && 0 <= cfgCapacity
                && fresh(p) && fresh(p.idle) && fresh(p.idle.slots) && p.factory == factory
                && p.minIdle == cfgMinIdle && p.maxIdle == (if cfgMaxIdle == 0 then 20 else cfgMaxIdle)
                && p.capacity == (if cfgCapacity == 0 then 50 else cfgCapacity)
                && p.Valid() && !p.locked && Started(p.View([], Check(false)))
                && RecoveredPool(p.View([], Check(false)), old(factory.cloud), portsMapping.Keys)
                && factory.now >= old(factory.now)
    {
      if cfgMinIdle > cfgMaxIdle || cfgMaxIdle > cfgCapacity {
        return Err(InvalidArguments);
      }
      var maxIdle := if cfgMaxIdle == 0 then DEFAULT_MAX_IDLE else cfgMaxIdle;
      var capacity := if cfgCapacity == 0 then DEFAULT_CAPACITY else cfgCapacity;
      if capacity < 0 {
        return Err(Panic);
      }
      var pool := new SimpleObjectPool.Empty(factory, cfgMinIdle, maxIdle, capacity);
      var done := pool.Load(portsMapping);
      if done.Err? {
        return Err(done.error);
      }
      return Ok(pool);
    }

    /** List, the Initializer's loop, preload. */
    method Load(portsMapping: map<string, seq<string>>) returns (r: Result<()>)
      requires Valid() && !locked && inuse == map[] && idle.Contents() == [] && tokens == 0 && statics == 0
      requires "" !in factory.cloud && forall k | k in factory.cloud :: factory.cloud[k].id == k
      modifies this, idle, idle.slots, factory
      ensures Valid() && !locked && (idle.slots == old(idle.slots) || fresh(idle.slots))
      ensures r.Err? ==> factory.faults < old(factory.faults)
      ensures r.Ok? ==>
                Started(View([], Check(false)))
                && RecoveredPool(View([], Check(false)), old(factory.cloud), portsMapping.Keys)
      ensures factory.now >= old(factory.now)
    {
      hide Started, Placed, Genuine, Split, Lists, Heap.IsHeap, Grown, PreloadTarget, RecoveredPool;
      var ports := factory.List();
      if ports.None? {
        return Err(ListFailed);
      }
      ListedCount(ports.value, factory.cloud);
      Initialize(ports.value, portsMapping);
      ghost var m := View([], Check(false));
      SplitIsPlaced(m, portsMapping.Keys);
      r := Preload();
      if r.Ok? {
        PreloadRecovers(m, View([], Check(false)), portsMapping.Keys);
      }
    }

    /** AddIdle: the port is reserved for nobody, so up to the instant read here. */
    method AddIdle(port: Port)
      requires Valid() && !locked
      modifies idle, idle.slots, factory`now
      ensures Valid() && (idle.slots == old(idle.slots) || fresh(idle.slots))
      ensures factory.now >= old(factory.now)
      ensures idle.Contents() == Heap.Push(old(idle.Contents()), Item(port, factory.now))
      ensures Heap.IsHeap(old(idle.Contents())) ==> Heap.IsHeap(idle.Contents())
      ensures old(Unreserved()) ==> Unreserved()
    {
      var now := factory.Now();
      NoneReserved(idle.Contents(), Item(port, now), old(factory.now));
      if Heap.IsHeap(idle.Contents()) {
        Heap.PushKeepsHeap(idle.Contents(), Item(port, now));
      }
      idle.Push(Item(port, now));
    }

    method AddInuse(port: Port)
      requires Valid() && !locked
      modifies `inuse
      ensures inuse == old(inuse)[port.id := port]
    {
      inuse := inuse[port.id := port];
    }

    method GetOneLocked(resId: string) returns (item: Item)
      requires Valid() && idle.Contents() != []
      modifies idle, idle.slots
      ensures Valid() && idle.slots == old(idle.slots)
      ensures (item, idle.Contents()) == GetOne(old(idle.Contents()), resId)
    {
      if |resId| > 0 {
        var robbed := idle.Rob(resId);
        if robbed.Some? {
          return robbed.value;
        }
      }
      var popped := idle.Pop();
      return popped.value;
    }

    /** The first locked section of Acquire when some port is idle. */
    method TakeIdle(resId: string, ghost procs: seq<Pc>, ghost t: nat, ghost ticker: Ticker)
      returns (port: Port, ghost run: seq<Label>)
      requires Valid() && !locked && idle.Contents() != []
      requires t < |procs| && procs[t] == Start(resId) && !ticker.Wedged?
      modifies this`inuse, idle, idle.slots
      ensures Valid() && idle.slots == old(idle.slots)
      ensures Exec(old(View(procs, ticker)), run) == Some(View(procs[t := Done(Some(port))], ticker))
      ensures AllInternal(run)
      ensures var (item, rest) := GetOne(old(idle.Contents()), resId);
              port == item.port && idle.Contents() == rest && inuse == old(inuse)[port.id := port]
    {
      hide Exec, GetOne;
      ghost var e;
      run, e := IdleAcquire(View(procs, ticker), t);
      var item := GetOneLocked(resId);
      inuse := inuse[item.port.id := item.port];
      return item.port, run;
    }

    /** The token branch of Acquire's select. */
    method CreateWithToken(resId: string, ghost procs: seq<Pc>, ghost t: nat, ghost ticker: Ticker)
      returns (made: Option<Port>, ghost run: seq<Label>)
      requires Valid() && !locked && idle.Contents() == [] && PoolSize() < capacity && tokens > 0
      requires t < |procs| && procs[t] == Start(resId) && !ticker.Wedged?
      modifies this`inuse, this`tokens, factory
      ensures Valid()
      ensures Exec(old(View(procs, ticker)), run) == Some(View(procs[t := Done(made)], ticker))
      ensures AllInternal(run)
      ensures made.None? ==>
                inuse == old(inuse) && tokens == old(tokens) && factory.cloud == old(factory.cloud)
                && factory.faults < old(factory.faults)
      ensures made.Some? ==>
                tokens == old(tokens) - 1 && made.value.id !in old(factory.cloud)
                && factory.cloud == old(factory.cloud)[made.value.id := made.value]
                && inuse == old(inuse)[made.value.id := made.value] && factory.faults == old(factory.faults)
    {
      hide Exec, AllInternal;
      ghost var s := View(procs, ticker);
      tokens := tokens - 1;
      made := factory.Create("");
      if made.None? {
        tokens := tokens + 1;
        run := RefundedAcquire(s, t);
      } else {
        AddInuse(made.value);
        run := CreatedAcquire(s, t, made.value);
      }
    }

    /**
     * Acquire. `ctxDone` says that ctx is done by the time the select is
     * reached; without a token the call then waits for ctx alone. With idle
     * ports it cannot fail; below the capacity a token and a live ctx are
     * enough to get a new port, unless Neutron fails.
     */
    method Acquire(resId: string, ctxDone: bool, ghost procs: seq<Pc>, ghost t: nat, ghost ticker: Ticker)
      returns (r: Result<Port>, ghost run: seq<Label>)
      requires Valid() && !locked
      requires t < |procs| && procs[t] == Start(resId) && !ticker.Wedged?
      modifies this`inuse, this`tokens, idle, idle.slots, factory
      ensures Valid() && idle.slots == old(idle.slots)
      ensures Exec(old(View(procs, ticker)), run) == Some(View(procs[t := Done(Outcome(r))], ticker))
      ensures AllInternal(run)
      ensures old(idle.Contents()) != [] ==>
                var (item, rest) := GetOne(old(idle.Contents()), resId);
                r == Ok(item.port) && idle.Contents() == rest && inuse == old(inuse)[item.port.id := item.port]
                && tokens == old(tokens) && factory.cloud == old(factory.cloud)
      ensures old(idle.Contents()) == [] ==> idle.Contents() == []
      ensures old(idle.Contents()) == [] && r.Ok? ==>
                tokens == old(tokens) - 1 && r.value.id !in old(factory.cloud)
                && factory.cloud == old(factory.cloud)[r.value.id := r.value]
                && inuse == old(inuse)[r.value.id := r.value]
      ensures r == Err(NoAvailableResource) <==> old(idle.Contents()) == [] && old(PoolSize()) >= capacity
      ensures r == Err(ContextDone) ==> ctxDone || old(tokens) == 0
      ensures old(idle.Contents()) == [] && old(PoolSize()) < capacity ==>
                && (old(tokens) > 0 && !ctxDone ==> r.Ok? || r == Err(CreateFailed))
                && (old(tokens) > 0 && !ctxDone && old(factory.faults) == 0 ==> r.Ok?)
                && (old(tokens) == 0 ==> r == Err(ContextDone))
      ensures r == Err(CreateFailed) ==> factory.faults < old(factory.faults)
      ensures r.Err? ==>
                inuse == old(inuse) && tokens == old(tokens) && factory.cloud == old(factory.cloud)
                && (r.error == NoAvailableResource || r.error == ContextDone || r.error == CreateFailed)
    {
      hide Exec, AllInternal, GetOne;
      if idle.size > 0 {
        var port;
        port, run := TakeIdle(resId, procs, t, ticker);
        return Ok(port), run;
      }
      if PoolSize() >= capacity {
        FullAcquire(View(procs, ticker), t);
        return Err(NoAvailableResource), [AcqLock(t)];
      }
      var both: bool := *;
      if tokens == 0 || (ctxDone && both) {
        CancelledAcquire(View(procs, ticker), t);
        return Err(ContextDone), [AcqLock(t), AcqCancel(t)];
      }
      var made;
      made, run := CreateWithToken(resId, procs, t, ticker);
      return if made.Some? then Ok(made.value) else Err(CreateFailed), run;
    }

    /** ReleaseWithReverse is one step, taken at the instant read inside it. */
    method ReleaseWithReverse(resId: string, reverse: int, ghost procs: seq<Pc>, ghost ticker: Ticker)
      returns (r: Result<()>)
      requires Valid() && !locked && !ticker.Wedged?
      modifies this`inuse, idle, idle.slots, factory`now
      ensures Valid() && (idle.slots == old(idle.slots) || fresh(idle.slots))
      ensures factory.now >= old(factory.now)
      ensures resId in old(inuse) ==>
                r == Ok(())
                && inuse == old(inuse) - {resId}
                && idle.Contents()
                   == Heap.Push(old(idle.Contents()),
                                Item(old(inuse)[resId], if reverse > 0 then factory.now + reverse else factory.now))
                && Next(old(View(procs, ticker)).(now := factory.now), Release(resId, reverse))
                   == Some(View(procs, ticker))
      ensures resId !in old(inuse) ==> r == Err(InvalidState) && View(procs, ticker) == old(View(procs, ticker))
    {
      if resId !in inuse {
        return Err(InvalidState);
      }
      ghost var before := View(procs, ticker);
      var port := inuse[resId];
      inuse := inuse - {resId};
      var reverseTo := factory.Now();
      if reverse > 0 {
        reverseTo := reverseTo + reverse;
      }
      hide Next, Heap.Push;
      idle.Push(Item(port, reverseTo));
      ReleasedAt(before, resId, reverse, factory.now, View(procs, ticker));
      return Ok(());
    }

    method Stat(resId: string) returns (r: Result<()>)
      requires Valid() && !locked
      ensures r == if resId in inuse || exists x :: x in idle.Contents() && x.port.id == resId
                   then Ok(()) else Err(NotFound)
    {
      if resId in inuse {
        return Ok(());
      }
      var found := idle.Find(resId);
      if found.Some? {
        assert found.value in idle.Contents();
        return Ok(());
      }
      return Err(NotFound);
    }

    // ----- startup -----

    /**
     * The loop of the Initializer (pkg/ipam/port.go): a listed port that some
     * record names goes into use, any other becomes idle.
     */
    method Initialize(ports: seq<Port>, portsMapping: map<string, seq<string>>)
      requires Valid() && !locked && inuse == map[] && idle.Contents() == []
      requires Lists(ports, factory.cloud)
      modifies this`inuse, this`loaded, idle, idle.slots, factory`now
      ensures Valid() && (idle.slots == old(idle.slots) || fresh(idle.slots))
      ensures factory.now >= old(factory.now) && loaded == |ports| == PoolSize()
      ensures Split(idle.Contents(), inuse, portsMapping.Keys, factory.cloud)
      ensures Heap.IsHeap(idle.Contents()) && Unreserved()
    {
      hide SplitPart, Split, Lists, Heap.IsHeap;
      ghost var named := portsMapping.Keys;
      assert idle.Contents() == [] && inuse == map[];
      SplitNothing(named);
      assert ports[..0] == [];
      for i := 0 to |ports|
        invariant Valid() && (idle.slots == old(idle.slots) || fresh(idle.slots))
        invariant factory.now >= old(factory.now)
        invariant SplitPart(idle.Contents(), inuse, named, ports[..i]) && Heap.IsHeap(idle.Contents()) && Unreserved()
      {
        assert ports[..i + 1] == ports[..i] + [ports[i]];
        NotListedBefore(ports, factory.cloud, i);
        PlaceListed(ports[i], portsMapping, ports[..i]);
      }
      loaded := |ports|;
      assert ports[..|ports|] == ports;
      SplitWhole(idle.Contents(), inuse, named, ports, factory.cloud);
    }

    /** The body of that loop. */
    method PlaceListed(p: Port, portsMapping: map<string, seq<string>>, ghost seen: seq<Port>)
      requires Valid() && !locked && SplitPart(idle.Contents(), inuse, portsMapping.Keys, seen)
      requires forall o | o in seen :: o.id != p.id
      modifies this`inuse, idle, idle.slots, factory`now
      ensures Valid() && (idle.slots == old(idle.slots) || fresh(idle.slots))
      ensures factory.now >= old(factory.now)
      ensures SplitPart(idle.Contents(), inuse, portsMapping.Keys, seen + [p])
      ensures Heap.IsHeap(old(idle.Contents())) ==> Heap.IsHeap(idle.Contents())
      ensures old(Unreserved()) ==> Unreserved()
    {
      hide SplitPart, Heap.IsHeap;
      ghost var q, used := idle.Contents(), inuse;
      if p.id in portsMapping {
        AddInuse(p);
        SplitAddInuse(q, used, portsMapping.Keys, seen, p);
      } else {
        AddIdle(p);
        SplitAddIdle(q, used, portsMapping.Keys, seen, p, factory.now);
      }
    }

    /** One created port of preload. */
    method PreloadOne(ghost q0: seq<Item>, ghost cloud0: map<string, Port>) returns (ok: bool)
      requires Valid() && !locked && Grown(q0, cloud0, idle.Contents(), factory.cloud)
      requires Placed(View([], Check(false))) && Genuine(View([], Check(false)))
      modifies idle, idle.slots, factory
      ensures Valid() && (idle.slots == old(idle.slots) || fresh(idle.slots))
      ensures !ok ==> factory.faults < old(factory.faults)
      ensures ok ==>
                Placed(View([], Check(false))) && Genuine(View([], Check(false)))
                && idle.size == old(idle.size) + 1 && factory.faults == old(factory.faults)
                && Grown(q0, cloud0, idle.Contents(), factory.cloud)
                && (old(Unreserved()) ==> Unreserved())
      ensures factory.now >= old(factory.now)
    {
      hide Placed, Genuine, Heap.Push, Heap.IsHeap, Grown;
      ghost var s := View([], Check(false));
      var made := factory.Create("");
      if made.None? {
        return false;
      }
      AddIdle(made.value);
      GrownByOne(q0, cloud0, s.idle, s.cloud, made.value, factory.now);
      PreloadKeeps(s, made.value, factory.now, View([], Check(false)));
      return true;
    }

    /** preload: idle ports up to minIdle or the capacity, then the tokens that are left. */
    method Preload() returns (r: Result<()>)
      requires Valid() && !locked && tokens == 0 && statics == 0 && loaded == PoolSize()
      requires Placed(View([], Check(false))) && Genuine(View([], Check(false)))
      modifies this`tokens, idle, idle.slots, factory
      ensures Valid() && (idle.slots == old(idle.slots) || fresh(idle.slots))
      ensures r.Err? ==> r.error == CreateFailed && factory.faults < old(factory.faults)
      ensures r.Ok? ==>
                (old(Unreserved()) ==> Unreserved()) && Started(View([], Check(false)))
                && idle.size == PreloadTarget(old(idle.size), |inuse|, minIdle, capacity)
                && tokens == Max(0, capacity - PoolSize())
                && Grown(old(idle.Contents()), old(factory.cloud), idle.Contents(), factory.cloud)
      ensures factory.now >= old(factory.now)
    {
      hide Placed, Genuine, Started, Grown;
      ghost var q0, cloud0 := idle.Contents(), factory.cloud;
      GrownByNone(q0, cloud0);
      while idle.size < minIdle && PoolSize() < capacity
        invariant Valid() && (idle.slots == old(idle.slots) || fresh(idle.slots))
        invariant Placed(View([], Check(false))) && Genuine(View([], Check(false)))
        invariant factory.faults <= old(factory.faults) && tokens == 0
        invariant idle.size == old(idle.size) || PoolSize() <= capacity
        invariant old(idle.size) <= idle.size <= PreloadTarget(old(idle.size), |inuse|, minIdle, capacity)
        invariant Grown(q0, cloud0, idle.Contents(), factory.cloud)
        invariant factory.now >= old(factory.now) && (old(Unreserved()) ==> Unreserved())
        decreases minIdle - idle.size
      {
        var ok := PreloadOne(q0, cloud0);
        if !ok {
          return Err(CreateFailed);
        }
      }
      ghost var m := View([], Check(false));
      var tokenCount := capacity - PoolSize();
      for i := 0 to Max(0, tokenCount)
        invariant Valid() && tokens == i
        modifies this`tokens
      {
        tokens := tokens + 1;
      }
      PlacedStarts(m, tokens, View([], Check(false)));
      return Ok(());
    }

    // ----- the ticker -----

    predicate HasTooManyIdle()
      reads this, idle
    {
      idle.size > maxIdle || (idle.size > 0 && PoolSize() > capacity)
    }

    /** Where the ticker stands after checkIdle was left this way. */
    static function AfterExit(exit: Exit, full: bool): (r: Ticker) {
      match exit
      case Finished => Check(full)
      case LockKept => Wedged
      case SendBlocked => Disposed(full)
    }

    /** Neutron will not fail and every idle port's reservation is over. */
    ghost predicate Undisturbed()
      requires Valid()
      reads this, idle, idle.slots, factory
    {
      factory.faults == 0 && Unreserved()
    }

    /**
     * One turn of the loop of checkIdle. `run0` brought the pool to the state
     * it is in. The turn goes on (Finished) or is the last one.
     */
    method DisposeOne(ghost procs: seq<Pc>, ghost full: bool, ghost s0: St, ghost run0: seq<Label>)
      returns (exit: Exit, ghost run: seq<Label>)
      requires Valid() && !locked && HasTooManyIdle()
      requires Exec(s0, run0) == Some(View(procs, Check(full)))
      modifies this`tokens, this`locked, idle, idle.slots, factory
      ensures Valid() && (idle.slots == old(idle.slots) || fresh(idle.slots))
      ensures Exec(s0, run) == Some(View(procs, AfterExit(exit, full)))
      ensures locked <==> exit == LockKept
      ensures if exit == LockKept
              then (old(idle.Contents()) == [] || old(idle.Contents())[0].reverse > factory.now)
                   && idle.Contents() == old(idle.Contents()) && tokens == old(tokens)
                   && factory.cloud == old(factory.cloud) && factory.faults == old(factory.faults)
              else old(idle.Contents()) != [] && old(idle.Contents())[0].reverse <= factory.now
                   && Disposal(old(idle.Contents())[0].port, Heap.Pop(old(idle.Contents())), old(tokens), capacity,
                               old(factory.cloud), old(factory.faults), factory.now,
                               idle.Contents(), tokens, factory.cloud, factory.faults, exit)
      ensures old(Undisturbed()) ==>
                OneTurn(old(idle.Contents()), old(tokens), idle.Contents(), tokens, capacity, exit) && Undisturbed()
    {
      ghost var s := View(procs, Check(full));
      var item := idle.Peek();
      var now := 0;
      if item.Some? {
        now := factory.Now();
      }
      if item.None? || item.value.reverse > now {
        locked := true;
        run := WedgingTurn(s0, run0, s, factory.now);
        return LockKept, run;
      }
      assert old(idle.Contents())[0] in old(idle.Contents());
      Heap.PopMembers(old(idle.Contents()));
      PopTakesEarliest(old(idle.Contents()));
      ghost var m;
      run, m := PoppingTurn(s0, run0, s, now);
      item := idle.Pop();
      exit, run := DisposeItem(item.value.port, procs, full, s0, run);
    }

    /** The rest of the turn, after the lock is given back. */
    method DisposeItem(port: Port, ghost procs: seq<Pc>, ghost full: bool, ghost s0: St, ghost run0: seq<Label>)
      returns (exit: Exit, ghost run: seq<Label>)
      requires Valid() && !locked
      requires Exec(s0, run0) == Some(View(procs, Disposing(port, full)))
      modifies this`tokens, idle, idle.slots, factory
      ensures Valid() && (idle.slots == old(idle.slots) || fresh(idle.slots))
      ensures Exec(s0, run) == Some(View(procs, AfterExit(exit, full)))
      ensures factory.now >= old(factory.now)
      ensures Disposal(port, old(idle.Contents()), old(tokens), capacity, old(factory.cloud), old(factory.faults),
                       factory.now, idle.Contents(), tokens, factory.cloud, factory.faults, exit)
    {
      hide Exec, Heap.Push;
      ghost var s := View(procs, Disposing(port, full));
      ghost var m;
      var ok := factory.Dispose(port);
      if ok {
        run, m := DisposedTurn(s0, run0, s);
        if tokens == capacity {
          return SendBlocked, run;
        }
        tokens := tokens + 1;
        run := SendTurn(s0, run, m);
        return Finished, run;
      }
      run, m := FailedTurn(s0, run0, s);
      AddIdle(port);
      run := PutBackTurn(s0, run, m, factory.now);
      return Finished, run;
    }

    /** checkIdle, started with the ticker at the head of its loop. */
    method CheckIdle(ghost procs: seq<Pc>, ghost full: bool) returns (exit: Exit, ghost run: seq<Label>)
      requires Valid() && !locked
      modifies this`tokens, this`locked, idle, idle.slots, factory
      ensures Valid() && (idle.slots == old(idle.slots) || fresh(idle.slots))
      ensures Exec(old(View(procs, Check(full))), run) == Some(View(procs, AfterExit(exit, full)))
      ensures locked <==> exit == LockKept
      ensures exit == Finished ==> !HasTooManyIdle()
      ensures exit == LockKept ==> idle.Contents() == [] || idle.Contents()[0].reverse > factory.now
      ensures Shrunk(old(idle.size), old(tokens), idle.size, tokens, |inuse|, maxIdle, capacity, exit)
      ensures factory.faults <= old(factory.faults)
      ensures old(Undisturbed()) ==>
                Arrived(old(idle.Contents()), old(tokens), idle.Contents(), tokens, |inuse|, maxIdle, capacity, exit)
                && Undisturbed()
      ensures !old(HasTooManyIdle()) ==> exit == Finished && View(procs, Rest) == old(View(procs, Rest))
    {
      ghost var s0, calm := View(procs, Check(full)), Undisturbed();
      ghost var q0, n := idle.Contents(), |inuse|;
      assert Exec(s0, []) == Some(s0);
      CourseBegins(q0, tokens, n, maxIdle, capacity);
      hide Exec, OnCourse, OneTurn, Arrived, Shrinking, Shrunk, Disposal, IdleTarget, Heap.Pop, Heap.Push;
      run := [];
      exit := Finished;
      while HasTooManyIdle()
        invariant Valid() && !locked && (idle.slots == old(idle.slots) || fresh(idle.slots))
        invariant exit == Finished && factory.faults <= old(factory.faults)
        invariant Exec(s0, run) == Some(View(procs, Check(full)))
        invariant Shrinking(old(idle.size), old(tokens), idle.size, tokens, n, maxIdle, capacity)
        invariant old(HasTooManyIdle()) || View(procs, Rest) == old(View(procs, Rest))
        invariant calm ==> Undisturbed() && OnCourse(q0, old(tokens), idle.Contents(), tokens, n, maxIdle, capacity)
        decreases factory.faults, idle.size
      {
        ghost var q, tokens1 := idle.Contents(), tokens;
        ghost var cloud, faults := factory.cloud, factory.faults;
        exit, run := DisposeOne(procs, full, s0, run);
        ShrinkingTurn(old(idle.size), old(tokens), q, tokens1, n, maxIdle, capacity, cloud, faults, factory.now,
                      idle.Contents(), tokens, factory.cloud, factory.faults, exit);
        if calm {
          TurnOnCourse(q0, old(tokens), q, tokens1, idle.Contents(), tokens, n, maxIdle, capacity, exit);
        }
        if exit != Finished {
          return;
        }
      }
      ShrinkingEnds(old(idle.size), old(tokens), idle.size, tokens, n, maxIdle, capacity);
      if calm {
        CourseEnds(q0, old(tokens), idle.Contents(), tokens, n, maxIdle, capacity);
      }
    }

    method NeedsAddition() returns (addition: int)
      requires Valid() && !locked
      ensures addition == Addition(idle.size, |inuse|, minIdle, capacity)
    {
      addition := minIdle - idle.size;
      if addition > capacity - PoolSize() {
        return capacity - PoolSize();
      }
    }

    /** The token loop of checkInsufficient: never blocks. */
    method CollectTokens(addition: nat, ghost procs: seq<Pc>, ghost s0: St, ghost run0: seq<Label>)
      returns (tokenAcquired: nat, ghost run: seq<Label>)
      requires Valid() && Exec(s0, run0) == Some(View(procs, Collect(addition, 0)))
      modifies this`tokens
      ensures Valid() && tokenAcquired == Min(addition, old(tokens)) && tokens == old(tokens) - tokenAcquired
      ensures Exec(s0, run) == Some(View(procs, NextFill(tokenAcquired)))
    {
      hide Exec;
      tokenAcquired := 0;
      run := run0;
      for i := 0 to addition
        invariant Valid() && tokenAcquired == Min(i, old(tokens)) && tokens == old(tokens) - tokenAcquired
        invariant Exec(s0, run) == Some(View(procs, Collect(addition - i, tokenAcquired)))
      {
        ghost var m := View(procs, Collect(addition - i, tokenAcquired));
        if tokens > 0 {
          run := CollectTurn(s0, run, m);
          tokens := tokens - 1;
          tokenAcquired := tokenAcquired + 1;
        } else {
          run := MissedTurn(s0, run, m);
        }
      }
      run := CollectedTurn(s0, run, View(procs, Collect(0, tokenAcquired)));
    }

    /** One turn of the creating loop, with `more` tokens to go after it. */
    method FillOne(more: nat, ghost procs: seq<Pc>, ghost s0: St, ghost run0: seq<Label>, ghost q0: seq<Item>,
                   ghost cloud0: map<string, Port>)
      returns (ghost run: seq<Label>)
      requires Valid() && !locked && tokens < capacity
      requires Exec(s0, run0) == Some(View(procs, Fill(more))) && Grown(q0, cloud0, idle.Contents(), factory.cloud)
      modifies this`tokens, idle, idle.slots, factory
      ensures Valid() && (idle.slots == old(idle.slots) || fresh(idle.slots))
      ensures Exec(s0, run) == Some(View(procs, NextFill(more)))
      ensures idle.size + tokens == old(idle.size + tokens) + 1 && factory.faults <= old(factory.faults)
      ensures idle.size + old(factory.faults) - factory.faults == old(idle.size) + 1 && idle.size >= old(idle.size)
      ensures Grown(q0, cloud0, idle.Contents(), factory.cloud)
      ensures old(Undisturbed()) ==> Undisturbed()
    {
      hide Exec, Heap.Push, NextFill, Grown;
      ghost var s := View(procs, Fill(more));
      var made := factory.Create("");
      if made.None? {
        tokens := tokens + 1;
        run := FailedFillTurn(s0, run0, s);
      } else {
        AddIdle(made.value);
        GrownByOne(q0, cloud0, s.idle, s.cloud, made.value, factory.now);
        run := FillTurn(s0, run0, s, made.value, factory.now, View(procs, NextFill(more)));
      }
    }

    method CheckInsufficient(ghost procs: seq<Pc>) returns (ghost run: seq<Label>)
      requires Valid() && !locked
      modifies this`tokens, idle, idle.slots, factory
      ensures Valid() && (idle.slots == old(idle.slots) || fresh(idle.slots))
      ensures Exec(old(View(procs, Need)), run) == Some(View(procs, Rest))
      ensures idle.size + tokens == old(idle.size + tokens) && factory.faults <= old(factory.faults)
      // A port for each token taken, but for the creates that failed.
      ensures idle.size + old(factory.faults) - factory.faults
              == old(idle.size) + Max(0, Min(Addition(old(idle.size), |inuse|, minIdle, capacity), old(tokens)))
      ensures Grown(old(idle.Contents()), old(factory.cloud), idle.Contents(), factory.cloud)
      ensures old(Undisturbed()) ==> Undisturbed()
      ensures Addition(old(idle.size), |inuse|, minIdle, capacity) <= 0 ==> View(procs, Rest) == old(View(procs, Rest))
    {
      hide Exec, Grown;
      ghost var s0, q0, cloud0 := View(procs, Need), idle.Contents(), factory.cloud;
      GrownByNone(q0, cloud0);
      ghost var s1;
      run, s1 := NeedTurn(s0);
      var addition := NeedsAddition();
      if addition <= 0 {
        return;
      }
      var tokenAcquired;
      tokenAcquired, run := CollectTokens(addition, procs, s0, run);
      ghost var size0 := idle.size;
      for i := 0 to tokenAcquired
        invariant Valid() && (idle.slots == old(idle.slots) || fresh(idle.slots))
        invariant Exec(s0, run) == Some(View(procs, NextFill(tokenAcquired - i)))
        invariant idle.size + tokens + tokenAcquired - i == old(idle.size + tokens)
        invariant tokens + tokenAcquired - i <= capacity && factory.faults <= old(factory.faults)
        invariant idle.size + old(factory.faults) - factory.faults == size0 + i && idle.size >= size0
        invariant Grown(q0, cloud0, idle.Contents(), factory.cloud)
        invariant old(Undisturbed()) ==> Undisturbed()
      {
        run := FillOne(tokenAcquired - i - 1, procs, s0, run, q0, cloud0);
      }
    }

    /** Nothing pending, sane limits and enough tokens: what a tick needs to reach its target. */
    ghost predicate ReadyForTick()
      requires Valid()
      reads this, idle, idle.slots, factory
    {
      Undisturbed() && minIdle <= maxIdle && maxIdle >= 0
      && TokensSuffice(idle.size, |inuse|, tokens, maxIdle, capacity)
    }

    /**
     * One wake-up of the ticker: checkIdle, and checkInsufficient unless
     * checkIdle never returns. A ready pool reaches the target size and is
     * ready again, and a tick that starts at the target size changes nothing:
     * so a second tick after the first neither creates nor disposes.
     */
    method Tick(ghost procs: seq<Pc>) returns (exit: Exit, ghost run: seq<Label>)
      requires Valid() && !locked
      modifies this`tokens, this`locked, idle, idle.slots, factory
      ensures Valid() && (idle.slots == old(idle.slots) || fresh(idle.slots))
      ensures Exec(old(View(procs, Check(true))), run)
              == Some(View(procs, if exit == Finished then Rest else AfterExit(exit, true)))
      ensures factory.faults <= old(factory.faults)
      ensures exit == Finished ==>
                Refilled(old(idle.size), old(tokens), idle.size, tokens, |inuse|, minIdle, maxIdle, capacity,
                         old(factory.faults) - factory.faults)
      ensures old(ReadyForTick()) ==>
                exit == Finished
                && idle.size == TickTarget(old(idle.size), |inuse|, minIdle, maxIdle, capacity)
                && tokens == old(tokens) + old(idle.size) - idle.size
                && ReadyForTick()
                && idle.size == TickTarget(idle.size, |inuse|, minIdle, maxIdle, capacity)
      ensures old(ReadyForTick() && idle.size == TickTarget(idle.size, |inuse|, minIdle, maxIdle, capacity)) ==>
                View(procs, Rest) == old(View(procs, Rest))
    {
      hide TookEarliest, Exec, LeavesTarget, TickTarget, IdleTarget, Grown, Shrunk, Refilled, Addition;
      ghost var s0, calm, n := View(procs, Check(true)), ReadyForTick(), |inuse|;
      ghost var size0, tokens0 := idle.size, tokens;
      exit, run := CheckIdle(procs, true);
      ghost var left, tokens1, faults1 := idle.size, tokens, factory.faults;
      if calm {
        TickReachesTarget(size0, n, tokens0, minIdle, maxIdle, capacity, left, exit, 0);
        if size0 == TickTarget(size0, n, minIdle, maxIdle, capacity) {
          TargetIsQuiet(size0, n, minIdle, maxIdle, capacity);
        }
      }
      if exit != Finished {
        return;
      }
      ghost var s1 := View(procs, Check(true));
      ghost var run2 := CheckInsufficient(procs);
      ShrunkAndRefilled(size0, tokens0, left, tokens1, idle.size, tokens, n, minIdle, maxIdle, capacity,
                        faults1 - factory.faults, old(factory.faults) - factory.faults);
      run := WholeTick(s0, run, s1, run2, View(procs, Rest));
      if calm {
        TickReachesTarget(size0, n, tokens0, minIdle, maxIdle, capacity, left, exit, idle.size);
        ReadyAgain(size0, n, tokens0, minIdle, maxIdle, capacity, idle.size, tokens);
      }
    }
  }
}
