/**
 * `daemonServer` of pkg/daemon/daemon.go as a class over the storage and the
 * pool: each call, run without interference, is a run of the daemon's step
 * system, and a restart is its `Restart` step.
 */
module Daemons {
  import opened PoolTypes
  import opened PoolSteps
  import SequentialRuns
  import opened PoolInvariant
  import opened Environments
  import opened ObjectPools
  import opened PortManagers
  import opened Storages
  import opened Recovery
  import opened Ownership
  import opened OwnershipResults
  import opened Startup
  import Heap

  /** What allocatePortIP passes on as the resource to ask for. */
  method OldResourceId(found: Result<PodResources>) returns (id: string)
    ensures id == OldId(if found.Ok? then Some(found.value) else None)
  {
    if found.Err? {
      return "";
    }
    var oldRes := GetResourceItemByType(found.value.resources, RESOURCE_TYPE_MULTIPLE_IP);
    if found.value.pod.None? || |oldRes| != 1 {
      return "";
    }
    return oldRes[0].id;
  }

  // ----- which port a pod gets -----

  /** The port is the only one on the pod's record. */
  ghost predicate RecordNames(store: map<string, PodResources>, pod: string, id: string) {
    pod in store && OnlyPort(store[pod], id)
  }

  /** The pod has the record that AllocateIP writes for the port. */
  ghost predicate Holds(store: map<string, PodResources>, pod: string, id: string) {
    pod in store && store[pod] == RecordFor(pod, id)
  }

  /** Such a record names its port and no other. */
  lemma HeldIsNamed(store: map<string, PodResources>, pod: string, id: string)
    requires Holds(store, pod, id)
    ensures forall other :: RecordNames(store, pod, other) <==> other == id
  {
    OnlyPortOfWritten(pod, id);
  }

  /** The port of an idle item with the least reservation time. */
  ghost predicate OfLeast(q: seq<Item>, p: Port) {
    exists x | x in q :: x.port == p && forall y | y in q :: x.reverse <= y.reverse
  }

  /**
   * A pod that asks for no address gets the port on its record if that is idle,
   * else the port at the root of the queue, else a new one.
   */
  ghost predicate DynamicPort(s: Sys, pod: string, p: Port) {
    var q := s.pool.idle;
    && (forall x | x in q && RecordNames(s.db, pod, x.port.id) :: p == x.port)
    && (q != [] && (forall x | x in q :: !RecordNames(s.db, pod, x.port.id)) ==>
          p == q[0].port && (Heap.IsHeap(q) ==> OfLeast(q, p)))
    && (q == [] ==> Size(s.pool) < s.pool.cfg.capacity && s.pool.tokens > 0 && p.id !in s.pool.cloud)
  }

  /** An error it gets only without an idle port, at the capacity, without a token in time, or from Neutron. */
  ghost predicate DynamicError(s: Sys, ctxDone: bool, failed: bool, e: Error) {
    && s.pool.idle == []
    && match e
       case NoAvailableResource => Size(s.pool) >= s.pool.cfg.capacity
       case ContextDone => Size(s.pool) < s.pool.cfg.capacity && (ctxDone || s.pool.tokens == 0)
       case CreateFailed => Size(s.pool) < s.pool.cfg.capacity && s.pool.tokens > 0 && failed
       case _ => false
  }

  /** A pod that asks for an address gets the first idle port that has it if the address is listed, else a new one. */
  ghost predicate StaticPort(s: St, ip: string, others: seq<Port>, p: Port) {
    p.ip == ip && if AddressListed(ip, s.cloud, others) then FirstWithAddress(ip, s.idle, p) else p.id !in s.cloud
  }

  /** An error it gets only for a bad address, an address taken by a port not idle here, or from Neutron. */
  ghost predicate StaticError(s: St, a: Annotations, parses: bool, others: seq<Port>, failed: bool, e: Error) {
    if a.ipAddress == "" || !parses then e == BadAddress
    else
      || (failed && (e == ListFailed || e == BadAddress))
      || (e == AddressOccupied && AddressListed(a.ipAddress, s.cloud, others) && !AddressIdle(a.ipAddress, s.idle))
  }

  ghost predicate StaticAnswer(s: St, a: Annotations, parses: bool, others: seq<Port>, failed: bool, r: Result<Port>) {
    match r
    case Ok(p) => a.ipAddress != "" && parses && StaticPort(s, a.ipAddress, others, p)
    case Err(e) => StaticError(s, a, parses, others, failed, e)
  }

  /** What the pool answers a pod when it is in state s, `failed` if a call to Neutron failed. */
  ghost predicate Answer(s: Sys, pod: string, a: Annotations, parses: bool, others: seq<Port>, ctxDone: bool,
                         failed: bool, r: Result<Port>) {
    if a.ipAddress == "" && a.ipPool == "" then
      match r
      case Ok(p) => DynamicPort(s, pod, p)
      case Err(e) => DynamicError(s, ctxDone, failed, e)
    else
      StaticAnswer(s.pool, a, parses, others, failed, r)
  }

  /** Enough for the pod to be given a port, with `sound` saying that no call to Neutron fails. */
  ghost predicate Serves(s: Sys, a: Annotations, parses: bool, others: seq<Port>, ctxDone: bool, sound: bool) {
    if a.ipAddress == "" && a.ipPool == "" then
      s.pool.idle != [] || (Size(s.pool) < s.pool.cfg.capacity && s.pool.tokens > 0 && !ctxDone && sound)
    else
      && a.ipAddress != "" && parses && sound
      && (AddressIdle(a.ipAddress, s.pool.idle) || !AddressListed(a.ipAddress, s.pool.cloud, others))
  }

  /** Then the pool answers with a port: without faults, and in time, exactly then. */
  lemma ServesExactly(s: Sys, pod: string, a: Annotations, parses: bool, others: seq<Port>, ctxDone: bool,
                      failed: bool, r: Result<Port>)
    requires Answer(s, pod, a, parses, others, ctxDone, failed, r)
    ensures Serves(s, a, parses, others, ctxDone, !failed) ==> r.Ok?
    ensures r.Ok? ==> Serves(s, a, parses, others, false, true)
  {
    hide AddressListed;
    if r.Ok? && !(a.ipAddress == "" && a.ipPool == "") && AddressListed(a.ipAddress, s.pool.cloud, others) {
      var i :| 0 <= i < |s.pool.idle| && s.pool.idle[i].port == r.value;
      assert s.pool.idle[i] in s.pool.idle;
    }
  }

  lemma AnswerMeans(s: Sys, pod: string, a: Annotations, parses: bool, others: seq<Port>, ctxDone: bool,
                    failed: bool, sound: bool, r: Result<Port>)
    requires Answer(s, pod, a, parses, others, ctxDone, failed, r) && (sound ==> !failed)
    ensures Serves(s, a, parses, others, ctxDone, sound) ==> r.Ok?
    ensures a.ipAddress != "" && r.Ok? ==> r.value.ip == a.ipAddress
    ensures r.Err? ==> r.error != StoreFailed
  {
    hide AddressListed, FirstWithAddress, AddressIdle, OfLeast, RecordNames, Heap.IsHeap;
  }

  /** The port on the pod's record, if idle, is what the pod gets; without a record, one of least reservation time. */
  lemma IdleAnswer(s: Sys, pod: string, a: Annotations, parses: bool, others: seq<Port>, ctxDone: bool,
                   failed: bool, r: Result<Port>)
    requires Answer(s, pod, a, parses, others, ctxDone, failed, r) && a.ipAddress == "" && a.ipPool == ""
    ensures forall x | x in s.pool.idle :: RecordNames(s.db, pod, x.port.id) ==> r == Ok(x.port)
    ensures pod !in s.db && s.pool.idle != [] && Heap.IsHeap(s.pool.idle) ==> r.Ok? && OfLeast(s.pool.idle, r.value)
  {
    hide OnlyPort, OfLeast, Heap.IsHeap;
  }

  /**
   * What AllocateIP makes of the pool's answer: the pod owns the port and has
   * its record, or the write did not work and it has neither.
   */
  ghost predicate Allocated(s: Sys, codec: Codec<PodResources>, pod: string, answer: Result<Port>, confOk: bool,
                            failed: bool, r: Result<Port>, e: Sys) {
    && PutInUse(s.pool.inuse, answer, e.pool.inuse)
    && if answer.Err? then r == answer && e.owner == s.owner && e.db == s.db
       else Written(s.owner, s.db, codec, pod, answer.value, confOk, failed, r, e.owner, e.db)
  }

  ghost predicate Written(owner: map<string, string>, db: map<string, PodResources>, codec: Codec<PodResources>,
                          pod: string, p: Port, confOk: bool, failed: bool, r: Result<Port>,
                          owner': map<string, string>, db': map<string, PodResources>) {
    || (r == Err(StoreFailed) && (failed || codec.serializer(RecordFor(pod, p.id)).None?)
        && owner' == owner && db' == db)
    || (r == (if confOk then Ok(p) else Err(InvalidState))
        && owner' == owner[pod := p.id] && db' == db[pod := RecordFor(pod, p.id)])
  }

  lemma AllocatedMeans(s: Sys, codec: Codec<PodResources>, pod: string, answer: Result<Port>, confOk: bool,
                       failed: bool, r: Result<Port>, e: Sys)
    requires Allocated(s, codec, pod, answer, confOk, failed, r, e)
    ensures r.Ok? ==> r == answer && e.owner == s.owner[pod := r.value.id]
    ensures answer.Ok? && confOk && !failed && (forall id :: codec.serializer(RecordFor(pod, id)).Some?) ==> r.Ok?
  {
  }

  /** A port is put in use for the pod, or nothing is. */
  ghost predicate PutInUse(inuse: map<string, Port>, r: Result<Port>, inuse': map<string, Port>) {
    inuse' == if r.Ok? then inuse[r.value.id := r.value] else inuse
  }

  lemma RecordedPort(s: St, prefer: string, x: Item)
    requires Genuine(s) && x in s.idle && prefer == x.port.id
    ensures GetOne(s.idle, prefer).0.port == x.port
  {
    hide Genuine, Heap.RobAt, Heap.Pop;
    var k :| 0 <= k < |s.idle| && s.idle[k] == x;
    IdlePortIsFound(s, k);
  }

  lemma UnrecordedPort(q: seq<Item>, prefer: string)
    requires q != [] && (prefer == "" || forall x | x in q :: x.port.id != prefer)
    ensures GetOne(q, prefer).0 == q[0]
    ensures Heap.IsHeap(q) ==> OfLeast(q, q[0].port)
  {
    hide Heap.RobAt, Heap.Pop;
    assert q[0] in q;
    if Heap.IsHeap(q) {
      Heap.RootIsLeastMember(q);
    }
  }

  lemma IdlePort(s: Sys, pod: string, p: Port)
    requires Genuine(s.pool) && s.pool.idle != [] && p == GetOne(s.pool.idle, Prefer(s, pod)).0.port
    ensures DynamicPort(s, pod, p)
  {
    hide Genuine, GetOne, OfLeast, Heap.IsHeap, OldId, OnlyPort;
    var q := s.pool.idle;
    forall x | x in q && RecordNames(s.db, pod, x.port.id)
      ensures p == x.port
    {
      OldIdIsOnlyPort(s.db[pod], x.port.id);
      RecordedPort(s.pool, Prefer(s, pod), x);
    }
    if forall x | x in q :: !RecordNames(s.db, pod, x.port.id) {
      NothingPreferred(s, pod);
      UnrecordedPort(q, Prefer(s, pod));
    }
  }

  lemma NothingPreferred(s: Sys, pod: string)
    requires forall x | x in s.pool.idle :: !RecordNames(s.db, pod, x.port.id)
    ensures Prefer(s, pod) == "" || forall x | x in s.pool.idle :: x.port.id != Prefer(s, pod)
  {
    hide OnlyPort;
    if pod in s.db {
      OldIdIsOnlyPort(s.db[pod], Prefer(s, pod));
    }
  }

  /** What Acquire answers, naming the port `resId`. */
  ghost predicate Acquired(s: St, resId: string, ctxDone: bool, failed: bool, r: Result<Port>) {
    match r
    case Ok(p) =>
      if s.idle != [] then p == GetOne(s.idle, resId).0.port
      else Size(s) < s.cfg.capacity && s.tokens > 0 && p.id !in s.cloud
    case Err(e) =>
      && s.idle == []
      && (e == NoAvailableResource || e == ContextDone || e == CreateFailed)
      && (e == NoAvailableResource <==> Size(s) >= s.cfg.capacity)
      && (e == ContextDone ==> ctxDone || s.tokens == 0)
      && (e == CreateFailed ==> s.tokens > 0 && failed)
  }

  lemma StaticAnswers(s: Sys, pod: string, a: Annotations, parses: bool, others: seq<Port>, ctxDone: bool,
                      failed: bool, r: Result<Port>)
    requires StaticAnswer(s.pool, a, parses, others, failed, r) && RequireStaticIP(a)
    ensures Answer(s, pod, a, parses, others, ctxDone, failed, r) && !(a.ipAddress == "" && a.ipPool == "")
    ensures r.Ok? ==> r.value.ip == a.ipAddress
  {
    hide AddressListed, FirstWithAddress, StaticError;
  }

  lemma DynamicAnswers(s: Sys, pod: string, a: Annotations, parses: bool, others: seq<Port>, ctxDone: bool,
                       failed: bool, r: Result<Port>)
    requires Own(s) && Acquired(s.pool, Prefer(s, pod), ctxDone, failed, r) && !RequireStaticIP(a)
    ensures Answer(s, pod, a, parses, others, ctxDone, failed, r)
  {
    hide Genuine, GetOne, RecordNames, OldId, Placed, Conserved, Owned, Pending;
    if r.Ok? && s.pool.idle != [] {
      IdlePort(s, pod, r.value);
    }
  }

  // ----- lifting runs of the pool -----

  lemma {:induction false} LiftRun(s: Sys, run0: seq<Act>, m: Sys, ls: seq<Label>, p: St) returns (run: seq<Act>)
    requires ExecSys(s, run0) == Some(m) && Exec(m.pool, ls) == Some(p) && AllInternal(ls)
    ensures ExecSys(s, run) == Some(m.(pool := p))
    ensures SafeRun(s, run0) ==> SafeRun(s, run)
  {
    if ls == [] {
      run := run0;
    } else {
      var n := |ls| - 1;
      var p1 := Exec(m.pool, ls[..n]).value;
      run := LiftRun(s, run0, m, ls[..n], p1);
      run := OneMore(s, run, m.(pool := p1), Pool(ls[n]), m.(pool := p));
    }
  }

  lemma OneMore(s: Sys, run0: seq<Act>, m: Sys, a: Act, e: Sys) returns (run: seq<Act>)
    requires ExecSys(s, run0) == Some(m) && NextSys(m, a) == Some(e)
    requires SafeAct(m, a)
    ensures ExecSys(s, run) == Some(e)
    ensures SafeRun(s, run0) ==> SafeRun(s, run)
  {
    ExtendSys(s, run0, m, a, e);
    run := run0 + [a];
    assert run[..|run| - 1] == run0;
  }

  /** An AllocateIP call as far as the pool's answer. */
  lemma AllocRun(s: Sys, pod: string, how: How, pc: Pc, ls: seq<Label>, p: St) returns (run: seq<Act>)
    requires s.reqs == map[] && s.pool.procs == []
    requires (pc.Start? && CallOf(s, pod, how) == Spawn(pc.prefer))
             || (pc.StaticCreate? && CallOf(s, pod, how) == SpawnStatic(pc.ip))
    requires Exec(s.pool.(procs := [pc]), ls) == Some(p) && AllInternal(ls)
    ensures ExecSys(s, run) == Some(s.(pool := p, reqs := map[0 := pod])) && SafeRun(s, run)
  {
    var m := s.(pool := s.pool.(procs := [pc]), reqs := map[0 := pod]);
    assert s.pool.procs + [pc] == [pc];
    run := OneMore(s, [], s, Alloc(pod, how), m);
    hide Exec, Next;
    run := LiftRun(s, run, m, ls, p);
  }

  /** A whole AllocateIP call without an address, up to the database write. */
  lemma DynamicRun(s: Sys, pod: string, prefer: string, ls: seq<Label>, p: St) returns (run: seq<Act>)
    requires s.reqs == map[] && s.pool.procs == [] && prefer == Prefer(s, pod)
    requires Exec(s.pool.(procs := [Start(prefer)]), ls) == Some(p) && AllInternal(ls)
    requires |p.procs| == 1 && p.procs[0].Done?
    ensures SafeRun(s, run)
    ensures ExecSys(s, run) == Some(s.(pool := p, reqs := if p.procs == [Done(None)] then map[] else map[0 := pod]))
  {
    hide Exec, ExecSys, SafeRun, NextSys;
    run := AllocRun(s, pod, Dynamic, Start(prefer), ls, p);
    if p.procs == [Done(None)] {
      var m := s.(pool := p, reqs := map[0 := pod]);
      run := FailRun(s, run, m, pod);
      assert m.(reqs := map[]) == s.(pool := p, reqs := map[]);
    }
  }

  lemma StaticRun(s: Sys, pod: string, ip: string, p: Port, begun: Pc, ls: seq<Label>, e: Sys) returns (run: seq<Act>)
    requires s.reqs == map[] && s.pool.procs == []
    requires begun == StaticCreate(ip) || begun == Start(p.id)
    requires Exec(s.pool.(procs := [begun]), ls) == Some(e.pool) && AllInternal(ls)
    requires e.db == s.db && e.owner == s.owner && e.reqs == map[0 := pod] && e.rels == s.rels
    ensures ExecSys(s, run) == Some(e) && SafeRun(s, run)
  {
    hide Exec, ExecSys, SafeRun;
    run := AllocRun(s, pod, if begun.Start? then StaticIdle(p.id) else StaticNew(ip), begun, ls, e.pool);
  }

  lemma FailRun(s: Sys, run0: seq<Act>, m: Sys, pod: string) returns (run: seq<Act>)
    requires ExecSys(s, run0) == Some(m) && SafeRun(s, run0)
    requires m.reqs == map[0 := pod] && m.pool.procs == [Done(None)]
    ensures ExecSys(s, run) == Some(m.(reqs := map[])) && SafeRun(s, run)
  {
    assert m.reqs - {0} == map[];
    run := OneMore(s, run0, m, Fail(0), m.(reqs := map[]));
  }

  lemma RecordRun(s: Sys, run0: seq<Act>, m: Sys, pod: string, p: Port, stored: bool) returns (run: seq<Act>, e: Sys)
    requires ExecSys(s, run0) == Some(m) && SafeRun(s, run0)
    requires m.reqs == map[0 := pod] && m.pool.procs == [Done(Some(p))]
    ensures ExecSys(s, run) == Some(e) && SafeRun(s, run)
    ensures e == if stored then m.(reqs := map[], db := m.db[pod := RecordFor(pod, p.id)], owner := m.owner[pod := p.id])
                 else m.(reqs := map[])
  {
    e := if stored then m.(reqs := map[], db := m.db[pod := RecordFor(pod, p.id)], owner := m.owner[pod := p.id])
         else m.(reqs := map[]);
    assert m.reqs - {0} == map[];
    run := OneMore(s, run0, m, Record(0, stored), e);
  }

  /** The finished callers of a request play no part in what follows. */
  lemma ForgetCallers(s: Sys, s': Sys)
    requires Own(s) && s.reqs == map[] && s' == s.(pool := s.pool.(procs := []))
    ensures Own(s')
  {
    forall t | 0 <= t < |s.pool.procs|
      ensures s.pool.procs[t].Done?
    {
      assert t !in s.reqs;
    }
    FinishedHoldNothing(s.pool.procs);
    forall id
      ensures Places(s'.pool, id) == One(id in s'.pool.cloud)
    {
      assert Places(s.pool, id) == One(id in s.pool.cloud);
    }
  }

  lemma {:induction false} FinishedHoldNothing(procs: seq<Pc>)
    requires forall t | 0 <= t < |procs| :: procs[t].Done?
    ensures ProcTokens(procs) == 0 && forall id :: CountProcs(procs, id) == 0
  {
    if procs != [] {
      FinishedHoldNothing(procs[..|procs| - 1]);
    }
  }

  /** Every entry can be decoded, every record can be logged and the limits are in order. */
  ghost predicate Startable(codec: Codec<PodResources>, bucket: map<string, Data>, podsUsage: set<string>,
                            minIdle: int, maxIdle: int, capacity: int) {
    && Decoded(codec, bucket).Some? && AllLoggable(Decoded(codec, bucket).value, podsUsage)
    && minIdle <= maxIdle <= capacity && capacity >= 0
  }

  class DaemonServer {
    const resourceDB: DiskStorage<PodResources>
    const portManager: PortResourceManager
    /** History: the port each pod was given and has not released. */
    ghost var owner: map<string, string>

    constructor (resourceDB: DiskStorage<PodResources>, portManager: PortResourceManager,
                 ghost owner: map<string, string>)
      ensures this.resourceDB == resourceDB && this.portManager == portManager && this.owner == owner
    {
      this.resourceDB := resourceDB;
      this.portManager := portManager;
      this.owner := owner;
    }

    /** The database and its inverse. */
    static method LoadRecords(db: Bolt, codec: Codec<PodResources>, podsUsage: set<string>)
      returns (disk: Result<DiskStorage<PodResources>>, mapping: map<string, seq<string>>)
      requires RoundTrip(codec)
      modifies db`created, db`faults
      ensures disk.Ok? ==>
                fresh(disk.value) && fresh(disk.value.memory) && disk.value.db == db && disk.value.codec == codec
                && disk.value.Valid() && Decoded(codec, db.bucket) == Some(disk.value.memory.store)
                && AllLoggable(disk.value.memory.store, podsUsage)
                && mapping.Keys == RecordedIds(disk.value.memory.store)
      ensures disk.Err? ==>
                db.faults < old(db.faults) || Decoded(codec, db.bucket).None?
                || !AllLoggable(Decoded(codec, db.bucket).value, podsUsage)
    {
      hide Inverts, Coherent, RoundTrip, Decoded, AllLoggable, RecordedIds;
      disk := DiskStorage.NewDiskStorage(db, codec);
      mapping := map[];
      if disk.Err? {
        return;
      }
      var records, keys := disk.value.List();
      LoggableExactly(disk.value.memory.store, records, keys, podsUsage);
      var inverse := GetPortsMapping(podsUsage, records);
      if inverse.Err? {
        return Err(inverse.error), mapping;
      }
      MappedAreRecorded(disk.value.memory.store, records, keys, inverse.value);
      return disk, inverse.value;
    }

    /**
     * newDaemonServer: load the database, invert it, fill the pool. `before` is
     * the system when the last process ended: the same listing of ports and the
     * same database. The new process is one Restart step away from it, so it
     * leaves every pod the port it had.
     */
    static method NewDaemonServer(db: Bolt, codec: Codec<PodResources>, factory: Environment, podsUsage: set<string>,
                                  minIdle: int, maxIdle: int, capacity: int, ghost before: Sys)
      returns (r: Result<DaemonServer>)
      requires RoundTrip(codec) && "" !in factory.cloud && forall k | k in factory.cloud :: factory.cloud[k].id == k
      requires before.pool.cloud == factory.cloud && before.pool.now <= factory.now
      requires Decoded(codec, db.bucket).Some? ==> before.db == Decoded(codec, db.bucket).value
      modifies db`created, db`faults, factory
      ensures r.Ok? ==>
                var d := r.value;
                d.Ready()
                && NextSys(before, Restart(d.portManager.pool.View([], Check(false)))) == Some(d.View([], Check(false)))
                && (Own(before) ==> d.Valid(Check(false)))
                && d.resourceDB.db == db && d.resourceDB.codec == codec && d.portManager.pool.factory == factory
                && Decoded(codec, db.bucket) == Some(d.resourceDB.memory.store)
      ensures r.Ok? ==>
                var pool := r.value.portManager.pool;
                && pool.minIdle == minIdle && pool.maxIdle == (if maxIdle == 0 then 20 else maxIdle)
                && pool.capacity == (if capacity == 0 then 50 else capacity)
                && RecoveredPool(pool.View([], Check(false)), old(factory.cloud),
                                 RecordedIds(r.value.resourceDB.memory.store))
      // It comes up if and only if it can, but for failures of the database and Neutron.
      ensures r.Ok? ==> Startable(codec, db.bucket, podsUsage, minIdle, maxIdle, capacity)
      ensures r.Err? ==>
                db.faults < old(db.faults) || factory.faults < old(factory.faults)
                || !Startable(codec, db.bucket, podsUsage, minIdle, maxIdle, capacity)
    {
      hide Own, Started, NextSys, Coherent, RoundTrip, Decoded, AllLoggable, RecordedIds, RecoveredPool;
      var disk, mapping := LoadRecords(db, codec, podsUsage);
      if disk.Err? {
        return Err(disk.error);
      }
      var pool := SimpleObjectPool.NewSimpleObjectPool(factory, minIdle, maxIdle, capacity, mapping);
      if pool.Err? {
        return Err(pool.error);
      }
      var manager := new PortResourceManager(pool.value);
      var d := new DaemonServer(disk.value, manager, before.owner);
      RecoveredLists(pool.value.View([], Check(false)), old(factory.cloud), mapping.Keys);
      RestartStep(before, pool.value.View([], Check(false)), d.View([], Check(false)));
      return Ok(d);
    }

    ghost predicate Ready()
      reads this, resourceDB, resourceDB.db, resourceDB.memory
      reads portManager.pool, portManager.pool.idle, portManager.pool.idle.slots, portManager.pool.factory
    {
      && resourceDB.Valid() && RoundTrip(resourceDB.codec)
      && portManager.pool.Valid() && !portManager.pool.locked
    }

    ghost function View(procs: seq<Pc>, ticker: Ticker): (r: Sys)
      requires portManager.pool.Valid()
      reads this, resourceDB, resourceDB.memory
      reads portManager.pool, portManager.pool.idle, portManager.pool.idle.slots, portManager.pool.factory
    {
      Sys(portManager.pool.View(procs, ticker), resourceDB.memory.store, owner, map[], map[])
    }

    /** No request in flight, the lock to be had, every port placed and every pod's port its own. */
    ghost predicate Valid(ticker: Ticker)
      reads this, resourceDB, resourceDB.db, resourceDB.memory
      reads portManager.pool, portManager.pool.idle, portManager.pool.idle.slots, portManager.pool.factory
    {
      Ready() && !ticker.Wedged? && Own(View([], ticker))
    }

    /** The pool's answer when the pod asks for no address: Acquire naming the recorded port. */
    method AllocateDynamic(pod: string, ctxDone: bool, ghost ticker: Ticker)
      returns (r: Result<Port>, ghost run: seq<Act>)
      requires Valid(ticker)
      modifies portManager.pool`inuse, portManager.pool`tokens
      modifies portManager.pool.idle, portManager.pool.idle.slots, portManager.pool.factory
      ensures Ready()
      ensures r.Ok? ==>
                ExecSys(old(View([], ticker)), run) == Some(View([Done(Some(r.value))], ticker).(reqs := map[0 := pod]))
      ensures r.Err? ==> ExecSys(old(View([], ticker)), run) == Some(View([Done(None)], ticker))
      ensures SafeRun(old(View([], ticker)), run)
      ensures Acquired(old(portManager.pool.View([], ticker)), Prefer(old(View([], ticker)), pod), ctxDone,
                       portManager.pool.factory.faults < old(portManager.pool.factory.faults), r)
      ensures PutInUse(old(portManager.pool.inuse), r, portManager.pool.inuse)
    {
      hide Own, Exec, ExecSys, SafeRun, AllInternal, Coherent, RoundTrip, Acquired, PutInUse;
      ghost var s := View([], ticker);
      var oldRes := resourceDB.Get(pod);
      var oldResId := OldResourceId(oldRes);
      ghost var ls;
      r, ls := AcquireNamed(oldResId, ctxDone, ticker);
      ghost var p := portManager.pool.View([Done(SequentialRuns.Outcome(r))], ticker);
      run := DynamicRun(s, pod, oldResId, ls, p);
    }

    /** Acquire on behalf of a request, when no other caller is about. */
    method AcquireNamed(resId: string, ctxDone: bool, ghost ticker: Ticker)
      returns (r: Result<Port>, ghost ls: seq<Label>)
      requires portManager.pool.Valid() && !portManager.pool.locked && !ticker.Wedged?
      modifies portManager.pool`inuse, portManager.pool`tokens
      modifies portManager.pool.idle, portManager.pool.idle.slots, portManager.pool.factory
      ensures portManager.pool.Valid() && portManager.pool.idle.slots == old(portManager.pool.idle.slots)
      ensures Exec(old(portManager.pool.View([Start(resId)], ticker)), ls)
              == Some(portManager.pool.View([Done(SequentialRuns.Outcome(r))], ticker))
      ensures AllInternal(ls)
      ensures Acquired(old(portManager.pool.View([], ticker)), resId, ctxDone,
                       portManager.pool.factory.faults < old(portManager.pool.factory.faults), r)
      ensures PutInUse(old(portManager.pool.inuse), r, portManager.pool.inuse)
    {
      hide Exec, GetOne, AllInternal;
      r, ls := portManager.pool.Acquire(resId, ctxDone, [Start(resId)], 0, ticker);
      assert [Start(resId)][0 := Done(SequentialRuns.Outcome(r))] == [Done(SequentialRuns.Outcome(r))];
    }

    /** The pool's answer when the pod asks for an address. */
    method AllocateStatic(pod: string, a: Annotations, parses: bool, others: seq<Port>, ctxDone: bool,
                          ghost ticker: Ticker)
      returns (r: Result<Port>, ghost run: seq<Act>)
      requires Valid(ticker)
      modifies portManager.pool`inuse, portManager.pool`tokens, portManager.pool`statics
      modifies portManager.pool.idle, portManager.pool.idle.slots, portManager.pool.factory
      ensures Ready()
      ensures r.Ok? ==>
                ExecSys(old(View([], ticker)), run) == Some(View([Done(Some(r.value))], ticker).(reqs := map[0 := pod]))
      ensures r.Err? ==> ExecSys(old(View([], ticker)), run) == Some(View([], ticker))
      ensures SafeRun(old(View([], ticker)), run)
      ensures StaticAnswer(old(portManager.pool.View([], ticker)), a, parses, others,
                           portManager.pool.factory.faults < old(portManager.pool.factory.faults), r)
      ensures PutInUse(old(portManager.pool.inuse), r, portManager.pool.inuse)
    {
      hide Own, Exec, ExecSys, SafeRun, Genuine, AllInternal, Coherent, RoundTrip, StaticAnswer, PutInUse;
      ghost var s := View([], ticker);
      ghost var ls, begun;
      AtRest(s, portManager.pool.View([], Rest));
      r, begun, ls := AcquireAddress(a, parses, others, ctxDone, ticker);
      run := [];
      if r.Ok? {
        ghost var e := View([Done(Some(r.value))], ticker).(reqs := map[0 := pod]);
        run := StaticRun(s, pod, a.ipAddress, r.value, begun, ls, e);
      }
    }

    /** acquireStaticAddress on behalf of a request, when no other caller is about. */
    method AcquireAddress(a: Annotations, parses: bool, others: seq<Port>, ctxDone: bool, ghost ticker: Ticker)
      returns (r: Result<Port>, ghost begun: Pc, ghost ls: seq<Label>)
      requires portManager.Valid() && !ticker.Wedged?
      modifies portManager.pool`inuse, portManager.pool`tokens, portManager.pool`statics
      modifies portManager.pool.idle, portManager.pool.idle.slots, portManager.pool.factory
      ensures portManager.pool.Valid()
      ensures portManager.pool.idle.slots == old(portManager.pool.idle.slots) || fresh(portManager.pool.idle.slots)
      ensures r.Ok? ==>
                r.value.ip == a.ipAddress && AllInternal(ls)
                && (begun == StaticCreate(a.ipAddress) || begun == Start(r.value.id))
                && Exec(old(portManager.pool.View([begun], ticker)), ls)
                   == Some(portManager.pool.View([Done(Some(r.value))], ticker))
      ensures r.Err? ==> portManager.pool.View([], ticker) == old(portManager.pool.View([], ticker))
      ensures StaticAnswer(old(portManager.pool.View([], ticker)), a, parses, others,
                           portManager.pool.factory.faults < old(portManager.pool.factory.faults), r)
      ensures PutInUse(old(portManager.pool.inuse), r, portManager.pool.inuse)
    {
      hide Exec, Genuine, AllInternal, AddressListed, AddressIdle, FirstWithAddress;
      r, begun, ls := portManager.AcquireStaticAddress(a, parses, others, ctxDone, [Done(None)], 0, ticker);
      if r.Ok? {
        assert [Done(None)][0 := begun] == [begun] && [Done(None)][0 := Done(Some(r.value))] == [Done(Some(r.value))];
      }
    }

    /** The answer of the pool, whichever way it was asked. */
    method AllocatePortIP(pod: string, a: Annotations, parses: bool, others: seq<Port>, ctxDone: bool,
                          ghost ticker: Ticker)
      returns (r: Result<Port>, ghost procs: seq<Pc>, ghost run: seq<Act>)
      requires Valid(ticker)
      modifies portManager.pool`inuse, portManager.pool`tokens, portManager.pool`statics
      modifies portManager.pool.idle, portManager.pool.idle.slots, portManager.pool.factory
      ensures Ready()
      ensures r.Ok? ==>
                procs == [Done(Some(r.value))]
                && ExecSys(old(View([], ticker)), run) == Some(View(procs, ticker).(reqs := map[0 := pod]))
      ensures r.Err? ==> ExecSys(old(View([], ticker)), run) == Some(View(procs, ticker))
      ensures SafeRun(old(View([], ticker)), run)
      ensures Answer(old(View([], ticker)), pod, a, parses, others, ctxDone,
                     portManager.pool.factory.faults < old(portManager.pool.factory.faults), r)
      ensures PutInUse(old(portManager.pool.inuse), r, portManager.pool.inuse)
      // In particular the port on the record, if idle, and without a record one of least reservation time.
      ensures a.ipAddress == "" && a.ipPool == "" ==>
                forall x | x in old(portManager.pool.idle.Contents()) ::
                  RecordNames(old(resourceDB.memory.store), pod, x.port.id) ==> r == Ok(x.port)
      ensures a.ipAddress == "" && a.ipPool == "" && pod !in old(resourceDB.memory.store)
              && old(portManager.pool.idle.Contents()) != [] && Heap.IsHeap(old(portManager.pool.idle.Contents())) ==>
                r.Ok? && OfLeast(old(portManager.pool.idle.Contents()), r.value)
      ensures a.ipAddress != "" && r.Ok? ==> r.value.ip == a.ipAddress
    {
      hide Own, ExecSys, SafeRun, Coherent, RoundTrip, Acquired, StaticAnswer, Answer, PutInUse, RecordNames;
      hide OfLeast, Heap.IsHeap;
      ghost var s := View([], ticker);
      if RequireStaticIP(a) {
        r, run := AllocateStatic(pod, a, parses, others, ctxDone, ticker);
        procs := if r.Ok? then [Done(Some(r.value))] else [];
        ghost var failed := portManager.pool.factory.faults < old(portManager.pool.factory.faults);
        StaticAnswers(s, pod, a, parses, others, ctxDone, failed, r);
      } else {
        r, run := AllocateDynamic(pod, ctxDone, ticker);
        procs := if r.Ok? then [Done(Some(r.value))] else [Done(None)];
        ghost var failed := portManager.pool.factory.faults < old(portManager.pool.factory.faults);
        DynamicAnswers(s, pod, a, parses, others, ctxDone, failed, r);
        IdleAnswer(s, pod, a, parses, others, ctxDone, failed, r);
      }
    }

    /**
     * AllocateIP. `confOk` stands for what follows the database write: a
     * network configuration could be made and the connection is still there.
     * `answer` is what the pool said. The call is a run of the daemon's steps;
     * a success makes the pod own the port, which is recorded and in use; every
     * other pod keeps its own. A pod with a port that could not be recorded
     * does not own it, though it stays in use.
     */
    method AllocateIP(pod: string, a: Annotations, parses: bool, others: seq<Port>, ctxDone: bool, confOk: bool,
                      ghost ticker: Ticker)
      returns (r: Result<Port>, ghost answer: Result<Port>, ghost procs: seq<Pc>, ghost run: seq<Act>)
      requires Valid(ticker)
      modifies this`owner, resourceDB.db`bucket, resourceDB.db`faults, resourceDB.memory
      modifies portManager.pool`inuse, portManager.pool`tokens, portManager.pool`statics
      modifies portManager.pool.idle, portManager.pool.idle.slots, portManager.pool.factory
      ensures Valid(ticker)
      ensures ExecSys(old(View([], ticker)), run) == Some(View(procs, ticker)) && SafeRun(old(View([], ticker)), run)
      ensures Answer(old(View([], ticker)), pod, a, parses, others, ctxDone,
                     portManager.pool.factory.faults < old(portManager.pool.factory.faults), answer)
      ensures Allocated(old(View([], ticker)), resourceDB.codec, pod, answer, confOk,
                        resourceDB.db.faults < old(resourceDB.db.faults), r, View(procs, ticker))
      ensures r.Ok? ==>
                r.value.id in portManager.pool.inuse && (a.ipAddress != "" ==> r.value.ip == a.ipAddress)
                && forall q | q in owner && q != pod :: owner[q] != r.value.id
      // The port on the pod's record, if idle, is the one it gets; without a record, one of least reservation time.
      ensures a.ipAddress == "" && a.ipPool == "" && r.Ok? ==>
                forall x | x in old(portManager.pool.idle.Contents()) ::
                  RecordNames(old(resourceDB.memory.store), pod, x.port.id) ==> r.value == x.port
      ensures a.ipAddress == "" && a.ipPool == "" && r.Ok? && pod !in old(resourceDB.memory.store)
              && old(portManager.pool.idle.Contents()) != [] && Heap.IsHeap(old(portManager.pool.idle.Contents())) ==>
                OfLeast(old(portManager.pool.idle.Contents()), r.value)
      // And it does get a port, if there is one for it and it can be recorded.
      ensures old(Serves(View([], ticker), a, parses, others, ctxDone, portManager.pool.factory.faults == 0)) && confOk
              && old(resourceDB.db.faults) == 0
              && (forall id :: resourceDB.codec.serializer(RecordFor(pod, id)).Some?) ==>
                r.Ok?
    {
      hide ExecSys, SafeRun, Own, Coherent, RoundTrip, Answer, Serves, RecordNames, OfLeast, Heap.IsHeap;
      ghost var s := View([], ticker);
      r, procs, run := AllocatePortIP(pod, a, parses, others, ctxDone, ticker);
      answer := r;
      ghost var failed := portManager.pool.factory.faults < old(portManager.pool.factory.faults);
      if r.Ok? {
        r, run := Finish(pod, r.value, confOk, ticker, s, run);
      }
      AnswerMeans(s, pod, a, parses, others, ctxDone, failed, old(portManager.pool.factory.faults) == 0, answer);
      AllocatedMeans(s, resourceDB.codec, pod, answer, confOk, resourceDB.db.faults < old(resourceDB.db.faults), r,
                     View(procs, ticker));
      Settled(s, run, View(procs, ticker), View([], ticker), pod);
    }

    /** AllocateIP once the pool has given it a port: record it and answer. */
    method Finish(pod: string, port: Port, confOk: bool, ghost ticker: Ticker, ghost s: Sys, ghost run0: seq<Act>)
      returns (r: Result<Port>, ghost run: seq<Act>)
      requires Ready() && SafeRun(s, run0)
      requires ExecSys(s, run0) == Some(View([Done(Some(port))], ticker).(reqs := map[0 := pod]))
      modifies this`owner, resourceDB.db`bucket, resourceDB.db`faults, resourceDB.memory
      ensures Ready()
      ensures ExecSys(s, run) == Some(View([Done(Some(port))], ticker)) && SafeRun(s, run)
      ensures Written(old(owner), old(resourceDB.memory.store), resourceDB.codec, pod, port, confOk,
                      resourceDB.db.faults < old(resourceDB.db.faults), r, owner, resourceDB.memory.store)
    {
      hide ExecSys, SafeRun, Coherent, RoundTrip;
      var stored;
      stored, run := RecordPort(pod, port, ticker, s, run0);
      if stored.Err? {
        return Err(stored.error), run;
      }
      if !confOk {
        return Err(InvalidState), run;
      }
      return Ok(port), run;
    }

    /** The database write: the pod owns the port if it succeeds. */
    method RecordPort(pod: string, port: Port, ghost ticker: Ticker, ghost s: Sys, ghost run0: seq<Act>)
      returns (r: Result<()>, ghost run: seq<Act>)
      requires Ready() && SafeRun(s, run0)
      requires ExecSys(s, run0) == Some(View([Done(Some(port))], ticker).(reqs := map[0 := pod]))
      modifies this`owner, resourceDB.db`bucket, resourceDB.db`faults, resourceDB.memory
      ensures resourceDB.Valid()
      ensures ExecSys(s, run) == Some(View([Done(Some(port))], ticker)) && SafeRun(s, run)
      ensures resourceDB.memory.store
              == if r.Ok? then old(resourceDB.memory.store)[pod := RecordFor(pod, port.id)]
                 else old(resourceDB.memory.store)
      ensures owner == if r.Ok? then old(owner)[pod := port.id] else old(owner)
      ensures old(resourceDB.db.faults) == 0 ==>
                (r.Ok? <==> resourceDB.codec.serializer(RecordFor(pod, port.id)).Some?)
      ensures r.Err? ==>
                r == Err(StoreFailed)
                && (resourceDB.db.faults < old(resourceDB.db.faults)
                    || resourceDB.codec.serializer(RecordFor(pod, port.id)).None?)
    {
      hide ExecSys, SafeRun, Coherent, RoundTrip;
      ghost var m := View([Done(Some(port))], ticker).(reqs := map[0 := pod]);
      r := resourceDB.Put(pod, RecordFor(pod, port.id));
      if r.Ok? {
        owner := owner[pod := port.id];
      }
      ghost var e;
      run, e := RecordRun(s, run0, m, pod, port, r.Ok?);
    }

    /** One turn of the loop of ReleaseIP. */
    method ReleaseOne(pod: string, stick: int, left: seq<ResourceItem>, ghost ticker: Ticker, ghost s: Sys,
                      ghost run0: seq<Act>)
      returns (r: Result<()>, ghost run: seq<Act>)
      requires portManager.pool.Valid() && !portManager.pool.locked && !ticker.Wedged? && left != []
      requires ExecSys(s, run0) == Some(View([], ticker).(rels := map[0 := Rel(pod, stick, left)]))
      modifies this`owner
      modifies portManager.pool`inuse, portManager.pool.idle, portManager.pool.idle.slots, portManager.pool.factory`now
      ensures portManager.pool.Valid()
      ensures portManager.pool.idle.slots == old(portManager.pool.idle.slots) || fresh(portManager.pool.idle.slots)
      ensures r == if left[0].id in old(portManager.pool.inuse) then Ok(()) else Err(InvalidState)
      ensures if r.Ok? then OneFreed(old(portManager.pool.View([], ticker)), left[0].id, stick,
                                     portManager.pool.View([], ticker))
              else portManager.pool.View([], ticker) == old(portManager.pool.View([], ticker))
      ensures owner == if r.Ok? then Disowned(old(owner), pod, left[0].id) else old(owner)
      ensures ExecSys(s, run)
              == Some(View([], ticker).(rels := if r.Ok? then map[0 := Rel(pod, stick, left[1..])] else map[]))
    {
      hide ExecSys, NextSys, Next, Heap.Push;
      ghost var m := View([], ticker).(rels := map[0 := Rel(pod, stick, left)]);
      r := portManager.pool.ReleaseWithReverse(left[0].id, stick, [], ticker);
      if r.Ok? {
        owner := Disowned(owner, pod, left[0].id);
        ghost var now := portManager.pool.factory.now;
        TakenOutOfUse(m.pool.(now := now), left[0].id, stick, portManager.pool.View([], ticker));
        ghost var e := View([], ticker).(rels := map[0 := Rel(pod, stick, left[1..])]);
        run := FreeRun(s, run0, m, now, e);
      } else {
        assert portManager.pool.inuse - {left[0].id} == portManager.pool.inuse;
        run := StopRun(s, run0, m, View([], ticker));
      }
    }

    /** The loop of ReleaseIP: it gives up at the first port that is not in use. */
    method ReleasePorts(pod: string, stick: int, resources: seq<ResourceItem>, ghost ticker: Ticker, ghost s: Sys,
                        ghost run0: seq<Act>)
      returns (r: Result<()>, ghost run: seq<Act>)
      requires portManager.pool.Valid() && !portManager.pool.locked && !ticker.Wedged?
      requires pod in owner ==> owner[pod] in portManager.pool.inuse
      requires ExecSys(s, run0) == Some(View([], ticker).(rels := map[0 := Rel(pod, stick, resources)]))
      modifies this`owner
      modifies portManager.pool`inuse, portManager.pool.idle, portManager.pool.idle.slots, portManager.pool.factory`now
      ensures portManager.pool.Valid()
      ensures portManager.pool.idle.slots == old(portManager.pool.idle.slots) || fresh(portManager.pool.idle.slots)
      ensures r == if AllInUse(old(portManager.pool.inuse.Keys), resources) then Ok(()) else Err(InvalidState)
      ensures portManager.pool.inuse.Keys == AfterLoop(old(portManager.pool.inuse.Keys), resources)
      ensures owner == StillOwned(old(owner), pod, portManager.pool.inuse.Keys)
      ensures Freed(old(portManager.pool.View([], ticker)), resources, stick, portManager.pool.View([], ticker))
      ensures ExecSys(s, run) == Some(View([], ticker).(rels := if r.Ok? then map[0 := Rel(pod, stick, [])] else map[]))
    {
      hide ExecSys, Heap.Push, Freed, OneFreed, AllInUse, AfterLoop, StillOwned, OnTheWay, Disowned;
      ghost var p0 := portManager.pool.View([], ticker);
      FreedByNone(p0, stick);
      WayBegins(p0.inuse.Keys, owner, pod, resources);
      run := run0;
      var i := 0;
      assert resources[0..] == resources;
      while i < |resources|
        invariant 0 <= i <= |resources|
        invariant portManager.pool.Valid()
        invariant portManager.pool.idle.slots == old(portManager.pool.idle.slots) || fresh(portManager.pool.idle.slots)
        invariant OnTheWay(p0.inuse.Keys, old(owner), pod, resources,
                           portManager.pool.inuse.Keys, owner, resources[i..])
        invariant Freed(p0, resources[..i], stick, portManager.pool.View([], ticker))
        invariant ExecSys(s, run) == Some(View([], ticker).(rels := map[0 := Rel(pod, stick, resources[i..])]))
      {
        var left := resources[i..];
        ghost var owner1, p1 := owner, portManager.pool.View([], ticker);
        assert resources[..i + 1] == resources[..i] + [left[0]];
        assert left[0] == resources[i] && left[1..] == resources[i + 1..];
        r, run := ReleaseOne(pod, stick, left, ticker, s, run);
        ghost var p2 := portManager.pool.View([], ticker);
        if r.Err? {
          FreedUpTo(p0, resources, i, stick, p1);
          WayStops(p0.inuse.Keys, old(owner), pod, resources, p1.inuse.Keys, owner, left);
          return;
        }
        FreedOne(p0, resources[..i], left[0], stick, p1, p2);
        KeysAfter(p1, left[0].id, stick, p2);
        WayGoesOn(p0.inuse.Keys, old(owner), pod, resources, p1.inuse.Keys, owner1, left, p2.inuse.Keys, owner);
        i := i + 1;
      }
      assert resources[i..] == [] && resources[..i] == resources;
      WayEnds(p0.inuse.Keys, old(owner), pod, resources, portManager.pool.inuse.Keys, owner);
      return Ok(()), run;
    }

    /** ReleaseIP reads the record and releases what it names. */
    method ReleaseRecorded(pod: string, stick: int, ghost ticker: Ticker) returns (r: Result<()>, ghost run: seq<Act>)
      requires Valid(ticker)
      modifies this`owner
      modifies portManager.pool`inuse, portManager.pool.idle, portManager.pool.idle.slots, portManager.pool.factory`now
      ensures portManager.pool.Valid()
      ensures portManager.pool.idle.slots == old(portManager.pool.idle.slots) || fresh(portManager.pool.idle.slots)
      ensures var left := old(ResourcesOf(View([], ticker), pod));
              && r == (if AllInUse(old(portManager.pool.inuse.Keys), left) then Ok(()) else Err(InvalidState))
              && portManager.pool.inuse.Keys == AfterLoop(old(portManager.pool.inuse.Keys), left)
      ensures owner == old(owner) - {pod}
      ensures Freed(old(portManager.pool.View([], ticker)), old(ResourcesOf(View([], ticker), pod)), stick,
                    portManager.pool.View([], ticker))
      ensures ExecSys(old(View([], ticker)), run)
              == Some(View([], ticker).(rels := if r.Ok? then map[0 := Rel(pod, stick, [])] else map[]))
    {
      hide ExecSys, NextSys, RoundTrip, Coherent, AfterLoop, AllInUse, Own, Owned, Freed;
      ghost var s := View([], ticker);
      OwnMeans(s);
      var oldRes := resourceDB.Get(pod);
      var resources := if oldRes.Ok? then oldRes.value.resources else [];
      run := ReadRun(s, pod, stick);
      r, run := ReleasePorts(pod, stick, resources, ticker, s, run);
      HolderIsGone(s, pod, View([], ticker));
    }

    /** The end of ReleaseIP: without a stick time the record goes. */
    method DropRecord(pod: string, stick: int, ghost ticker: Ticker, ghost s: Sys, ghost run0: seq<Act>)
      returns (r: Result<()>, ghost run: seq<Act>)
      requires Ready()
      requires ExecSys(s, run0) == Some(View([], ticker).(rels := map[0 := Rel(pod, stick, [])]))
      modifies resourceDB.db`bucket, resourceDB.db`faults, resourceDB.memory
      ensures resourceDB.Valid() && ExecSys(s, run) == Some(View([], ticker))
      ensures r.Err? ==>
                r == Err(StoreFailed) && stick == 0 && resourceDB.db.faults < old(resourceDB.db.faults)
      ensures resourceDB.memory.store
              == if r.Ok? && stick == 0 then old(resourceDB.memory.store) - {pod} else old(resourceDB.memory.store)
    {
      hide ExecSys, RoundTrip, Coherent;
      ghost var m := View([], ticker).(rels := map[0 := Rel(pod, stick, [])]);
      r := Ok(());
      if stick == 0 {
        r := resourceDB.Delete(pod);
      }
      run := DeleteRun(s, run0, m, r.Ok?, View([], ticker));
    }

    /**
     * ReleaseIP. The record goes only without a stick time, after every port of
     * it could be released. The call is a run of the daemon's steps, and
     * afterwards every pod still has its port to itself exactly when nobody
     * else held a port that the loop released.
     */
    method ReleaseIP(pod: string, stick: int, ghost ticker: Ticker) returns (r: Result<()>, ghost run: seq<Act>)
      requires Valid(ticker)
      modifies this`owner, resourceDB.db`bucket, resourceDB.db`faults, resourceDB.memory
      modifies portManager.pool`inuse, portManager.pool.idle, portManager.pool.idle.slots, portManager.pool.factory`now
      ensures Ready() && ExecSys(old(View([], ticker)), run) == Some(View([], ticker))
      ensures Valid(ticker) <==> old(SafeRelease(View([], ticker), pod))
      ensures portManager.pool.inuse.Keys
              == AfterLoop(old(portManager.pool.inuse.Keys), old(ResourcesOf(View([], ticker), pod)))
      ensures if AllInUse(old(portManager.pool.inuse.Keys), old(ResourcesOf(View([], ticker), pod)))
              then r.Ok? || (r == Err(StoreFailed) && stick == 0 && resourceDB.db.faults < old(resourceDB.db.faults))
              else r == Err(InvalidState)
      ensures Freed(old(portManager.pool.View([], ticker)), old(ResourcesOf(View([], ticker), pod)), stick,
                    portManager.pool.View([], ticker))
      // The port on the pod's record goes to the queue, reserved for the stick time from now on.
      ensures forall id | Holds(old(resourceDB.memory.store), pod, id) && id in old(portManager.pool.inuse) ::
                var now := portManager.pool.factory.now;
                var x := Item(old(portManager.pool.inuse)[id], if stick > 0 then now + stick else now);
                && portManager.pool.inuse == old(portManager.pool.inuse) - {id}
                && x in portManager.pool.idle.Contents()
                && multiset(portManager.pool.idle.Contents())
                   == multiset(old(portManager.pool.idle.Contents())) + multiset{x}
    {
      hide ExecSys, Own, SafeRelease, RoundTrip, Coherent, AfterLoop, AllInUse, ResourcesOf, Freed, Holds;
      ghost var s := View([], ticker);
      r, run := ReleaseRecorded(pod, stick, ticker);
      ghost var e := portManager.pool.View([], ticker);
      forall id | Holds(s.db, pod, id) && id in s.pool.inuse
        ensures Queued(s.pool, id, stick, e)
      {
        FreedRecord(s, pod, id, stick, e);
      }
      if r.Ok? {
        r, run := DropRecord(pod, stick, ticker, s, run);
      }
      assert Ready();
      SerialRelease(s, run, pod, View([], ticker));
    }
  }

  /** The storage's list as the values of the store. */
  ghost predicate Listed(store: map<string, PodResources>, records: seq<PodResources>, keys: seq<string>) {
    && |keys| == |records|
    && (forall i | 0 <= i < |keys| :: keys[i] in store && records[i] == store[keys[i]])
    && (forall k | k in store :: k in keys)
  }

  ghost predicate AllLoggable(store: map<string, PodResources>, podsUsage: set<string>) {
    forall k | k in store :: !LogPanics(store[k], podsUsage)
  }

  lemma LoggableExactly(store: map<string, PodResources>, records: seq<PodResources>, keys: seq<string>,
                        podsUsage: set<string>)
    requires Listed(store, records, keys)
    ensures (forall i | 0 <= i < |records| :: !LogPanics(records[i], podsUsage)) <==> AllLoggable(store, podsUsage)
  {
    forall k | k in store && LogPanics(store[k], podsUsage)
      ensures exists i | 0 <= i < |records| :: LogPanics(records[i], podsUsage)
    {
      var i :| 0 <= i < |keys| && keys[i] == k;
      assert LogPanics(records[i], podsUsage);
    }
  }

  /** So the records of this daemon never stop it. */
  lemma OwnRecordsLoggable(store: map<string, PodResources>, podsUsage: set<string>)
    requires WrittenHere(store)
    ensures AllLoggable(store, podsUsage)
  {
    WrittenIsLoggable(store, podsUsage);
  }

  /** The mapping has exactly the ports that pods have on record. */
  lemma MappedAreRecorded(store: map<string, PodResources>, records: seq<PodResources>, keys: seq<string>,
                          mapping: map<string, seq<string>>)
    requires Listed(store, records, keys) && Inverts(mapping, records)
    ensures mapping.Keys == RecordedIds(store)
  {
    forall id
      ensures id in mapping <==> id in RecordedIds(store)
    {
      NamedExactly(records, id);
      if id in mapping {
        var x :| x in records && Names(x, id);
        NamesItsPorts(x.resources, PodKey(x), id);
        var i :| 0 <= i < |records| && records[i] == x;
        assert store[keys[i]] == x;
      }
      if id in RecordedIds(store) {
        var k, x :| k in store && x in store[k].resources && x.id == id;
        var i :| 0 <= i < |keys| && keys[i] == k;
        NamesItsPorts(records[i].resources, PodKey(records[i]), id);
        assert records[i] in records && Names(records[i], id);
      }
    }
  }

  lemma RecoveredLists(s: St, cloud: map<string, Port>, named: set<string>)
    requires RecoveredPool(s, cloud, named)
    ensures s.inuse.Keys == cloud.Keys * named && forall k | k in cloud :: k in s.cloud && s.cloud[k] == cloud[k]
  {
    hide IdleUnlessNamed, Heap.IsHeap;
  }

  lemma RestartStep(before: Sys, boot: St, after: Sys)
    requires Started(boot) && boot.now >= before.pool.now
    requires forall k | k in before.pool.cloud :: k in boot.cloud && boot.cloud[k] == before.pool.cloud[k]
    requires boot.inuse.Keys == before.pool.cloud.Keys * RecordedIds(before.db)
    requires after == Sys(boot, before.db, before.owner, map[], map[])
    ensures NextSys(before, Restart(boot)) == Some(after)
    ensures Own(before) ==> Own(after)
  {
    hide Started, Own;
    if Own(before) {
      RestartKeepsOwn(before, boot, after);
    }
  }

  // ----- ReleaseIP without interference -----

  ghost function ResourcesOf(s: Sys, pod: string): (resources: seq<ResourceItem>) {
    if pod in s.db then s.db[pod].resources else []
  }

  function ReservedTo(now: int, stick: int): (to: int) {
    if stick > 0 then now + stick else now
  }

  /** The port is idle, reserved for the stick time from an instant between t0 and t1. */
  ghost predicate IdleSince(p: Port, stick: int, t0: int, t1: int, q: seq<Item>) {
    exists x | x in q :: x.port == p && ReservedTo(t0, stick) <= x.reverse <= ReservedTo(t1, stick)
  }

  /** The one port of the record went from in use to the queue, reserved from the instant of the release. */
  ghost predicate OneFreed(s: St, id: string, stick: int, e: St) {
    && id in s.inuse && e.inuse == s.inuse - {id} && s.now <= e.now
    && e.idle == Heap.Push(s.idle, Item(s.inuse[id], ReservedTo(e.now, stick)))
  }

  lemma KeysAfter(s: St, id: string, stick: int, e: St)
    requires OneFreed(s, id, stick, e)
    ensures e.inuse.Keys == s.inuse.Keys - {id}
  {
  }

  /** The loop of ReleaseIP moves ports of `resources` from in use to the queue, each reserved for the stick time. */
  ghost predicate Freed(s: St, resources: seq<ResourceItem>, stick: int, e: St) {
    && e.now >= s.now
    && (forall x | x in s.idle :: x in e.idle)
    && (forall id | id in e.inuse :: id in s.inuse && e.inuse[id] == s.inuse[id])
    && (forall id | id in s.inuse && id !in e.inuse :: IdleSince(s.inuse[id], stick, s.now, e.now, e.idle))
    && |e.idle| + |e.inuse| == |s.idle| + |s.inuse|
    && (Heap.IsHeap(s.idle) ==> Heap.IsHeap(e.idle))
    && (resources == [] ==> e.idle == s.idle && e.inuse == s.inuse)
    && (|resources| == 1 && resources[0].id in s.inuse ==> OneFreed(s, resources[0].id, stick, e))
  }

  lemma FreedByNone(s: St, stick: int)
    ensures Freed(s, [], stick, s)
  {
  }

  lemma StillIdleSince(p: Port, stick: int, t0: int, t1: int, q: seq<Item>, t2: int, r: seq<Item>)
    requires IdleSince(p, stick, t0, t1, q) && t1 <= t2 && forall x | x in q :: x in r
    ensures IdleSince(p, stick, t0, t2, r)
  {
  }

  lemma FreedOne(s: St, released: seq<ResourceItem>, x: ResourceItem, stick: int, m: St, e: St)
    requires Freed(s, released, stick, m) && OneFreed(m, x.id, stick, e)
    ensures Freed(s, released + [x], stick, e)
  {
    var item := Item(m.inuse[x.id], ReservedTo(e.now, stick));
    PushCount(m.idle, item);
    MapRemove(m.inuse, x.id);
    if Heap.IsHeap(m.idle) {
      Heap.PushKeepsHeap(m.idle, item);
    }
    hide Heap.IsHeap, Heap.Push;
    forall id | id in s.inuse && id !in e.inuse
      ensures IdleSince(s.inuse[id], stick, s.now, e.now, e.idle)
    {
      if id in m.inuse {
        assert item in e.idle;
      } else {
        StillIdleSince(s.inuse[id], stick, s.now, m.now, m.idle, e.now, e.idle);
      }
    }
  }

  /** The loop stopped at resource i, which is not in use. */
  lemma FreedUpTo(s: St, resources: seq<ResourceItem>, i: nat, stick: int, e: St)
    requires i < |resources| && Freed(s, resources[..i], stick, e) && resources[i].id !in e.inuse
    ensures Freed(s, resources, stick, e)
  {
    hide Heap.IsHeap, Heap.Push, IdleSince;
  }

  /** The port that was in use is idle, reserved for the stick time from now on, and nothing else has changed. */
  ghost predicate Queued(s: St, id: string, stick: int, e: St)
    requires id in s.inuse
  {
    var x := Item(s.inuse[id], if stick > 0 then e.now + stick else e.now);
    e.inuse == s.inuse - {id} && x in e.idle && multiset(e.idle) == multiset(s.idle) + multiset{x}
  }

  /** For a record as AllocateIP writes it. */
  lemma FreedRecord(s: Sys, pod: string, id: string, stick: int, e: St)
    requires Freed(s.pool, ResourcesOf(s, pod), stick, e) && Holds(s.db, pod, id) && id in s.pool.inuse
    ensures Queued(s.pool, id, stick, e)
  {
    hide Heap.IsHeap, Heap.Push, IdleSince;
    PushHas(s.pool.idle, Item(s.pool.inuse[id], ReservedTo(e.now, stick)));
  }

  /** Each resource is in use when its turn comes. */
  ghost predicate AllInUse(inuse: set<string>, left: seq<ResourceItem>) {
    left != [] ==> left[0].id in inuse && AllInUse(inuse - {left[0].id}, left[1..])
  }

  /** What stays in use: the loop ends at the first resource that is not. */
  ghost function AfterLoop(inuse: set<string>, left: seq<ResourceItem>): (rest: set<string>)
    ensures rest <= inuse
    decreases left
  {
    if left == [] || left[0].id !in inuse then inuse
    else AfterLoop(inuse - {left[0].id}, left[1..])
  }

  /** A pod owns its port as long as the port is in use. */
  function StillOwned(owner: map<string, string>, pod: string, inuse: set<string>): (r: map<string, string>) {
    if pod in owner && owner[pod] !in inuse then owner - {pod} else owner
  }

  /** The loop of ReleaseIP with `left` to go: what it will do was settled at the start. */
  ghost predicate OnTheWay(inuse0: set<string>, owner0: map<string, string>, pod: string, resources: seq<ResourceItem>,
                           inuse: set<string>, owner: map<string, string>, left: seq<ResourceItem>) {
    && (AllInUse(inuse0, resources) <==> AllInUse(inuse, left))
    && AfterLoop(inuse0, resources) == AfterLoop(inuse, left)
    && owner == StillOwned(owner0, pod, inuse)
  }

  lemma WayBegins(inuse: set<string>, owner: map<string, string>, pod: string, resources: seq<ResourceItem>)
    requires pod in owner ==> owner[pod] in inuse
    ensures OnTheWay(inuse, owner, pod, resources, inuse, owner, resources)
  {
  }

  lemma WayGoesOn(inuse0: set<string>, owner0: map<string, string>, pod: string, resources: seq<ResourceItem>,
                  inuse: set<string>, owner: map<string, string>, left: seq<ResourceItem>,
                  inuse': set<string>, owner': map<string, string>)
    requires OnTheWay(inuse0, owner0, pod, resources, inuse, owner, left) && left != [] && left[0].id in inuse
    requires inuse' == inuse - {left[0].id} && owner' == Disowned(owner, pod, left[0].id)
    ensures OnTheWay(inuse0, owner0, pod, resources, inuse', owner', left[1..])
  {
  }

  lemma WayStops(inuse0: set<string>, owner0: map<string, string>, pod: string, resources: seq<ResourceItem>,
                 inuse: set<string>, owner: map<string, string>, left: seq<ResourceItem>)
    requires OnTheWay(inuse0, owner0, pod, resources, inuse, owner, left) && left != [] && left[0].id !in inuse
    ensures !AllInUse(inuse0, resources) && inuse == AfterLoop(inuse0, resources)
    ensures owner == StillOwned(owner0, pod, inuse)
  {
  }

  lemma WayEnds(inuse0: set<string>, owner0: map<string, string>, pod: string, resources: seq<ResourceItem>,
                inuse: set<string>, owner: map<string, string>)
    requires OnTheWay(inuse0, owner0, pod, resources, inuse, owner, [])
    ensures AllInUse(inuse0, resources) && inuse == AfterLoop(inuse0, resources)
    ensures owner == StillOwned(owner0, pod, inuse)
  {
  }

  /** Nobody else owns a port that the loop would release. */
  ghost predicate SafeRelease(s: Sys, pod: string) {
    forall q | q in s.owner && q != pod :: s.owner[q] in AfterLoop(s.pool.inuse.Keys, ResourcesOf(s, pod))
  }

  /** A pod that holds a port may be released. */
  lemma HolderMayRelease(s: Sys, pod: string)
    requires Own(s) && pod in s.owner
    ensures SafeRelease(s, pod)
  {
    hide Inv;
    assert AfterLoop(s.pool.inuse.Keys, ResourcesOf(s, pod)) == s.pool.inuse.Keys - {s.owner[pod]};
  }

  lemma ReadRun(s: Sys, pod: string, stick: int) returns (run: seq<Act>)
    requires s.rels == map[]
    ensures ExecSys(s, run) == Some(s.(rels := map[0 := Rel(pod, stick, ResourcesOf(s, pod))]))
  {
    ExtendSys(s, [], s, RelRead(0, pod, stick), s.(rels := map[0 := Rel(pod, stick, ResourcesOf(s, pod))]));
    run := [] + [RelRead(0, pod, stick)];
  }

  lemma FreeRun(s: Sys, run0: seq<Act>, m: Sys, now: int, e: Sys) returns (run: seq<Act>)
    requires ExecSys(s, run0) == Some(m) && LockFree(m.pool) && m.pool.now <= now
    requires m.rels.Keys == {0} && m.rels[0].left != [] && m.rels[0].left[0].id in m.pool.inuse
    requires Next(m.pool.(now := now), Release(m.rels[0].left[0].id, m.rels[0].stick)) == Some(e.pool)
    requires e.db == m.db && e.reqs == m.reqs && e.owner == Disowned(m.owner, m.rels[0].pod, m.rels[0].left[0].id)
    requires e.rels == map[0 := m.rels[0].(left := m.rels[0].left[1..])]
    ensures ExecSys(s, run) == Some(e)
  {
    hide ExecSys, Heap.Push;
    var m1 := m.(pool := m.pool.(now := now));
    ExtendSys(s, run0, m, Pool(Advance(now)), m1);
    assert m.rels[0 := m.rels[0].(left := m.rels[0].left[1..])] == e.rels;
    ExtendSys(s, run0 + [Pool(Advance(now))], m1, RelPool(0), e);
    run := run0 + [Pool(Advance(now))] + [RelPool(0)];
  }

  lemma StopRun(s: Sys, run0: seq<Act>, m: Sys, e: Sys) returns (run: seq<Act>)
    requires ExecSys(s, run0) == Some(m) && LockFree(m.pool)
    requires m.rels.Keys == {0} && m.rels[0].left != [] && m.rels[0].left[0].id !in m.pool.inuse
    requires e == m.(rels := map[])
    ensures ExecSys(s, run) == Some(e)
  {
    hide ExecSys;
    assert m.rels - {0} == map[];
    ExtendSys(s, run0, m, RelPool(0), e);
    run := run0 + [RelPool(0)];
  }

  lemma DeleteRun(s: Sys, run0: seq<Act>, m: Sys, deleted: bool, e: Sys) returns (run: seq<Act>)
    requires ExecSys(s, run0) == Some(m) && m.rels.Keys == {0} && m.rels[0].left == []
    requires e.pool == m.pool && e.owner == m.owner && e.reqs == m.reqs && e.rels == map[]
    requires e.db == if m.rels[0].stick == 0 && deleted then m.db - {m.rels[0].pod} else m.db
    ensures ExecSys(s, run) == Some(e)
  {
    hide ExecSys;
    assert m.rels - {0} == map[];
    ExtendSys(s, run0, m, RelDelete(0, deleted), e);
    run := run0 + [RelDelete(0, deleted)];
  }

  /** What a whole ReleaseIP does to the ports of the pods. */
  lemma SerialRelease(s: Sys, run: seq<Act>, pod: string, e: Sys)
    requires Own(s) && s.reqs == map[] && e.reqs == map[] && e.pool.procs == []
    requires ExecSys(s, run) == Some(e)
    requires e.pool.inuse.Keys == AfterLoop(s.pool.inuse.Keys, ResourcesOf(s, pod))
    requires e.owner == s.owner - {pod} && (e.db == s.db || e.db == s.db - {pod})
    ensures Own(e) <==> SafeRelease(s, pod)
  {
    hide Inv, ExecSys, AfterLoop, Own, Owned, Pending, ResourcesOf, SafeRelease;
    OwnMeans(s);
    PoolInvRun(s, run, e);
    if SafeRelease(s, pod) {
      SafeReleaseKeeps(s, pod, e);
    } else {
      UnsafeReleaseLoses(s, pod, e);
    }
  }

  lemma OwnMeans(s: Sys)
    requires Own(s)
    ensures Inv(s.pool) && Owned(s)
  {
  }

  lemma HolderIsGone(s: Sys, pod: string, e: Sys)
    requires Owned(s)
    requires e.pool.inuse.Keys == AfterLoop(s.pool.inuse.Keys, ResourcesOf(s, pod))
    requires e.owner == StillOwned(s.owner, pod, e.pool.inuse.Keys)
    ensures e.owner == s.owner - {pod}
  {
    if pod !in s.owner {
      assert s.owner - {pod} == s.owner;
    } else {
      assert ResourcesOf(s, pod)[1..] == [];
    }
  }

  lemma SafeReleaseKeeps(s: Sys, pod: string, e: Sys)
    requires Owned(s) && SafeRelease(s, pod) && Inv(e.pool) && e.reqs == map[] && e.pool.procs == []
    requires e.pool.inuse.Keys == AfterLoop(s.pool.inuse.Keys, ResourcesOf(s, pod))
    requires e.owner == s.owner - {pod} && (e.db == s.db || e.db == s.db - {pod})
    ensures Own(e)
  {
    hide Inv, AfterLoop;
  }

  lemma UnsafeReleaseLoses(s: Sys, pod: string, e: Sys)
    requires !SafeRelease(s, pod)
    requires e.pool.inuse.Keys == AfterLoop(s.pool.inuse.Keys, ResourcesOf(s, pod)) && e.owner == s.owner - {pod}
    ensures !Own(e)
  {
    hide Inv, AfterLoop;
    var q :| q in s.owner && q != pod && s.owner[q] !in e.pool.inuse.Keys;
    assert q in e.owner && e.owner[q] !in e.pool.inuse;
  }

  lemma TakenOutOfUse(s: St, id: string, stick: int, e: St)
    requires Next(s, Release(id, stick)) == Some(e)
    ensures e.inuse == s.inuse - {id}
  {
  }

  lemma AtRest(s: Sys, r: St)
    requires Own(s) && r == s.pool.(ticker := Rest)
    ensures Genuine(r)
    ensures SafeRun(s, []) && ExecSys(s, []) == Some(s)
  {
  }

  /** What a finished call leaves behind. */
  lemma Settled(s: Sys, run: seq<Act>, m: Sys, e: Sys, pod: string)
    requires Own(s) && ExecSys(s, run) == Some(m) && SafeRun(s, run)
    requires m.reqs == map[] && e == m.(pool := m.pool.(procs := []))
    ensures Own(e)
    ensures pod in e.owner ==>
              e.owner[pod] in e.pool.inuse && forall q | q in e.owner && q != pod :: e.owner[q] != e.owner[pod]
  {
    hide Inv, Pending, ExecSys, SafeRun;
    OwnRun(s, run, m);
    ForgetCallers(m, e);
  }
}
