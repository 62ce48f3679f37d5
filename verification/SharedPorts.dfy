/**
 * What the rules for ReleaseIP are for: without any one of them some run hands
 * one port to two pods.
 */
module SharedPorts {
  import opened PoolTypes
  import opened PoolSteps
  import opened PoolInvariant
  import opened Recovery
  import opened Ownership
  import opened OwnershipResults
  import PoolTheorems

  ghost predicate Shares(s: Sys, p: string, q: string) {
    p != q && p in s.owner && q in s.owner && s.owner[p] == s.owner[q]
  }

  // ----- outside the guard of one turn -----

  /**
   * Whenever ReleaseIP is about to free a port that is not clear, some run hands
   * that port to two pods: the one that owns it, or has won it and not recorded
   * it yet, and another one that asks for its address.
   */
  lemma UnclearReleaseShares(s: Sys, r: nat) returns (run: seq<Act>, e: Sys, p: string, q: string)
    requires Own(s) && LockFree(s.pool) && r in s.rels && s.rels[r].left != [] && !SafeAct(s, RelPool(r))
    ensures ExecSys(s, run) == Some(e) && Shares(e, p, q)
  {
    var id := s.rels[r].left[0].id;
    hide Own, Inv, LockFree, ExecSys, NextSys;
    if p0 :| p0 in s.owner && p0 != s.rels[r].pod && s.owner[p0] == id {
      p := p0;
      run, e, q := OwnedPortShared(s, r, p);
    } else {
      var t :| t in s.reqs && t < |s.pool.procs| && Won(s.pool.procs[t]) && s.pool.procs[t].result.value.id == id;
      run, e, p, q := WonPortShared(s, r, t);
    }
  }

  lemma OwnedPortShared(s: Sys, r: nat, p: string) returns (run: seq<Act>, e: Sys, q: string)
    requires Own(s) && LockFree(s.pool) && r in s.rels && s.rels[r].left != [] && !SafeAct(s, RelPool(r))
    requires p in s.owner && p != s.rels[r].pod && s.owner[p] == s.rels[r].left[0].id
    ensures ExecSys(s, run) == Some(e) && Shares(e, p, q)
  {
    hide Own, Inv, LockFree, ExecSys, NextSys, SafeAct;
    var s1, x := Freed(s, r);
    q := s.rels[r].pod;
    run, e := Grab(s, [RelPool(r)], s1, q, x);
  }

  lemma WonPortShared(s: Sys, r: nat, t: nat) returns (run: seq<Act>, e: Sys, p: string, q: string)
    requires Own(s) && LockFree(s.pool) && r in s.rels && s.rels[r].left != [] && !SafeAct(s, RelPool(r))
    requires t in s.reqs && t < |s.pool.procs| && Won(s.pool.procs[t])
    requires s.pool.procs[t].result.value.id == s.rels[r].left[0].id
    ensures ExecSys(s, run) == Some(e) && Shares(e, p, q)
  {
    hide Own, Inv, LockFree, ExecSys, NextSys, SafeAct, Won;
    var s1, x := Freed(s, r);
    p, q := s.reqs[t], s.reqs[t] + "x";
    assert |p| != |q|;
    RecordWrites(s1, t, p, x.port.id);
    var s2 := Recorded(s1, t, p, x.port.id);
    ExtendSys(s, [RelPool(r)], s1, Record(t, true), s2);
    run, e := Grab(s, [RelPool(r)] + [Record(t, true)], s2, q, x);
  }

  /** A port that somebody owns or has won is in use, so the turn frees it. */
  lemma Freed(s: Sys, r: nat) returns (s1: Sys, x: Item)
    requires Own(s) && LockFree(s.pool) && r in s.rels && s.rels[r].left != [] && !SafeAct(s, RelPool(r))
    ensures ExecSys(s, [RelPool(r)]) == Some(s1) && Inv(s1.pool) && LockFree(s1.pool)
    ensures x in s1.pool.idle && x.port.id == s.rels[r].left[0].id
    ensures s1.owner == Disowned(s.owner, s.rels[r].pod, s.rels[r].left[0].id)
    ensures s1.reqs == s.reqs && s1.pool.procs == s.pool.procs
    ensures |s1.pool.procs| !in s1.reqs
  {
    var id := s.rels[r].left[0].id;
    InUseIfUnclear(s, r);
    hide Own, Inv, LockFree, ExecSys, NextSys;
    s1, x := FreeMakesIdle(s, r);
    OneAct(s, RelPool(r), s1);
  }

  lemma InUseIfUnclear(s: Sys, r: nat)
    requires Own(s) && r in s.rels && s.rels[r].left != [] && !SafeAct(s, RelPool(r))
    ensures Inv(s.pool) && |s.pool.procs| !in s.reqs
    ensures s.rels[r].left[0].id in s.pool.inuse && s.pool.inuse[s.rels[r].left[0].id].id == s.rels[r].left[0].id
  {
    assert Genuine(s.pool);
  }

  lemma OneAct(s: Sys, a: Act, e: Sys)
    requires NextSys(s, a) == Some(e)
    ensures ExecSys(s, [a]) == Some(e)
  {
    ExtendSys(s, [], s, a, e);
    assert [] + [a] == [a];
  }

  /** A pod that asks for the address of an idle port gets to own it. */
  lemma Grab(s: Sys, run0: seq<Act>, m: Sys, pod: string, x: Item) returns (run: seq<Act>, e: Sys)
    requires ExecSys(s, run0) == Some(m) && Inv(m.pool) && LockFree(m.pool) && x in m.pool.idle
    requires |m.pool.procs| !in m.reqs
    ensures ExecSys(s, run) == Some(e) && e.owner == m.owner[pod := x.port.id]
  {
    var t := |m.pool.procs|;
    hide Inv, LockFree, ExecSys, NextSys;
    var s2, s3 := NamedAllocWins(m, pod, StaticIdle(x.port.id), x);
    ExtendSys(s, run0, m, Alloc(pod, StaticIdle(x.port.id)), s2);
    run := run0 + [Alloc(pod, StaticIdle(x.port.id))];
    ExtendSys(s, run, s2, Pool(AcqLock(t)), s3);
    run := run + [Pool(AcqLock(t))];
    RecordWrites(s3, t, pod, x.port.id);
    e := Recorded(s3, t, pod, x.port.id);
    ExtendSys(s, run, s3, Record(t, true), e);
    run := run + [Record(t, true)];
  }

  // ----- a pool of one port -----

  const ONLY := Port("p", "10.0.0.1")

  /** One idle port at startup, capacity one. */
  function OnePort(): (s: St) {
    St(Config(0, 1, 1), [Item(ONLY, 0)], map[], 0, [], Check(false), map["p" := ONLY], 0, 1, 0)
  }

  lemma OnePortStarts()
    ensures Started(OnePort())
  {
    assert OnePort().idle[0] in OnePort().idle;
  }

  lemma OnePortInv()
    ensures Inv(OnePort())
  {
    hide Started, Inv, OnePort;
    OnePortStarts();
    PoolTheorems.StartedInv(OnePort());
  }

  lemma OnePortFacts()
    ensures LockFree(OnePort()) && Item(ONLY, 0) in OnePort().idle
    ensures OnePort().inuse == map[] && OnePort().procs == [] && OnePort().now == 0
  {
    assert OnePort().idle[0] == Item(ONLY, 0);
  }

  lemma OnePortBoots() returns (s: Sys)
    ensures s == Sys(OnePort(), map[], map[], map[], map[]) && FirstBoot(s)
  {
    OnePortStarts();
    hide Started;
    s := Sys(OnePort(), map[], map[], map[], map[]);
  }

  lemma NoActs(rule: Rule, s: Sys)
    ensures ExecSys(s, []) == Some(s) && RunObeys(rule, s, [])
  {
  }

  lemma CallsFor(m: Sys, pod: string, id: string)
    ensures CallOf(m, pod, StaticIdle(id)) == Spawn(id)
  {
  }

  lemma HolderObeys(m: Sys, a: Act)
    requires a.RelRead? ==> a.pod in m.owner
    ensures Obeys(OnlyHeld, m, a)
  {
  }

  lemma ApartObeys(m: Sys, a: Act)
    requires m.reqs == map[] && m.rels == map[]
    ensures Obeys(OnlyApart, m, a)
  {
  }

  lemma InUseUnderItsId(s: St, id: string)
    requires Inv(s) && id in s.inuse
    ensures s.inuse[id].id == id
  {
  }

  lemma RecordForOne(pod: string, id: string)
    ensures |RecordFor(pod, id).resources| == 1 && RecordFor(pod, id).resources[0].id == id
  {
  }

  lemma FreedRels(pod: string, stick: int, before: map<nat, Rel>, after: map<nat, Rel>)
    requires before.Keys == {0} && before[0].pod == pod && before[0].stick == stick && |before[0].left| == 1
    requires after == before[0 := before[0].(left := before[0].left[1..])]
    ensures after == map[0 := Rel(pod, stick, [])]
  {
    assert before[0].left[1..] == [];
  }

  lemma ReadsRecord(m: Sys, pod: string, stick: int, m1: Sys)
    requires m.rels == map[] && pod in m.db && m1 == m.(rels := map[0 := Rel(pod, stick, m.db[pod].resources)])
    ensures NextSys(m, RelRead(0, pod, stick)) == Some(m1)
  {
  }

  /** ReleaseIP of the pod reads its record and frees its port. */
  lemma ThenFree(rule: Rule, s: Sys, run0: seq<Act>, m: Sys, pod: string, stick: int)
    returns (run: seq<Act>, e: Sys, x: Item)
    requires ExecSys(s, run0) == Some(m) && RunObeys(rule, s, run0) && Obeys(rule, m, RelRead(0, pod, stick))
    requires Inv(m.pool) && LockFree(m.pool) && m.pool.now == 0 && m.rels == map[] && m.reqs == map[]
    requires "p" in m.pool.inuse && pod in m.db && m.db[pod] == RecordFor(pod, "p")
    ensures ExecSys(s, run) == Some(e) && RunObeys(rule, s, run)
    ensures x in e.pool.idle && x.port.id == "p"
    ensures e == m.(pool := e.pool, owner := Disowned(m.owner, pod, "p"), rels := map[0 := Rel(pod, stick, [])])
    ensures Inv(e.pool) && LockFree(e.pool) && e.pool.cloud == m.pool.cloud && e.pool.now == 0
  {
    hide Inv, LockFree, ExecSys, RunObeys, NextSys, Obeys, RecordFor, Disowned;
    InUseUnderItsId(m.pool, "p");
    RecordForOne(pod, "p");
    var m1 := m.(rels := map[0 := Rel(pod, stick, m.db[pod].resources)]);
    ReadsRecord(m, pod, stick, m1);
    run := Then(rule, s, run0, m, RelRead(0, pod, stick), m1);
    e, x := FreeMakesIdle(m1, 0);
    OthersObey(rule, m1, RelPool(0));
    FreedRels(pod, stick, m1.rels, e.rels);
    run := Then(rule, s, run, m1, RelPool(0), e);
  }

  lemma ThenDelete(rule: Rule, s: Sys, run0: seq<Act>, m: Sys, deleted: bool) returns (run: seq<Act>, e: Sys)
    requires ExecSys(s, run0) == Some(m) && RunObeys(rule, s, run0)
    requires m.rels.Keys == {0} && m.rels[0].left == []
    ensures ExecSys(s, run) == Some(e) && RunObeys(rule, s, run)
    ensures e == m.(rels := map[], db := if m.rels[0].stick == 0 && deleted then m.db - {m.rels[0].pod} else m.db)
  {
    hide ExecSys, RunObeys, Obeys;
    e := m.(rels := map[], db := if m.rels[0].stick == 0 && deleted then m.db - {m.rels[0].pod} else m.db);
    assert m.rels - {0} == map[];
    OthersObey(rule, m, RelDelete(0, deleted));
    run := Then(rule, s, run0, m, RelDelete(0, deleted), e);
  }

  /**
   * A reachable state outside the other guard: a is released while it holds the
   * port, but between the turn that frees the port and the deletion of the
   * record an AllocateIP for a reads that record, takes the port again and
   * writes the record again. The deletion leaves a with a port and no record.
   */
  lemma LostRecord() returns (s: Sys, run: seq<Act>, e: Sys)
    ensures FirstBoot(s) && ExecSys(s, run) == Some(e) && RunObeys(OnlyHeld, s, run)
    ensures e.db == map[] && e.owner == map["a" := "p"] && e.reqs == map[] && e.rels == map[]
    ensures e.pool.cloud == OnePort().cloud && e.pool.now == 0
  {
    var m, x;
    s, run, m, x := HalfReleased();
    hide FirstBoot, Inv, LockFree, ExecSys, RunObeys, NextSys, Obeys, CallOf, OnePort, RecordFor;
    CallsRecorded(m, "a", "p");
    HolderObeys(m, Alloc("a", Dynamic));
    run, m := ThenAllocate(OnlyHeld, s, run, m, "a", Dynamic, x);
    assert m.db == map["a" := RecordFor("a", "p")] && m.owner == map["a" := "p"];
    run, e := ThenDelete(OnlyHeld, s, run, m, true);
    assert e.db == map[];
  }

  /** ReleaseIP of pod a between freeing the port and deleting the record. */
  lemma HalfReleased() returns (s: Sys, run: seq<Act>, e: Sys, x: Item)
    ensures FirstBoot(s) && ExecSys(s, run) == Some(e) && RunObeys(OnlyHeld, s, run)
    ensures e.db == map["a" := RecordFor("a", "p")] && e.owner == map[] && e.reqs == map[]
    ensures e.rels == map[0 := Rel("a", 0, [])]
    ensures x in e.pool.idle && x.port.id == "p" && e.pool.cloud == OnePort().cloud && e.pool.now == 0
    ensures Inv(e.pool) && LockFree(e.pool)
  {
    s := OnePortBoots();
    NoActs(OnlyHeld, s);
    var m;
    hide FirstBoot, Inv, LockFree, ExecSys, RunObeys, NextSys, Obeys, CallOf, OnePort, RecordFor;
    HolderObeys(s, Alloc("a", StaticIdle("p")));
    run, m := ThenAllocateOnly(OnlyHeld, s, [], s, "a");
    assert m.db == map["a" := RecordFor("a", "p")] && m.owner == map["a" := "p"];
    HolderObeys(m, RelRead(0, "a", 0));
    run, e, x := ThenFree(OnlyHeld, s, run, m, "a", 0);
    assert e.owner == map[];
  }

  /** So releases must not overlap other calls for the pod: after a restart b is given the port that a holds. */
  lemma OverlapShares() returns (s: Sys, run: seq<Act>, e: Sys)
    ensures FirstBoot(s) && ExecSys(s, run) == Some(e) && RunObeys(OnlyHeld, s, run)
    ensures Shares(e, "a", "b")
  {
    var m;
    s, run, m := LostRecord();
    var m2 := m.(pool := OnePort(), rels := map[]);
    ComesBackIdle(m, m2);
    hide FirstBoot, Inv, LockFree, ExecSys, RunObeys, NextSys, Obeys, CallOf, OnePort;
    OthersObey(OnlyHeld, m, Restart(OnePort()));
    run := Then(OnlyHeld, s, run, m, Restart(OnePort()), m2);
    HolderObeys(m2, Alloc("b", StaticIdle("p")));
    run, e := ThenAllocateOnly(OnlyHeld, s, run, m2, "b");
  }

  /** A reachable state outside the guard: b holds the port, and the record kept for a still names it. */
  lemma StaleRecord() returns (s: Sys, run: seq<Act>, e: Sys)
    ensures FirstBoot(s) && ExecSys(s, run) == Some(e) && RunObeys(OnlyApart, s, run)
    ensures e.db == map["a" := RecordFor("a", "p"), "b" := RecordFor("b", "p")] && e.owner == map["b" := "p"]
    ensures e.reqs == map[] && e.rels == map[] && "p" in e.pool.inuse && e.pool.now == 0
    ensures Inv(e.pool) && LockFree(e.pool)
  {
    hide FirstBoot, Inv, LockFree, ExecSys, RunObeys, NextSys, Obeys, CallOf, OnePort, RecordFor;
    s := OnePortBoots();
    NoActs(OnlyApart, s);
    OnePortFacts();
    var m, x;
    ApartObeys(s, Alloc("a", StaticIdle("p")));
    run, m := ThenAllocateOnly(OnlyApart, s, [], s, "a");
    ApartObeys(m, RelRead(0, "a", 10));
    run, m, x := ThenFree(OnlyApart, s, run, m, "a", 10);
    run, m := ThenDelete(OnlyApart, s, run, m, true);
    ApartObeys(m, Alloc("b", StaticIdle("p")));
    CallsFor(m, "b", "p");
    run, e := ThenAllocate(OnlyApart, s, run, m, "b", StaticIdle("p"), x);
  }

  /**
   * And a pod must hold a port when it is released. Pod a gives its port back
   * but keeps its record for the stick time, b is given the port, and a second
   * release of a, with no other call for a about, frees it again.
   */
  lemma StaleReleaseShares() returns (s: Sys, run: seq<Act>, e: Sys)
    ensures FirstBoot(s) && ExecSys(s, run) == Some(e) && RunObeys(OnlyApart, s, run)
    ensures Shares(e, "a", "b")
  {
    var m, x;
    s, run, m := StaleRecord();
    hide FirstBoot, Inv, LockFree, ExecSys, RunObeys, NextSys, Obeys, CallOf;
    ApartObeys(m, RelRead(0, "a", 10));
    run, m, x := ThenFree(OnlyApart, s, run, m, "a", 10);
    run, m := ThenDelete(OnlyApart, s, run, m, true);
    CallsRecorded(m, "a", "p");
    ApartObeys(m, Alloc("a", Dynamic));
    run, e := ThenAllocate(OnlyApart, s, run, m, "a", Dynamic, x);
  }

  /** The first AllocateIP on the pool of one port. */
  lemma ThenAllocateOnly(rule: Rule, s: Sys, run0: seq<Act>, m: Sys, pod: string) returns (run: seq<Act>, e: Sys)
    requires ExecSys(s, run0) == Some(m) && RunObeys(rule, s, run0) && Obeys(rule, m, Alloc(pod, StaticIdle("p")))
    requires m.pool == OnePort() && m.reqs == map[] && m.rels == map[]
    ensures ExecSys(s, run) == Some(e) && RunObeys(rule, s, run)
    ensures e == m.(pool := e.pool, db := m.db[pod := RecordFor(pod, "p")], owner := m.owner[pod := "p"])
    ensures e.pool.inuse == map["p" := ONLY] && e.pool.cloud == OnePort().cloud && e.pool.now == 0
    ensures Inv(e.pool) && LockFree(e.pool)
  {
    hide Started, Inv, ExecSys, RunObeys, Obeys, OnePort, LockFree;
    OnePortFacts();
    OnePortInv();
    var x := Item(ONLY, 0);
    CallsFor(m, pod, "p");
    run, e := ThenAllocate(rule, s, run0, m, pod, StaticIdle("p"), x);
  }

  /** With no record left, the port comes back idle. */
  lemma ComesBackIdle(m: Sys, m2: Sys)
    requires m.pool.cloud == OnePort().cloud && m.pool.now == 0 && m.db == map[] && m.reqs == map[]
    requires m2 == m.(pool := OnePort(), rels := map[])
    ensures NextSys(m, Restart(OnePort())) == Some(m2)
  {
    OnePortStarts();
    hide Started;
    assert RecordedIds(m.db) == {};
    assert m.pool.cloud.Keys * RecordedIds(m.db) == {};
  }

  // ----- a pool of two ports -----

  const FIRST := Port("p", "10.0.0.1")
  const SECOND := Port("q", "10.0.0.2")

  /** Two idle ports at startup, capacity two. */
  function TwoPorts(): (s: St) {
    St(Config(0, 2, 2), [Item(FIRST, 0), Item(SECOND, 0)], map[], 0, [], Check(false),
       map["p" := FIRST, "q" := SECOND], 0, 2, 0)
  }

  lemma TwoPortsStart()
    ensures Started(TwoPorts())
  {
    assert TwoPorts().idle[0] in TwoPorts().idle && TwoPorts().idle[1] in TwoPorts().idle;
  }

  lemma TwoPortsInv()
    ensures Inv(TwoPorts())
  {
    hide Started, Inv, TwoPorts;
    TwoPortsStart();
    PoolTheorems.StartedInv(TwoPorts());
  }

  lemma TwoPortsFacts()
    ensures LockFree(TwoPorts()) && Item(FIRST, 0) in TwoPorts().idle && Item(SECOND, 0) in TwoPorts().idle
    ensures TwoPorts().inuse == map[] && TwoPorts().procs == [] && TwoPorts().now == 0
  {
    assert TwoPorts().idle[0] == Item(FIRST, 0) && TwoPorts().idle[1] == Item(SECOND, 0);
  }

  lemma TwoPortsBoot() returns (s: Sys)
    ensures s == Sys(TwoPorts(), map[], map[], map[], map[]) && FirstBoot(s)
  {
    TwoPortsStart();
    hide Started;
    s := Sys(TwoPorts(), map[], map[], map[], map[]);
  }

  /** With no record left, both ports come back idle. */
  lemma BothComeBackIdle(m: Sys, m2: Sys)
    requires m.pool.cloud == TwoPorts().cloud && m.pool.now == 0 && m.db == map[] && m.reqs == map[]
    requires m2 == m.(pool := TwoPorts(), rels := map[])
    ensures NextSys(m, Restart(TwoPorts())) == Some(m2)
  {
    TwoPortsStart();
    hide Started;
    assert RecordedIds(m.db) == {};
    assert m.pool.cloud.Keys * RecordedIds(m.db) == {};
  }

  /** The first AllocateIP on the pool of two ports. */
  lemma AllocateFirst() returns (s: Sys, run: seq<Act>, e: Sys)
    ensures FirstBoot(s) && ExecSys(s, run) == Some(e) && RunObeys(OnlyHeld, s, run)
    ensures e.db == map["a" := RecordFor("a", "p")] && e.owner == map["a" := "p"] && e.reqs == map[] && e.rels == map[]
    ensures "p" in e.pool.inuse && Item(SECOND, 0) in e.pool.idle
    ensures e.pool.cloud == TwoPorts().cloud && e.pool.now == 0 && Inv(e.pool) && LockFree(e.pool)
  {
    hide FirstBoot, Inv, LockFree, ExecSys, RunObeys, NextSys, Obeys, CallOf, TwoPorts, RecordFor;
    s := TwoPortsBoot();
    NoActs(OnlyHeld, s);
    TwoPortsInv();
    TwoPortsFacts();
    HolderObeys(s, Alloc("a", StaticIdle("p")));
    CallsFor(s, "a", "p");
    run, e := ThenAllocate(OnlyHeld, s, [], s, "a", StaticIdle("p"), Item(FIRST, 0));
  }

  /** Pod a is given p and its release reads that. */
  lemma ReadFirst() returns (s: Sys, run: seq<Act>, e: Sys)
    ensures FirstBoot(s) && ExecSys(s, run) == Some(e) && RunObeys(OnlyHeld, s, run)
    ensures e.db == map["a" := RecordFor("a", "p")] && e.owner == map["a" := "p"] && e.reqs == map[]
    ensures e.rels == map[0 := Rel("a", 0, RecordFor("a", "p").resources)]
    ensures "p" in e.pool.inuse && Item(SECOND, 0) in e.pool.idle
    ensures e.pool.cloud == TwoPorts().cloud && e.pool.now == 0 && Inv(e.pool) && LockFree(e.pool)
  {
    hide FirstBoot, Inv, LockFree, ExecSys, RunObeys, NextSys, Obeys, CallOf, TwoPorts, RecordFor;
    var m;
    s, run, m := AllocateFirst();
    e := m.(rels := map[0 := Rel("a", 0, m.db["a"].resources)]);
    ReadsRecord(m, "a", 0, e);
    HolderObeys(m, RelRead(0, "a", 0));
    run := Then(OnlyHeld, s, run, m, RelRead(0, "a", 0), e);
  }

  /** Meanwhile a second AllocateIP gives it q. */
  lemma ReadThenAllocated() returns (s: Sys, run: seq<Act>, e: Sys)
    ensures FirstBoot(s) && ExecSys(s, run) == Some(e) && RunObeys(OnlyHeld, s, run)
    ensures e.db == map["a" := RecordFor("a", "q")] && e.owner == map["a" := "q"] && e.reqs == map[]
    ensures e.rels == map[0 := Rel("a", 0, RecordFor("a", "p").resources)]
    ensures "p" in e.pool.inuse && e.pool.cloud == TwoPorts().cloud && e.pool.now == 0
    ensures Inv(e.pool) && LockFree(e.pool)
  {
    hide FirstBoot, Inv, LockFree, ExecSys, RunObeys, NextSys, Obeys, CallOf, TwoPorts, RecordFor;
    var m;
    s, run, m := ReadFirst();
    HolderObeys(m, Alloc("a", StaticIdle("q")));
    CallsFor(m, "a", "q");
    run, e := ThenAllocate(OnlyHeld, s, run, m, "a", StaticIdle("q"), Item(SECOND, 0));
    assert e.db == map["a" := RecordFor("a", "q")] && e.owner == map["a" := "q"];
  }

  /**
   * The release goes on with what it has read: it frees p, which nobody owns
   * any more, and deletes the record, which is now that of q. Only the second of
   * these steps is outside its guard.
   */
  lemma DeletesNewRecord() returns (s: Sys, run: seq<Act>, m: Sys, e: Sys)
    ensures FirstBoot(s) && ExecSys(s, run) == Some(e) && RunObeys(OnlyHeld, s, run)
    ensures !SafeAct(m, RelDelete(0, true)) && NextSys(m, RelDelete(0, true)) == Some(e)
    ensures e.db == map[] && e.owner == map["a" := "q"] && e.reqs == map[] && e.rels == map[]
    ensures e.pool.cloud == TwoPorts().cloud && e.pool.now == 0
  {
    var m0, x;
    s, run, m0 := ReadThenAllocated();
    RecordForOne("a", "p");
    hide FirstBoot, Inv, LockFree, ExecSys, RunObeys, NextSys, Obeys, TwoPorts, RecordFor;
    m, x := FreeMakesIdle(m0, 0);
    OthersObey(OnlyHeld, m0, RelPool(0));
    run := Then(OnlyHeld, s, run, m0, RelPool(0), m);
    FreedRels("a", 0, m0.rels, m.rels);
    assert m.owner == map["a" := "q"];
    e := m.(rels := map[], db := map[]);
    DeletesOnly(m, e);
    OthersObey(OnlyHeld, m, RelDelete(0, true));
    run := Then(OnlyHeld, s, run, m, RelDelete(0, true), e);
  }

  lemma DeletesOnly(m: Sys, e: Sys)
    requires m.rels == map[0 := Rel("a", 0, [])] && m.db.Keys == {"a"} && e == m.(rels := map[], db := map[])
    ensures NextSys(m, RelDelete(0, true)) == Some(e)
  {
    assert m.rels - {0} == map[] && m.db - {"a"} == map[];
  }

  /** After a restart b is given q, which a holds. */
  lemma TwiceAllocatedShares() returns (s: Sys, run: seq<Act>, e: Sys)
    ensures FirstBoot(s) && ExecSys(s, run) == Some(e) && RunObeys(OnlyHeld, s, run)
    ensures Shares(e, "a", "b")
  {
    hide FirstBoot, Inv, LockFree, ExecSys, RunObeys, NextSys, Obeys, CallOf, TwoPorts, SafeAct;
    var m0, m;
    s, run, m0, m := DeletesNewRecord();
    var m2 := m.(pool := TwoPorts(), rels := map[]);
    BothComeBackIdle(m, m2);
    OthersObey(OnlyHeld, m, Restart(TwoPorts()));
    run := Then(OnlyHeld, s, run, m, Restart(TwoPorts()), m2);
    run, e := ThenSecond(s, run, m2, "b");
  }

  lemma ThenSecond(s: Sys, run0: seq<Act>, m: Sys, pod: string) returns (run: seq<Act>, e: Sys)
    requires ExecSys(s, run0) == Some(m) && RunObeys(OnlyHeld, s, run0) && m.pool == TwoPorts() && m.reqs == map[]
    ensures ExecSys(s, run) == Some(e) && RunObeys(OnlyHeld, s, run) && e.owner == m.owner[pod := "q"]
  {
    hide Inv, LockFree, ExecSys, RunObeys, NextSys, Obeys, CallOf, TwoPorts;
    TwoPortsInv();
    TwoPortsFacts();
    HolderObeys(m, Alloc(pod, StaticIdle("q")));
    CallsFor(m, pod, "q");
    run, e := ThenAllocate(OnlyHeld, s, run0, m, pod, StaticIdle("q"), Item(SECOND, 0));
  }
}
