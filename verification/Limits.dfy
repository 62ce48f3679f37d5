/**
 * Which pools can get into trouble, from the numbers they are started with: a
 * send on tokenCh that waits, more ports than the capacity, a lost lock.
 */
module Limits {
  import opened PoolTypes
  import opened PoolSteps
  import opened PoolInvariant
  import opened PoolSafety
  import opened PoolTheorems
  import opened Environments
  import opened Startup
  import Heap

  // ----- runs -----

  lemma Go(s: St, run0: seq<Label>, m: St, l: Label, e: St) returns (run: seq<Label>)
    requires Exec(s, run0) == Some(m) && Next(m, l) == Some(e)
    ensures Exec(s, run) == Some(e) && CountStatic(run) == CountStatic(run0) + One(l.StaticPut?)
  {
    Extend(s, run0, m, l, e);
    run := run0 + [l];
    assert run[..|run| - 1] == run0;
  }

  // ----- how far the ticker thins the pool out -----

  /**
   * The size below which checkIdle never brings the pool. The sum it compares
   * with the capacity is read without the lock, one size after the other, and
   * may count a port twice that moves in between: hence half the capacity.
   */
  function LowWater(cfg: Config): (m: nat) {
    Max(0, Min(cfg.maxIdle, cfg.capacity / 2))
  }

  /** Only the ticker taking the root makes the pool smaller. */
  lemma SizeGrows(s: St, l: Label, s': St)
    requires Inv(s) && Next(s, l) == Some(s')
    ensures Size(s') + One(l.TickLock? && s.idle != []) >= Size(s) + One(l.StaticPut?)
  {
    hide Inv, Next;
    if l.AcqLock? {
      NextIsAcqLocked(s, l.t);
      LockKeepsSize(s, l.t, s');
    } else if l.Release? {
      ReleaseKeepsSize(s, l.id, l.stick, s');
    } else {
      OtherSizeGrows(s, l, s');
    }
  }

  lemma NextIsAcqLocked(s: St, t: nat)
    ensures Next(s, AcqLock(t)) == AcqLocked(s, t)
  {
  }

  lemma ReleaseKeepsSize(s: St, id: string, stick: int, s': St)
    requires Next(s, Release(id, stick)) == Some(s')
    ensures Size(s') == Size(s)
  {
    MapRemove(s.inuse, id);
    hide Heap.Push;
  }

  lemma LockKeepsSize(s: St, t: nat, s': St)
    requires Inv(s) && AcqLocked(s, t) == Some(s')
    ensures Size(s') == Size(s)
  {
    hide Inv, GetOne;
    if s.idle != [] {
      var (x, rest) := GetOne(s.idle, s.procs[t].prefer);
      GetOneTakesOne(s.idle, s.procs[t].prefer);
      CallerTakes(s, t, x, rest, s');
    }
  }

  lemma OtherSizeGrows(s: St, l: Label, s': St)
    requires Next(s, l) == Some(s') && !l.AcqLock? && !l.Release?
    ensures Size(s') + One(l.TickLock? && s.idle != []) >= Size(s) + One(l.StaticPut?)
  {
    if l.AcqAdd? {
      AddKeepsInuse(s, l.t, s');
    } else {
      hide Next;
      SameInuse(s, l, s');
      OtherIdleGrows(s, l, s');
    }
  }

  lemma SameInuse(s: St, l: Label, s': St)
    requires Next(s, l) == Some(s') && !l.AcqLock? && !l.Release? && !l.AcqAdd?
    ensures s'.inuse == s.inuse
  {
    hide Heap.Push, Heap.Pop;
  }

  lemma AddKeepsInuse(s: St, t: nat, s': St)
    requires AcqAdds(s, t) == Some(s')
    ensures s'.idle == s.idle && |s'.inuse| >= |s.inuse|
  {
    assert s'.inuse.Keys == s.inuse.Keys + {s.procs[t].port.id};
  }

  lemma OtherIdleGrows(s: St, l: Label, s': St)
    requires Next(s, l) == Some(s') && !l.AcqLock? && !l.Release? && !l.AcqAdd?
    ensures |s'.idle| + One(l.TickLock? && s.idle != []) >= |s.idle| + One(l.StaticPut?)
  {
    hide Heap.Push, Heap.Pop;
    if !l.TickLock? && !l.StaticPut? && !l.TickPutBack? && !l.TickAdd? {
      assert s'.idle == s.idle;
    }
  }

  /** From a start with size0 ports. */
  ghost predicate NotTooThin(size0: nat, s: St) {
    && s.tokens <= s.cfg.capacity
    && (s.ticker.GotIdle? ==> s.ticker.idle <= Size(s))
    && (s.ticker.GotInuse? ==> s.ticker.inuse <= Size(s))
    && (s.ticker.Locking? ==> LowWater(s.cfg) == 0 || Size(s) > LowWater(s.cfg))
    && Size(s) >= Min(LowWater(s.cfg), size0 + s.statics)
  }

  lemma StaysThick(size0: nat, s: St, l: Label, s': St)
    requires Inv(s) && NotTooThin(size0, s) && Next(s, l) == Some(s')
    ensures NotTooThin(size0, s')
  {
    SizeGrows(s, l, s');
    StepHistory(s, l, s');
    TokensStayBelow(s, l, s');
    if l.TickCheck? || l.TickAny? || l.TickSumIdle? || l.TickSumInuse? || l.TickSum? {
      LookIsThick(s, l, s');
    } else {
      hide Inv, Next;
      NoLook(s, l, s');
    }
  }

  lemma LookIsThick(s: St, l: Label, s': St)
    requires Next(s, l) == Some(s') && (l.TickCheck? || l.TickAny? || l.TickSumIdle? || l.TickSumInuse? || l.TickSum?)
    requires s.ticker.GotIdle? ==> s.ticker.idle <= Size(s)
    requires s.ticker.GotInuse? ==> s.ticker.inuse <= Size(s)
    ensures Size(s') == Size(s)
    ensures s'.ticker.GotIdle? ==> s'.ticker.idle <= Size(s')
    ensures s'.ticker.GotInuse? ==> s'.ticker.inuse <= Size(s')
    ensures s'.ticker.Locking? ==> LowWater(s'.cfg) == 0 || Size(s') > LowWater(s'.cfg)
  {
  }

  lemma TokensStayBelow(s: St, l: Label, s': St)
    requires Next(s, l) == Some(s') && s.tokens <= s.cfg.capacity
    ensures s'.tokens <= s.cfg.capacity
  {
  }

  /** Labels of steps that are not the ticker's. */
  predicate NotTicker(l: Label) {
    l.Advance? || l.Spawn? || l.SpawnStatic? || l.AcqLock? || l.AcqToken? || l.AcqCancel? || l.AcqCreate? || l.AcqAdd?
    || l.AcqRefund? || l.StaticMade? || l.StaticPut? || l.Release?
  }

  lemma SameTicker(s: St, l: Label, s': St)
    requires Next(s, l) == Some(s') && NotTicker(l)
    ensures s'.ticker == s.ticker
  {
    hide GetOne, Heap.Push;
  }

  lemma NoLook(s: St, l: Label, s': St)
    requires Next(s, l) == Some(s') && !(l.TickCheck? || l.TickAny? || l.TickSumIdle? || l.TickSumInuse? || l.TickSum?)
    ensures s'.ticker.GotIdle? || s'.ticker.GotInuse? || s'.ticker.Locking? ==> s'.ticker == s.ticker && !l.TickLock?
    ensures l.TickLock? ==> s.ticker.Locking?
  {
    if NotTicker(l) {
      SameTicker(s, l, s');
    } else {
      NoLookOfTicker(s, l, s');
    }
  }

  lemma NoLookOfTicker(s: St, l: Label, s': St)
    requires Next(s, l) == Some(s') && !NotTicker(l)
    requires !(l.TickCheck? || l.TickAny? || l.TickSumIdle? || l.TickSumInuse? || l.TickSum?)
    ensures !s'.ticker.GotIdle? && !s'.ticker.GotInuse? && !s'.ticker.Locking?
    ensures l.TickLock? ==> s.ticker.Locking?
  {
    hide Heap.Push, Heap.Pop, NeedAddition, Register;
  }

  lemma {:induction false} ThickOverRuns(s: St, run: seq<Label>, s': St)
    requires Started(s) && Exec(s, run) == Some(s')
    ensures Inv(s') && NotTooThin(Size(s), s')
  {
    hide Inv, NotTooThin, Started;
    if run == [] {
      StartedInv(s);
      assert NotTooThin(Size(s), s) by {
        StartedThick(s);
      }
    } else {
      var n := |run| - 1;
      var m := Exec(s, run[..n]).value;
      ThickOverRuns(s, run[..n], m);
      InvStep(m, run[n], s');
      StaysThick(Size(s), m, run[n], s');
    }
  }

  lemma StartedThick(s: St)
    requires Started(s)
    ensures NotTooThin(Size(s), s)
  {
  }

  // ----- sends that wait -----

  ghost predicate SendWaits(s: St) {
    SendPending(s) && !SendRoom(s)
  }

  /** A run with k static creations that ends with a send waiting. */
  ghost predicate WaitsAfter(s: St, run: seq<Label>, k: nat) {
    CountStatic(run) == k && Exec(s, run).Some? && SendWaits(Exec(s, run).value)
  }

  /** The ports loaded or created beyond the capacity. */
  function Excess(s: St, k: nat): (n: nat) {
    Max(0, s.loaded - s.cfg.capacity) + k
  }

  lemma WaitingNeedsExcess(s: St, run: seq<Label>, s': St)
    requires Started(s) && Exec(s, run) == Some(s') && SendWaits(s')
    ensures Excess(s, CountStatic(run)) > LowWater(s.cfg)
  {
    Conservation(s, run, s');
    RunHistory(s, run, s');
    ThickOverRuns(s, run, s');
    if !s'.ticker.Disposed? && !s'.ticker.FillReturn? {
      var t :| 0 <= t < |s'.procs| && s'.procs[t].Refund?;
      HolderCounts(s'.procs, t);
    }
    assert InFlight(s') >= 1;
  }

  /** Everything in use is released, with the same stick time. */
  lemma {:induction false} ReleaseAll(s: St, run0: seq<Label>, m: St, stick: int) returns (run: seq<Label>, e: St)
    requires Exec(s, run0) == Some(m) && Inv(m) && LockFree(m)
    requires stick > 0 ==> forall x | x in m.idle :: x.reverse > m.now
    ensures Exec(s, run) == Some(e) && CountStatic(run) == CountStatic(run0) && Inv(e)
    ensures e == m.(idle := e.idle, inuse := map[]) && |e.idle| == Size(m)
    ensures stick > 0 ==> forall x | x in e.idle :: x.reverse > e.now
    ensures stick <= 0 && (forall x | x in m.idle :: x.reverse <= m.now) ==> forall x | x in e.idle :: x.reverse <= e.now
    decreases |m.inuse|
  {
    if m.inuse == map[] {
      run, e := run0, m;
    } else {
      hide Inv, Exec, LockFree;
      var id :| id in m.inuse;
      var m1 := ReleaseOne(m, id, stick);
      run := Go(s, run0, m, Release(id, stick), m1);
      run, e := ReleaseAll(s, run, m1, stick);
    }
  }

  lemma ReleaseOne(m: St, id: string, stick: int) returns (e: St)
    requires Inv(m) && LockFree(m) && id in m.inuse
    requires stick > 0 ==> forall x | x in m.idle :: x.reverse > m.now
    ensures Next(m, Release(id, stick)) == Some(e) && Inv(e) && LockFree(e)
    ensures e == m.(idle := e.idle, inuse := e.inuse) && |e.inuse| < |m.inuse| && Size(e) == Size(m)
    ensures stick > 0 ==> forall x | x in e.idle :: x.reverse > e.now
    ensures stick <= 0 && (forall x | x in m.idle :: x.reverse <= m.now) ==> forall x | x in e.idle :: x.reverse <= e.now
  {
    hide Inv, CountIdle;
    e := Released(m, id, stick).value;
    ReleasedKeeps(m, id, stick, e);
    MapRemove(m.inuse, id);
    if stick > 0 {
      StillReserved(m.idle, Item(m.inuse[id], m.now + stick), m.now);
    } else {
      StillOver(m.idle, Item(m.inuse[id], m.now), m.now);
    }
    hide Heap.Push;
  }

  lemma StillOver(q: seq<Item>, x: Item, now: int)
    requires x.reverse <= now
    ensures (forall y | y in q :: y.reverse <= now) ==> forall y | y in Heap.Push(q, x) :: y.reverse <= now
  {
    PushCount(q, x);
  }

  lemma StillReserved(q: seq<Item>, x: Item, now: int)
    requires x.reverse > now && forall y | y in q :: y.reverse > now
    ensures forall y | y in Heap.Push(q, x) :: y.reverse > now
  {
    PushCount(q, x);
  }

  /** k ports with some address are created statically and wait idle. */
  lemma {:induction false} CreateStatics(s: St, run0: seq<Label>, m: St, k: nat) returns (run: seq<Label>, e: St)
    requires Exec(s, run0) == Some(m) && Inv(m) && LockFree(m)
    ensures Exec(s, run) == Some(e) && CountStatic(run) == CountStatic(run0) + k && Inv(e)
    ensures e == m.(idle := e.idle, procs := e.procs, cloud := e.cloud, statics := m.statics + k)
    ensures |e.idle| == |m.idle| + k
    decreases k
  {
    if k == 0 {
      run, e := run0, m;
    } else {
      var m1;
      run, m1 := CreateStatic(s, run0, m);
      hide Inv, Exec;
      run, e := CreateStatics(s, run, m1, k - 1);
    }
  }

  lemma CreateStatic(s: St, run0: seq<Label>, m: St) returns (run: seq<Label>, e: St)
    requires Exec(s, run0) == Some(m) && Inv(m) && LockFree(m)
    ensures Exec(s, run) == Some(e) && CountStatic(run) == CountStatic(run0) + 1 && Inv(e)
    ensures e == m.(idle := e.idle, procs := e.procs, cloud := e.cloud, statics := m.statics + 1)
    ensures |e.idle| == |m.idle| + 1
  {
    UnusedId(m.cloud.Keys);
    var id :| id != "" && id !in m.cloud.Keys;
    var p, t := Port(id, "10.0.0.9"), |m.procs|;
    var m1 := m.(procs := m.procs + [StaticCreate(p.ip)]);
    var m2 := m1.(procs := m1.procs[t := StaticAdd(p)], cloud := m.cloud[id := p]);
    e := AddIdle(m2, p).(statics := m.statics + 1, procs := m2.procs[t := Start(id)]);
    StaticSteps(m, p, m1, m2, e);
    hide Inv, Exec, Heap.Push, Next;
    run := Go(s, run0, m, SpawnStatic(p.ip), m1);
    run := Go(s, run, m1, StaticMade(t, Some(p)), m2);
    run := Go(s, run, m2, StaticPut(t), e);
    InvStep(m, SpawnStatic(p.ip), m1);
    InvStep(m1, StaticMade(t, Some(p)), m2);
    InvStep(m2, StaticPut(t), e);
  }

  lemma StaticSteps(m: St, p: Port, m1: St, m2: St, e: St)
    requires LockFree(m) && p.id != "" && p.id !in m.cloud
    requires m1 == m.(procs := m.procs + [StaticCreate(p.ip)])
    requires m2 == m1.(procs := m1.procs[|m.procs| := StaticAdd(p)], cloud := m.cloud[p.id := p])
    requires e == AddIdle(m2, p).(statics := m.statics + 1, procs := m2.procs[|m.procs| := Start(p.id)])
    ensures Next(m, SpawnStatic(p.ip)) == Some(m1)
    ensures Next(m1, StaticMade(|m.procs|, Some(p))) == Some(m2)
    ensures Next(m2, StaticPut(|m.procs|)) == Some(e)
  {
    hide Heap.Push;
  }

  function LatestOf(q: seq<Item>, from: int): (to: int)
    ensures to >= from && forall x | x in q :: x.reverse <= to
  {
    if q == [] then from
    else
      var n := |q| - 1;
      var r := LatestOf(q[..n], from);
      assert forall x | x in q :: x in q[..n] || x == q[n];
      Max(r, q[n].reverse)
  }

  /** Every idle port is acquired. */
  lemma {:induction false} AcquireAll(s: St, run0: seq<Label>, m: St) returns (run: seq<Label>, e: St)
    requires Exec(s, run0) == Some(m) && Inv(m) && LockFree(m)
    ensures Exec(s, run) == Some(e) && CountStatic(run) == CountStatic(run0) && Inv(e)
    ensures e == m.(idle := [], inuse := e.inuse, procs := e.procs) && Size(e) == Size(m)
    decreases |m.idle|
  {
    if m.idle == [] {
      run, e := run0, m;
    } else {
      hide Inv, Exec, LockFree;
      var m1, m2 := AcquireOne(m);
      run := Go(s, run0, m, Spawn(""), m1);
      run := Go(s, run, m1, AcqLock(|m.procs|), m2);
      run, e := AcquireAll(s, run, m2);
    }
  }

  lemma AcquireOne(m: St) returns (m1: St, e: St)
    requires Inv(m) && LockFree(m) && m.idle != []
    ensures Next(m, Spawn("")) == Some(m1) && Next(m1, AcqLock(|m.procs|)) == Some(e) && Inv(e) && LockFree(e)
    ensures e == m.(idle := e.idle, inuse := e.inuse, procs := e.procs)
    ensures |e.idle| == |m.idle| - 1 && Size(e) == Size(m)
  {
    hide Inv, GetOne;
    var t := |m.procs|;
    m1 := m.(procs := m.procs + [Start("")]);
    e := AcqLocked(m1, t).value;
    InvStep(m, Spawn(""), m1);
    InvStep(m1, AcqLock(t), e);
    LockKeepsSize(m1, t, e);
    GetOneTakesOne(m.idle, "");
  }

  /** The looks of checkIdle can be made to pass: above maxIdle, or if twice the idle ports exceed the capacity. */
  lemma LookPasses(s: St, run0: seq<Label>, m: St) returns (run: seq<Label>, e: St)
    requires Exec(s, run0) == Some(m) && Inv(m) && m.ticker.Check? && m.inuse == map[]
    requires |m.idle| > m.cfg.maxIdle || 2 * |m.idle| > m.cfg.capacity
    requires forall x | x in m.idle :: x.reverse <= m.now
    ensures Exec(s, run) == Some(e) && CountStatic(run) == CountStatic(run0) && Inv(e)
    ensures e == m.(ticker := Locking(m.ticker.full), idle := e.idle, procs := e.procs) && |e.idle| == |m.idle|
    ensures forall x | x in e.idle :: x.reverse <= e.now
  {
    var full := m.ticker.full;
    hide Inv, Exec, Next;
    if |m.idle| > m.cfg.maxIdle {
      e := m.(ticker := Locking(full));
      AboveMax(m, e);
      run := Go(s, run0, m, TickCheck, e);
      InvStep(m, TickCheck, e);
    } else {
      var m3;
      run, m3 := UpToSum(s, run0, m);
      run, e := SumTwice(s, run, m3);
    }
  }

  lemma AboveMax(m: St, e: St)
    requires m.ticker.Check? && |m.idle| > m.cfg.maxIdle && e == m.(ticker := Locking(m.ticker.full))
    ensures Next(m, TickCheck) == Some(e)
  {
  }

  lemma UpToSum(s: St, run0: seq<Label>, m: St) returns (run: seq<Label>, e: St)
    requires Exec(s, run0) == Some(m) && Inv(m) && m.ticker.Check? && 0 < |m.idle| <= m.cfg.maxIdle
    ensures Exec(s, run) == Some(e) && CountStatic(run) == CountStatic(run0) && Inv(e)
    ensures e == m.(ticker := GotIdle(|m.idle|, m.ticker.full))
  {
    var m1, m2 := m.(ticker := LookAny(m.ticker.full)), m.(ticker := LookSum(m.ticker.full));
    e := m.(ticker := GotIdle(|m.idle|, m.ticker.full));
    LookSteps(m, m1, m2, e);
    hide Inv, Exec, Next;
    run := Go(s, run0, m, TickCheck, m1);
    run := Go(s, run, m1, TickAny, m2);
    run := Go(s, run, m2, TickSumIdle, e);
    InvStep(m, TickCheck, m1);
    InvStep(m1, TickAny, m2);
    InvStep(m2, TickSumIdle, e);
  }

  lemma LookSteps(m: St, m1: St, m2: St, e: St)
    requires m.ticker.Check? && 0 < |m.idle| <= m.cfg.maxIdle
    requires m1 == m.(ticker := LookAny(m.ticker.full)) && m2 == m.(ticker := LookSum(m.ticker.full))
    requires e == m.(ticker := GotIdle(|m.idle|, m.ticker.full))
    ensures Next(m, TickCheck) == Some(m1) && Next(m1, TickAny) == Some(m2) && Next(m2, TickSumIdle) == Some(e)
  {
  }

  /** Between the two reads of the sum every idle port is acquired, and released again after them. */
  lemma SumTwice(s: St, run0: seq<Label>, m: St) returns (run: seq<Label>, e: St)
    requires Exec(s, run0) == Some(m) && Inv(m) && m.ticker.GotIdle? && m.inuse == map[]
    requires m.ticker.idle == |m.idle| && 2 * |m.idle| > m.cfg.capacity
    ensures Exec(s, run) == Some(e) && CountStatic(run) == CountStatic(run0) && Inv(e)
    ensures e == m.(ticker := Locking(m.ticker.full), idle := e.idle, procs := e.procs) && |e.idle| == |m.idle|
    ensures forall x | x in e.idle :: x.reverse <= e.now
  {
    hide Inv, Exec;
    var m1;
    run, m1 := AcquireAll(s, run0, m);
    var m2 := m1.(ticker := Locking(m.ticker.full));
    run := Go(s, run, m1, TickSum, m2);
    InvStep(m1, TickSum, m2);
    run, e := ReleaseAll(s, run, m2, 0);
  }

  /** With no port in use and no reservation pending, checkIdle can go on until a send waits. */
  lemma {:induction false} DisposeUntilFull(s: St, run0: seq<Label>, m: St) returns (run: seq<Label>, e: St)
    requires Exec(s, run0) == Some(m) && Inv(m)
    requires m.ticker.Check? && m.inuse == map[] && m.tokens <= m.cfg.capacity
    requires |m.idle| - (m.cfg.capacity - m.tokens) > LowWater(m.cfg)
    requires forall x | x in m.idle :: x.reverse <= m.now
    ensures Exec(s, run) == Some(e) && CountStatic(run) == CountStatic(run0) && SendWaits(e)
    decreases m.cfg.capacity - m.tokens
  {
    var m1, m3;
    hide Inv, Exec;
    run, m1 := LookPasses(s, run0, m);
    run, m3 := DisposeRoot(s, run, m1);
    if m.tokens == m.cfg.capacity {
      e := m3;
    } else {
      var m4 := m3.(ticker := Check(m.ticker.full), tokens := m.tokens + 1);
      run := Go(s, run, m3, TickSend, m4);
      InvStep(m3, TickSend, m4);
      run, e := DisposeUntilFull(s, run, m4);
    }
  }

  lemma DisposeRoot(s: St, run0: seq<Label>, m: St) returns (run: seq<Label>, e: St)
    requires Exec(s, run0) == Some(m) && Inv(m) && m.ticker.Locking? && m.idle != []
    requires forall x | x in m.idle :: x.reverse <= m.now
    ensures Exec(s, run) == Some(e) && CountStatic(run) == CountStatic(run0) && Inv(e)
    ensures e == m.(idle := e.idle, ticker := Disposed(m.ticker.full), cloud := e.cloud)
    ensures |e.idle| == |m.idle| - 1 && forall x | x in e.idle :: x.reverse <= m.now
  {
    hide Inv, Exec, Heap.Pop, Next;
    Heap.PopMembers(m.idle);
    var m2 := PopsRoot(m);
    run := Go(s, run0, m, TickLock, m2);
    InvStep(m, TickLock, m2);
    e := m2.(ticker := Disposed(m.ticker.full), cloud := m.cloud - {m2.ticker.port.id});
    Disposes(m2, e);
    run := Go(s, run, m2, TickDispose(true), e);
    InvStep(m2, TickDispose(true), e);
  }

  lemma PopsRoot(m: St) returns (e: St)
    requires m.ticker.Locking? && m.idle != [] && forall x | x in m.idle :: x.reverse <= m.now
    ensures Next(m, TickLock) == Some(e)
    ensures e == m.(idle := Heap.Pop(m.idle), ticker := Disposing(m.idle[0].port, m.ticker.full))
  {
    hide Heap.Pop, Next;
    NextIsTickLocks(m);
    assert m.idle[0] in m.idle;
    e := m.(idle := Heap.Pop(m.idle), ticker := Disposing(m.idle[0].port, m.ticker.full));
  }

  lemma NextIsTickLocks(m: St)
    ensures Next(m, TickLock) == TickLocks(m)
  {
  }

  lemma Disposes(m: St, e: St)
    requires m.ticker.Disposing?
    requires e == m.(ticker := Disposed(m.ticker.full), cloud := m.cloud - {m.ticker.port.id})
    ensures Next(m, TickDispose(true)) == Some(e)
  {
  }

  lemma ExcessWaits(s: St, k: nat) returns (run: seq<Label>)
    requires Started(s) && Excess(s, k) > LowWater(s.cfg)
    ensures WaitsAfter(s, run, k)
  {
    StartedInv(s);
    hide Inv;
    var m, e;
    run, m := ReleaseAll(s, [], s, 0);
    run, m := CreateStatics(s, run, m, k);
    var to := LatestOf(m.idle, m.now);
    run := Go(s, run, m, Advance(to), m.(now := to));
    InvStep(m, Advance(to), m.(now := to));
    run, e := DisposeUntilFull(s, run, m.(now := to));
  }

  /**
   * Exactly the pools that hold more than max(0, min(maxIdle, capacity / 2)) ports
   * beyond their capacity, from startup and static creations together, have a
   * run in which a send on tokenCh waits. In particular a pool started within
   * its capacity never blocks a sender before its first static creation.
   */
  lemma SendWaitsExactly(s: St, k: nat)
    requires Started(s)
    ensures (exists run :: WaitsAfter(s, run, k)) <==> Excess(s, k) > LowWater(s.cfg)
  {
    if run :| WaitsAfter(s, run, k) {
      WaitingNeedsExcess(s, run, Exec(s, run).value);
    }
    if Excess(s, k) > LowWater(s.cfg) {
      var run := ExcessWaits(s, k);
    }
  }

  // ----- Neutron's ports -----

  /** Static ports that are created and not yet in the queue. */
  function Hands(procs: seq<Pc>): (n: nat) {
    if procs == [] then 0 else Hands(procs[..|procs| - 1]) + One(procs[|procs| - 1].StaticAdd?)
  }

  lemma {:induction false} HandsUpdate(procs: seq<Pc>, t: nat, pc: Pc)
    requires t < |procs|
    ensures Hands(procs[t := pc]) + One(procs[t].StaticAdd?) == Hands(procs) + One(pc.StaticAdd?)
  {
    var n := |procs| - 1;
    if t == n {
      assert procs[t := pc][..n] == procs[..n];
    } else {
      HandsUpdate(procs[..n], t, pc);
      assert procs[t := pc][..n] == procs[..n][t := pc];
    }
  }

  lemma HandsAppend(procs: seq<Pc>, pc: Pc)
    ensures Hands(procs + [pc]) == Hands(procs) + One(pc.StaticAdd?)
  {
    assert (procs + [pc])[..|procs|] == procs;
  }

  /** How many ports the run creates statically. */
  function CountMade(run: seq<Label>): (n: nat) {
    if run == [] then 0
    else CountMade(run[..|run| - 1]) + One(run[|run| - 1].StaticMade? && run[|run| - 1].made.Some?)
  }

  lemma MadeStep(s: St, l: Label, s': St)
    requires Next(s, l) == Some(s')
    ensures s'.statics + Hands(s'.procs) == s.statics + Hands(s.procs) + One(l.StaticMade? && l.made.Some?)
  {
    hide Hands;
    match l {
      case Spawn(prefer) => HandsAppend(s.procs, Start(prefer));
      case SpawnStatic(ip) => HandsAppend(s.procs, StaticCreate(ip));
      case AcqLock(t) => CallerMadeStep(s, l, t, s');
      case AcqToken(t) => CallerMadeStep(s, l, t, s');
      case AcqCancel(t) => CallerMadeStep(s, l, t, s');
      case AcqCreate(t, _) => CallerMadeStep(s, l, t, s');
      case AcqAdd(t) => CallerMadeStep(s, l, t, s');
      case AcqRefund(t) => CallerMadeStep(s, l, t, s');
      case StaticMade(t, _) => CallerMadeStep(s, l, t, s');
      case StaticPut(t) => CallerMadeStep(s, l, t, s');
      case _ => SameCallers(s, l, s');
    }
  }

  lemma SameCallers(s: St, l: Label, s': St)
    requires Next(s, l) == Some(s')
    requires l.Advance? || l.Release? || l.TickBegin? || l.TickCheck? || l.TickAny? || l.TickSumIdle? || l.TickSumInuse?
             || l.TickSum? || l.TickLock? || l.TickDispose? || l.TickSend?
             || l.TickPutBack? || l.TickNeed? || l.TickCollect? || l.TickCreate? || l.TickAdd? || l.TickReturn?
    ensures s'.procs == s.procs && s'.statics == s.statics
  {
    hide Heap.Push, Heap.Pop;
  }

  lemma CallerMadeStep(s: St, l: Label, t: nat, s': St)
    requires Next(s, l) == Some(s')
    requires l.AcqLock? || l.AcqToken? || l.AcqCancel? || l.AcqCreate? || l.AcqAdd? || l.AcqRefund?
             || l.StaticMade? || l.StaticPut?
    requires t == l.t
    ensures s'.statics + Hands(s'.procs) == s.statics + Hands(s.procs) + One(l.StaticMade? && l.made.Some?)
  {
    hide Hands, GetOne, Heap.Push;
    HandsUpdate(s.procs, t, s'.procs[t]);
  }

  lemma {:induction false} MadeOverRuns(s: St, run: seq<Label>, s': St)
    requires Exec(s, run) == Some(s')
    ensures s'.statics + Hands(s'.procs) == s.statics + Hands(s.procs) + CountMade(run)
  {
    if run != [] {
      var n := |run| - 1;
      var m := Exec(s, run[..n]).value;
      MadeOverRuns(s, run[..n], m);
      MadeStep(m, run[n], s');
    }
  }

  ghost function IdleIds(q: seq<Item>): (ids: set<string>) {
    set x | x in q :: x.port.id
  }

  lemma {:induction false} IdleIdsFew(q: seq<Item>)
    ensures |IdleIds(q)| <= |q|
  {
    if q == [] {
      assert IdleIds(q) == {};
    } else {
      var n := |q| - 1;
      IdleIdsFew(q[..n]);
      assert q == q[..n] + [q[n]];
      assert IdleIds(q) == IdleIds(q[..n]) + {q[n].port.id};
    }
  }

  /** The ids of the ports that callers are about to add. */
  ghost function HeldIds(procs: seq<Pc>): (ids: set<string>) {
    if procs == [] then {}
    else
      var pc := PcPort(procs[|procs| - 1]);
      HeldIds(procs[..|procs| - 1]) + (if pc.Some? then {pc.value.id} else {})
  }

  lemma {:induction false} HeldIdsFew(procs: seq<Pc>)
    ensures |HeldIds(procs)| <= ProcTokens(procs) + Hands(procs)
  {
    if procs != [] {
      HeldIdsFew(procs[..|procs| - 1]);
    }
  }

  lemma {:induction false} HeldIdsAll(procs: seq<Pc>, id: string)
    ensures CountProcs(procs, id) > 0 ==> id in HeldIds(procs)
  {
    if procs != [] {
      HeldIdsAll(procs[..|procs| - 1], id);
    }
  }

  lemma UnionFew(a: set<string>, b: set<string>, c: set<string>, d: set<string>, all: set<string>)
    requires all <= a + b + c + d
    ensures |all| <= |a| + |b| + |c| + |d|
  {
    Smaller(all, a + b + c + d);
  }

  lemma CloudFew(s: St)
    requires Inv(s)
    ensures |s.cloud| <= Live(s) + Hands(s.procs)
  {
    var carried := if TickerPort(s.ticker).Some? then {TickerPort(s.ticker).value.id} else {};
    hide Inv, IdleIds, HeldIds, ProcTokens, Hands, TickerPort, TickerTokens;
    EveryIdSomewhere(s, carried);
    IdleIdsFew(s.idle);
    HeldIdsFew(s.procs);
    UnionFew(IdleIds(s.idle), s.inuse.Keys, HeldIds(s.procs), carried, s.cloud.Keys);
    assert |s.cloud| == |s.cloud.Keys| && |s.inuse| == |s.inuse.Keys|;
    CarriedIsPaid(s.ticker);
  }

  /** A port the ticker carries is worth a token. */
  lemma CarriedIsPaid(k: Ticker)
    ensures One(TickerPort(k).Some?) <= TickerTokens(k)
  {
  }

  lemma EveryIdSomewhere(s: St, carried: set<string>)
    requires Inv(s) && carried == if TickerPort(s.ticker).Some? then {TickerPort(s.ticker).value.id} else {}
    ensures s.cloud.Keys <= IdleIds(s.idle) + s.inuse.Keys + HeldIds(s.procs) + carried
  {
    forall id | id in s.cloud
      ensures id in IdleIds(s.idle) + s.inuse.Keys + HeldIds(s.procs) + carried
    {
      CountHas(s.idle, id);
      HeldIdsAll(s.procs, id);
      assert Places(s, id) == 1;
    }
  }

  /** In every reachable state Neutron lists no more ports than were loaded or may be, plus those created statically. */
  lemma CloudBound(s: St, run: seq<Label>, s': St)
    requires Started(s) && Exec(s, run) == Some(s')
    ensures s'.tokens + |s'.cloud| <= Max(s.cfg.capacity, s.loaded) + CountMade(run)
  {
    StartedInv(s);
    InvRun(s, run, s');
    CloudFew(s');
    MadeOverRuns(s, run, s');
    RunHistory(s, run, s');
    Conservation(s, run, s');
  }

  /**
   * A pool that loaded no more than its capacity: before the first static port
   * is made Neutron never lists more ports than the capacity, and up to
   * max(0, min(maxIdle, capacity / 2)) static creations every send on tokenCh finds
   * room at once.
   */
  lemma CapacityBound(s: St, run: seq<Label>, s': St)
    requires Started(s) && Exec(s, run) == Some(s') && s.loaded <= s.cfg.capacity
    ensures CountMade(run) == 0 ==> |s'.cloud| <= s.cfg.capacity
    ensures CountStatic(run) == 0 ==> Live(s') <= s.cfg.capacity
    ensures CountStatic(run) <= LowWater(s.cfg) ==> (SendPending(s') ==> SendRoom(s'))
  {
    CloudBound(s, run, s');
    Conservation(s, run, s');
    if SendWaits(s') {
      WaitingNeedsExcess(s, run, s');
    }
  }

  // ----- the lock that is never given back -----

  /** A run with k static creations that ends with the lock lost. */
  ghost predicate LosesLock(s: St, run: seq<Label>, k: nat) {
    CountStatic(run) == k && Exec(s, run).Some? && Exec(s, run).value.ticker.Wedged?
  }

  /** An empty pool without capacity stays empty, and no look of checkIdle finds an idle port. */
  lemma {:induction false} NeverLocks(s: St, run: seq<Label>, s': St)
    requires Started(s) && Exec(s, run) == Some(s') && CountStatic(run) == 0
    requires s.loaded == s.cfg.capacity == 0 <= s.cfg.maxIdle
    ensures !Looking(s'.ticker)
  {
    if run != [] {
      var n := |run| - 1;
      var m := Exec(s, run[..n]).value;
      NeverLocks(s, run[..n], m);
      Conservation(s, run[..n], m);
      RunHistory(s, run[..n], m);
      assert m.idle == [];
      hide Started, Exec;
      NeverLooks(m, run[n], s');
    }
  }

  /** Past the look that finds the queue empty. */
  predicate Looking(k: Ticker) {
    k.LookSum? || k.GotIdle? || k.GotInuse? || k.Locking? || k.Wedged?
  }

  lemma NeverLooks(s: St, l: Label, s': St)
    requires Next(s, l) == Some(s') && s.idle == [] && s.cfg.maxIdle >= 0 && !Looking(s.ticker)
    ensures !Looking(s'.ticker)
  {
    hide Heap.Push, Heap.Pop, GetOne;
    if NotTicker(l) {
      hide Next;
      SameTicker(s, l, s');
    } else if l.TickCheck? || l.TickAny? || l.TickSumIdle? || l.TickSumInuse? || l.TickSum? {
      EmptyLook(s, l, s');
    } else {
      hide Next;
      NoLook(s, l, s');
      OnlyLooksLook(s, l, s');
    }
  }

  lemma EmptyLook(s: St, l: Label, s': St)
    requires Next(s, l) == Some(s') && s.idle == [] && s.cfg.maxIdle >= 0 && !Looking(s.ticker)
    requires l.TickCheck? || l.TickAny? || l.TickSumIdle? || l.TickSumInuse? || l.TickSum?
    ensures !Looking(s'.ticker)
  {
  }

  lemma OnlyLooksLook(s: St, l: Label, s': St)
    requires Next(s, l) == Some(s') && !NotTicker(l) && !l.TickLock?
    requires !(l.TickCheck? || l.TickAny? || l.TickSumIdle? || l.TickSumInuse? || l.TickSum?)
    ensures !s'.ticker.LookSum? && !s'.ticker.Wedged?
  {
    hide Heap.Push;
  }

  /** Every token becomes a port in use. */
  lemma {:induction false} CreateAll(s: St, run0: seq<Label>, m: St) returns (run: seq<Label>, e: St)
    requires Exec(s, run0) == Some(m) && Inv(m) && LockFree(m) && m.idle == []
    requires m.tokens > 0 ==> m.tokens + |m.inuse| <= m.cfg.capacity
    ensures Exec(s, run) == Some(e) && CountStatic(run) == CountStatic(run0) && Inv(e)
    ensures e == m.(inuse := e.inuse, procs := e.procs, tokens := 0, cloud := e.cloud)
    ensures |e.inuse| == |m.inuse| + m.tokens
    decreases m.tokens
  {
    if m.tokens == 0 {
      run, e := run0, m;
    } else {
      hide Inv, Exec, LockFree;
      var m1;
      run, m1 := CreateOne(s, run0, m);
      run, e := CreateAll(s, run, m1);
    }
  }

  lemma CreateOne(s: St, run0: seq<Label>, m: St) returns (run: seq<Label>, e: St)
    requires Exec(s, run0) == Some(m) && Inv(m) && LockFree(m) && m.idle == []
    requires m.tokens > 0 && |m.inuse| < m.cfg.capacity
    ensures Exec(s, run) == Some(e) && CountStatic(run) == CountStatic(run0) && Inv(e) && LockFree(e)
    ensures e == m.(inuse := e.inuse, procs := e.procs, tokens := m.tokens - 1, cloud := e.cloud)
    ensures |e.inuse| == |m.inuse| + 1
  {
    UnusedId(m.cloud.Keys);
    var id :| id != "" && id !in m.cloud.Keys;
    var p, t := Port(id, ""), |m.procs|;
    assert id !in m.inuse;
    var m1 := m.(procs := m.procs + [Start("")]);
    var m2 := m.(procs := m.procs + [Await]);
    var m3 := m.(procs := m.procs + [Creating], tokens := m.tokens - 1);
    var m4 := m3.(procs := m.procs + [Made(p)], cloud := m.cloud[id := p]);
    e := m4.(procs := m.procs + [Done(Some(p))], inuse := m.inuse[id := p]);
    CreateSteps(m, p, m1, m2, m3, m4, e);
    hide Inv, Exec, Next, LockFree;
    run := FiveSteps(s, run0, m, Spawn(""), m1, AcqLock(t), m2, AcqToken(t), m3, AcqCreate(t, Some(p)), m4, AcqAdd(t), e);
  }

  lemma FiveSteps(s: St, run0: seq<Label>, a: St, l1: Label, b: St, l2: Label, c: St, l3: Label, d: St, l4: Label, e: St,
                  l5: Label, f: St)
    returns (run: seq<Label>)
    requires Exec(s, run0) == Some(a)
    requires Inv(a) && Next(a, l1) == Some(b) && Next(b, l2) == Some(c) && Next(c, l3) == Some(d)
    requires Next(d, l4) == Some(e) && Next(e, l5) == Some(f)
    requires !l1.StaticPut? && !l2.StaticPut? && !l3.StaticPut? && !l4.StaticPut? && !l5.StaticPut?
    ensures Exec(s, run) == Some(f) && CountStatic(run) == CountStatic(run0) && Inv(f)
  {
    hide Inv, Next, Exec;
    InvStep(a, l1, b);
    InvStep(b, l2, c);
    InvStep(c, l3, d);
    InvStep(d, l4, e);
    InvStep(e, l5, f);
    run := Go(s, run0, a, l1, b);
    run := Go(s, run, b, l2, c);
    run := Go(s, run, c, l3, d);
    run := Go(s, run, d, l4, e);
    run := Go(s, run, e, l5, f);
  }

  lemma CreateSteps(m: St, p: Port, m1: St, m2: St, m3: St, m4: St, e: St)
    requires LockFree(m) && m.idle == [] && m.tokens > 0 && |m.inuse| < m.cfg.capacity
    requires p.id != "" && p.id !in m.cloud
    requires m1 == m.(procs := m.procs + [Start("")]) && m2 == m.(procs := m.procs + [Await])
    requires m3 == m.(procs := m.procs + [Creating], tokens := m.tokens - 1)
    requires m4 == m3.(procs := m.procs + [Made(p)], cloud := m.cloud[p.id := p])
    requires e == m4.(procs := m.procs + [Done(Some(p))], inuse := m.inuse[p.id := p])
    ensures var t := |m.procs|;
            Next(m, Spawn("")) == Some(m1) && Next(m1, AcqLock(t)) == Some(m2) && Next(m2, AcqToken(t)) == Some(m3)
            && Next(m3, AcqCreate(t, Some(p))) == Some(m4) && Next(m4, AcqAdd(t)) == Some(e)
  {
    var t := |m.procs|;
    assert (m.procs + [Start("")])[t := Await] == m.procs + [Await];
    assert (m.procs + [Await])[t := Creating] == m.procs + [Creating];
    assert (m.procs + [Creating])[t := Made(p)] == m.procs + [Made(p)];
    assert (m.procs + [Made(p)])[t := Done(Some(p))] == m.procs + [Done(Some(p))];
  }

  /** The empty queue that checkIdle then finds under the lock is its last. */
  lemma EmptyAndLocked(s: St, run0: seq<Label>, m: St) returns (run: seq<Label>)
    requires Exec(s, run0) == Some(m) && Inv(m) && m.ticker.Locking?
    ensures LosesLock(s, run, CountStatic(run0))
  {
    hide Inv, Exec;
    var m1;
    run, m1 := AcquireAll(s, run0, m);
    run := Go(s, run, m1, TickLock, m1.(ticker := Wedged));
  }

  /** As large as a pool can become with k static creations. */
  lemma GrowToLimit(s: St, k: nat) returns (run: seq<Label>, e: St)
    requires Started(s)
    ensures Exec(s, run) == Some(e) && CountStatic(run) == k && Inv(e)
    ensures e.cfg == s.cfg && e.ticker == Check(false) && Size(e) == Max(s.cfg.capacity, s.loaded) + k
  {
    var m;
    run, m := UseAllTokens(s);
    hide Inv, Exec, Started;
    run, e := CreateStatics(s, run, m, k);
  }

  lemma UseAllTokens(s: St) returns (run: seq<Label>, e: St)
    requires Started(s)
    ensures Exec(s, run) == Some(e) && CountStatic(run) == 0 && Inv(e)
    ensures e.cfg == s.cfg && e.ticker == Check(false) && Size(e) == Max(s.cfg.capacity, s.loaded)
  {
    StartedInv(s);
    StartedSize(s);
    assert Exec(s, []) == Some(s);
    hide Inv, Exec, Started;
    var m;
    run, m := AcquireAll(s, [], s);
    run, e := CreateAll(s, run, m);
  }

  lemma StartedSize(s: St)
    requires Started(s)
    ensures s.ticker == Check(false) && s.tokens + Size(s) == Max(s.cfg.capacity, s.loaded)
    ensures s.tokens > 0 ==> s.tokens + Size(s) <= s.cfg.capacity
  {
  }

  /** As many idle ports as there can be, none reserved, and checkIdle about to begin. */
  lemma AllIdle(s: St, k: nat) returns (run: seq<Label>, e: St)
    requires Started(s)
    ensures Exec(s, run) == Some(e) && CountStatic(run) == k && Inv(e)
    ensures e.cfg == s.cfg && e.ticker == Check(false) && e.inuse == map[]
    ensures |e.idle| == Max(s.cfg.capacity, s.loaded) + k && forall x | x in e.idle :: x.reverse <= e.now
  {
    hide Inv, Exec, Started;
    var m;
    run, m := GrowToLimit(s, k);
    run, m := AcquireAll(s, run, m);
    run, e := ReleaseAll(s, run, m, 0);
  }

  lemma AcquiringLosesLock(s: St, k: nat) returns (run: seq<Label>)
    requires Started(s) && (Max(s.cfg.capacity, s.loaded) + k > 0 || s.cfg.maxIdle < 0)
    ensures LosesLock(s, run, k)
  {
    hide Inv, Exec, Started, LosesLock;
    var m, e;
    run, m := AllIdle(s, k);
    run, e := LookPasses(s, run, m);
    run := EmptyAndLocked(s, run, e);
  }

  /**
   * Every pool that can hold a port at all has a run that loses the lock for
   * ever: Acquire calls at the wrong moment are enough. The others have
   * one exactly if maxIdle is negative.
   */
  lemma LockLostExactly(s: St, k: nat)
    requires Started(s)
    ensures (exists run :: LosesLock(s, run, k)) <==> Max(s.cfg.capacity, s.loaded) + k > 0 || s.cfg.maxIdle < 0
  {
    if run :| LosesLock(s, run, k) {
      if Max(s.cfg.capacity, s.loaded) + k == 0 && s.cfg.maxIdle >= 0 {
        NeverLocks(s, run, Exec(s, run).value);
      }
    }
    if Max(s.cfg.capacity, s.loaded) + k > 0 || s.cfg.maxIdle < 0 {
      var run := AcquiringLosesLock(s, k);
    }
  }
}
