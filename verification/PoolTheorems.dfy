/** What holds over whole runs of the pool, whatever the interleaving. */
module PoolTheorems {
  import opened PoolTypes
  import opened PoolSteps
  import opened PoolInvariant
  import opened PoolSafety
  import Heap
  import RobHeap
  import SequentialRuns

  // ----- conservation and the capacity bound -----

  lemma {:induction false} DistinctCountsOnce(q: seq<Item>, id: string)
    requires forall i, j | 0 <= i < j < |q| :: q[i].port.id != q[j].port.id
    ensures CountIdle(q, id) <= 1
  {
    if q != [] {
      var n := |q| - 1;
      DistinctCountsOnce(q[..n], id);
      CountHas(q[..n], id);
    }
  }

  lemma StartedInv(s: St)
    requires Started(s)
    ensures Inv(s)
  {
    forall id
      ensures Places(s, id) == One(id in s.cloud)
    {
      DistinctCountsOnce(s.idle, id);
      CountHas(s.idle, id);
    }
  }

  function CountStatic(run: seq<Label>): (r: nat) {
    if run == [] then 0 else CountStatic(run[..|run| - 1]) + One(run[|run| - 1].StaticPut?)
  }

  /** The configuration and the startup load never change; `statics` counts the static creations of the run. */
  lemma {:induction false} RunHistory(s: St, run: seq<Label>, s': St)
    requires Exec(s, run) == Some(s')
    ensures s'.cfg == s.cfg && s'.loaded == s.loaded && s.now <= s'.now
    ensures s'.statics == s.statics + CountStatic(run)
  {
    if run != [] {
      var n := |run| - 1;
      var m := Exec(s, run[..n]).value;
      RunHistory(s, run[..n], m);
      StepHistory(m, run[n], s');
    }
  }

  lemma StepHistory(s: St, l: Label, s': St)
    requires Next(s, l) == Some(s')
    ensures s'.cfg == s.cfg && s'.loaded == s.loaded && s.now <= s'.now
    ensures s'.statics == s.statics + One(l.StaticPut?)
  {
  }

  /** Ports in the pool plus creates and disposes in flight. */
  function Live(s: St): (r: nat) {
    |s.idle| + |s.inuse| + InFlight(s)
  }

  /**
   * In every reachable state of every interleaving, tokens plus live ports are
   * max(capacity, ports loaded at startup) plus the static creations so far.
   */
  lemma Conservation(s: St, run: seq<Label>, s': St)
    requires Started(s) && Exec(s, run) == Some(s')
    ensures s'.tokens + Live(s') == Max(s.cfg.capacity, s.loaded) + CountStatic(run)
  {
    StartedInv(s);
    InvRun(s, run, s');
    RunHistory(s, run, s');
  }

  /** The comment on tokenCh, tokens = capacity - live, is right exactly without overfull start and static creations. */
  lemma TokenCommentExactly(s: St, run: seq<Label>, s': St)
    requires Started(s) && Exec(s, run) == Some(s')
    ensures s'.tokens == s.cfg.capacity - Live(s') <==> s.loaded <= s.cfg.capacity && CountStatic(run) == 0
  {
    Conservation(s, run, s');
  }

  /** Two ports in use at startup and a capacity of one: already the first state is a counterexample. */
  lemma OverfullStart() returns (s: St)
    ensures Started(s) && s.cfg.capacity == 1 && s.tokens != s.cfg.capacity - Live(s)
  {
    var p, q := Port("p", "10.0.0.1"), Port("q", "10.0.0.2");
    var ports := map["p" := p, "q" := q];
    assert ports.Keys == {"p", "q"};
    assert |ports| == |ports.Keys|;
    s := St(Config(0, 1, 1), [], ports, 0, [], Check(false), ports, 0, 2, 0);
  }

  /** Some goroutine is about to send on tokenCh. */
  ghost predicate SendPending(s: St) {
    || s.ticker.Disposed? || s.ticker.FillReturn?
    || exists t :: 0 <= t < |s.procs| && s.procs[t].Refund?
  }

  lemma {:induction false} HolderCounts(procs: seq<Pc>, t: nat)
    requires t < |procs|
    ensures ProcTokens(procs) >= PcTokens(procs[t])
  {
    if t < |procs| - 1 {
      HolderCounts(procs[..|procs| - 1], t);
    }
  }

  /** The room in the buffer in terms of the live ports. */
  lemma SendRoomExactly(s: St, run: seq<Label>, s': St)
    requires Started(s) && Exec(s, run) == Some(s')
    ensures SendRoom(s') <==>
            Live(s') > Max(s.cfg.capacity, s.loaded) + CountStatic(run) - s.cfg.capacity
  {
    Conservation(s, run, s');
    RunHistory(s, run, s');
  }

  // ----- one place for every port -----

  lemma {:induction false} TwiceCounts(q: seq<Item>, i: nat, j: nat)
    requires i < j < |q| && q[i].port.id == q[j].port.id
    ensures CountIdle(q, q[i].port.id) >= 2
  {
    var n := |q| - 1;
    if j == n {
      assert q[..n][i] in q[..n];
      CountHas(q[..n], q[i].port.id);
    } else {
      TwiceCounts(q[..n], i, j);
    }
  }

  lemma {:induction false} TwoCallersCount(procs: seq<Pc>, t: nat, u: nat)
    requires t < u < |procs| && PcPort(procs[t]).Some? && PcPort(procs[u]).Some?
    requires PcPort(procs[t]).value.id == PcPort(procs[u]).value.id
    ensures CountProcs(procs, PcPort(procs[t]).value.id) >= 2
  {
    var n := |procs| - 1;
    if u == n {
      ProcCountHas(procs[..n], t);
    } else {
      TwoCallersCount(procs[..n], t, u);
    }
  }

  /** Idle ids are distinct, never in use, never in anybody's hands; nor do two callers hold one port. */
  lemma EveryPortInOnePlace(s: St)
    requires Inv(s)
    ensures forall i, j | 0 <= i < j < |s.idle| :: s.idle[i].port.id != s.idle[j].port.id
    ensures forall x | x in s.idle :: x.port.id !in s.inuse
    ensures forall t | 0 <= t < |s.procs| && PcPort(s.procs[t]).Some? ::
              var id := PcPort(s.procs[t]).value.id;
              id !in s.inuse && (forall x | x in s.idle :: x.port.id != id)
              && (forall u | 0 <= u < |s.procs| && u != t && PcPort(s.procs[u]).Some? ::
                    PcPort(s.procs[u]).value.id != id)
    ensures TickerPort(s.ticker).Some? ==>
              var id := TickerPort(s.ticker).value.id;
              id !in s.inuse && (forall x | x in s.idle :: x.port.id != id)
    ensures forall id | id in s.cloud && id !in s.inuse && (forall x | x in s.idle :: x.port.id != id) ::
              CountProcs(s.procs, id) + CountOpt(TickerPort(s.ticker), id) == 1
  {
    forall i, j | 0 <= i < j < |s.idle|
      ensures s.idle[i].port.id != s.idle[j].port.id
    {
      assert Places(s, s.idle[i].port.id) <= 1;
      if s.idle[i].port.id == s.idle[j].port.id {
        TwiceCounts(s.idle, i, j);
      }
    }
    forall x | x in s.idle
      ensures x.port.id !in s.inuse
    {
      IdleCounts(s, x);
    }
    forall t | 0 <= t < |s.procs| && PcPort(s.procs[t]).Some?
      ensures var id := PcPort(s.procs[t]).value.id;
              id !in s.inuse && (forall x | x in s.idle :: x.port.id != id)
              && (forall u | 0 <= u < |s.procs| && u != t && PcPort(s.procs[u]).Some? ::
                    PcPort(s.procs[u]).value.id != id)
    {
      CallerPortAlone(s, t);
    }
    if TickerPort(s.ticker).Some? {
      var id := TickerPort(s.ticker).value.id;
      assert Places(s, id) <= 1;
      forall x | x in s.idle
        ensures x.port.id != id
      {
        IdleCounts(s, x);
      }
    }
    forall id | id in s.cloud && id !in s.inuse && (forall x | x in s.idle :: x.port.id != id)
      ensures CountProcs(s.procs, id) + CountOpt(TickerPort(s.ticker), id) == 1
    {
      CountHas(s.idle, id);
      assert Places(s, id) == 1;
    }
  }

  lemma IdleCounts(s: St, x: Item)
    requires Inv(s) && x in s.idle
    ensures CountIdle(s.idle, x.port.id) == 1 && Places(s, x.port.id) == 1 && x.port.id !in s.inuse
    ensures CountOpt(TickerPort(s.ticker), x.port.id) == 0
  {
    CountHas(s.idle, x.port.id);
    assert Places(s, x.port.id) <= 1;
  }

  lemma CallerPortAlone(s: St, t: nat)
    requires Inv(s) && t < |s.procs| && PcPort(s.procs[t]).Some?
    ensures var id := PcPort(s.procs[t]).value.id;
            id !in s.inuse && (forall x | x in s.idle :: x.port.id != id)
            && (forall u | 0 <= u < |s.procs| && u != t && PcPort(s.procs[u]).Some? ::
                  PcPort(s.procs[u]).value.id != id)
  {
    var id := PcPort(s.procs[t]).value.id;
    ProcCountHas(s.procs, t);
    CountHas(s.idle, id);
    assert Places(s, id) <= 1;
    forall u | 0 <= u < |s.procs| && u != t && PcPort(s.procs[u]).Some?
      ensures PcPort(s.procs[u]).value.id != id
    {
      if PcPort(s.procs[u]).value.id == id {
        if u < t {
          TwoCallersCount(s.procs, u, t);
        } else {
          TwoCallersCount(s.procs, t, u);
        }
      }
    }
  }

  // ----- reservations -----

  /** Some Acquire of the run takes exactly this idle item. */
  ghost predicate Taken(s: St, run: seq<Label>, x: Item) {
    run != []
    && (Taken(s, run[..|run| - 1], x)
        || (run[|run| - 1].AcqLock?
            && var m := Exec(s, run[..|run| - 1]);
               m.Some? && m.value.idle != [] && run[|run| - 1].t < |m.value.procs|
               && m.value.procs[run[|run| - 1].t].Start?
               && GetOne(m.value.idle, m.value.procs[run[|run| - 1].t].prefer).0 == x))
  }

  lemma StickyStep(s: St, l: Label, s': St, x: Item)
    requires Next(s, l) == Some(s') && x in s.idle && x.reverse > s'.now
    requires l.AcqLock? && s.idle != [] ==> GetOne(s.idle, s.procs[l.t].prefer).0 != x
    ensures x in s'.idle
  {
    StepHistory(s, l, s');
    if l.AcqLock? {
      if s.idle != [] {
        GetOneTakesOne(s.idle, s.procs[l.t].prefer);
      }
    } else if l.TickLock? {
      if !s'.ticker.Wedged? {
        RobCount(s.idle, 0);
      }
    } else if l.Release? {
      PushCount(s.idle, Item(s.inuse[l.id], if l.stick > 0 then s.now + l.stick else s.now));
    } else if l.StaticPut? {
      PushCount(s.idle, Item(s.procs[l.t].port, s.now));
    } else if l.TickPutBack? || l.TickAdd? {
      PushCount(s.idle, Item(s.ticker.port, s.now));
    }
  }

  /**
   * A reserved port stays idle through every step of every run until its
   * reservation ends or an Acquire takes that very item. No heap order is
   * assumed, so this holds after any number of Rob calls too.
   */
  lemma {:induction false} StickyStays(s: St, run: seq<Label>, s': St, x: Item)
    requires Exec(s, run) == Some(s') && x in s.idle && x.reverse > s'.now
    requires !Taken(s, run, x)
    ensures x in s'.idle
  {
    if run != [] {
      var n := |run| - 1;
      var m := Exec(s, run[..n]).value;
      StepHistory(m, run[n], s');
      StickyStays(s, run[..n], m, x);
      StickyStep(m, run[n], s', x);
    }
  }

  /** No port is deleted from Neutron before its reservation is over, unless an Acquire took it first. */
  lemma NoEarlyDisposal(s: St, run: seq<Label>, s': St, x: Item)
    requires Inv(s) && Exec(s, run) == Some(s') && x in s.idle
    requires x.port.id !in s'.cloud
    ensures x.reverse <= s'.now || Taken(s, run, x)
  {
    if x.reverse > s'.now && !Taken(s, run, x) {
      StickyStays(s, run, s', x);
      InvRun(s, run, s');
    }
  }

  /** An Acquire that names an idle port gets that port, whatever the heap order. */
  lemma NamedAcquireGetsIt(s: St, t: nat, x: Item)
    requires Inv(s) && LockFree(s) && x in s.idle
    requires t < |s.procs| && s.procs[t] == Start(x.port.id)
    ensures AcqLocked(s, t).Some? && AcqLocked(s, t).value.procs[t] == Done(Some(x.port))
    ensures AcqLocked(s, t).value.inuse == s.inuse[x.port.id := x.port]
  {
    var id := x.port.id;
    var i := Heap.IndexOf(s.idle, id);
    assert exists k :: 0 <= k < |s.idle| && s.idle[k] == x;
    assert i < |s.idle|;
    assert s.idle[i] in s.idle;
    assert Known(s.cloud, s.idle[i].port) && Known(s.cloud, x.port);
  }

  lemma ReleasedIsIdle(s: St, id: string, stick: int) returns (x: Item)
    requires Inv(s) && LockFree(s) && id in s.inuse
    ensures Released(s, id, stick).Some? && Inv(Released(s, id, stick).value) && x in Released(s, id, stick).value.idle
    ensures x == Item(s.inuse[id], if stick > 0 then s.now + stick else s.now)
    ensures LockFree(Released(s, id, stick).value)
  {
    hide Inv, Heap.Push;
    x := Item(s.inuse[id], if stick > 0 then s.now + stick else s.now);
    ReleasedKeeps(s, id, stick, Released(s, id, stick).value);
    PushHas(s.idle, x);
  }

  /**
   * Sticky reuse: released with a stick time, and nobody took that item, the
   * port goes back to an Acquire that names it before the stick time is over.
   */
  lemma StickyReuse(s: St, id: string, stick: int, s1: St, run: seq<Label>, s2: St, t: nat)
    requires Inv(s) && stick > 0 && Released(s, id, stick) == Some(s1)
    requires Exec(s1, run) == Some(s2) && s2.now < s.now + stick && LockFree(s2)
    requires !Taken(s1, run, Item(s.inuse[id], s.now + stick))
    requires t < |s2.procs| && s2.procs[t] == Start(id)
    ensures AcqLocked(s2, t).Some? && AcqLocked(s2, t).value.procs[t] == Done(Some(s.inuse[id]))
  {
    var x := ReleasedIsIdle(s, id, stick);
    assert s.inuse[id].id == id;
    hide Inv, Exec, Taken, Released;
    StickyStays(s1, run, s2, x);
    InvRun(s1, run, s2);
    NamedAcquireGetsIt(s2, t, x);
  }

  /**
   * On a heap-ordered queue an Acquire whose named port is not idle takes a
   * still-reserved port only if every idle port is reserved.
   */
  lemma ReservedOnlyIfAllReserved(s: St, t: nat)
    requires LockFree(s) && s.idle != [] && Heap.IsHeap(s.idle)
    requires t < |s.procs| && s.procs[t].Start?
    requires s.procs[t].prefer == "" || Heap.IndexOf(s.idle, s.procs[t].prefer) == |s.idle|
    ensures var x := GetOne(s.idle, s.procs[t].prefer).0;
            AcqLocked(s, t).value.procs[t] == Done(Some(x.port))
            && (x.reverse > s.now <==> forall y | y in s.idle :: y.reverse > s.now)
  {
    Heap.RootIsLeastMember(s.idle);
    assert s.idle[0] in s.idle;
  }

  // ----- heap order over runs -----

  /** The slot an Acquire takes by name, if the step does that. */
  function RobbedSlot(s: St, l: Label): (r: Option<nat>) {
    if l.AcqLock? && l.t < |s.procs| && s.procs[l.t].Start? && s.procs[l.t].prefer != ""
       && Heap.IndexOf(s.idle, s.procs[l.t].prefer) < |s.idle|
    then Some(Heap.IndexOf(s.idle, s.procs[l.t].prefer)) else None
  }

  predicate RobFits(s: St, l: Label) {
    RobbedSlot(s, l).Some? ==> RobHeap.LastFits(s.idle, RobbedSlot(s, l).value)
  }

  /** Of all steps only an Acquire by name can break heap order, and it does so exactly when its Rob does not fit. */
  lemma StepKeepsHeapExactly(s: St, l: Label, s': St)
    requires Next(s, l) == Some(s') && Heap.IsHeap(s.idle)
    ensures Heap.IsHeap(s'.idle) <==> RobFits(s, l)
  {
    if l.AcqLock? {
      if s.idle != [] {
        hide Heap.IsHeap;
        var i := if RobbedSlot(s, l).Some? then RobbedSlot(s, l).value else 0;
        RobHeap.RobOnHeap(s.idle, i);
        assert s'.idle == Heap.RobAt(s.idle, i);
      }
    } else {
      OtherStepKeepsHeap(s, l, s');
    }
  }

  lemma OtherStepKeepsHeap(s: St, l: Label, s': St)
    requires Next(s, l) == Some(s') && !l.AcqLock? && Heap.IsHeap(s.idle)
    ensures Heap.IsHeap(s'.idle)
  {
    hide Heap.IsHeap, Heap.Push, Heap.Pop;
    if l.TickLock? {
      if s.idle != [] {
        Heap.PopKeepsHeap(s.idle);
      }
    } else if l.Release? {
      Heap.PushKeepsHeap(s.idle, Item(s.inuse[l.id], if l.stick > 0 then s.now + l.stick else s.now));
    } else if l.StaticPut? {
      Heap.PushKeepsHeap(s.idle, Item(s.procs[l.t].port, s.now));
    } else if l.TickPutBack? || l.TickAdd? {
      Heap.PushKeepsHeap(s.idle, Item(s.ticker.port, s.now));
    }
  }

  /** Every Acquire by name of the run leaves a fitting item in the slot. */
  ghost predicate RobsFit(s: St, run: seq<Label>) {
    run == []
    || (var n := |run| - 1;
        RobsFit(s, run[..n]) && (Exec(s, run[..n]).Some? ==> RobFits(Exec(s, run[..n]).value, run[n])))
  }

  lemma {:induction false} HeapOverRuns(s: St, run: seq<Label>, s': St)
    requires Exec(s, run) == Some(s') && Heap.IsHeap(s.idle) && RobsFit(s, run)
    ensures Heap.IsHeap(s'.idle)
  {
    hide Heap.IsHeap, RobFits;
    if run != [] {
      var n := |run| - 1;
      var m := Exec(s, run[..n]).value;
      HeapOverRuns(s, run[..n], m);
      StepKeepsHeapExactly(m, run[n], s');
    }
  }

  // ----- the lock that is never given back -----

  /** Once the ticker has left checkIdle by a break, nothing in the pool ever changes hands again. */
  lemma {:induction false} WedgedForever(s: St, run: seq<Label>, s': St)
    requires Exec(s, run) == Some(s') && s.ticker.Wedged?
    ensures s'.ticker.Wedged? && s'.idle == s.idle && s'.inuse == s.inuse
    ensures forall t | 0 <= t < |s.procs| && s.procs[t].Start? :: t < |s'.procs| && s'.procs[t] == s.procs[t]
  {
    if run != [] {
      var n := |run| - 1;
      var m := Exec(s, run[..n]).value;
      WedgedForever(s, run[..n], m);
      WedgedStep(m, run[n], s');
    }
  }

  lemma WedgedStep(s: St, l: Label, s': St)
    requires Next(s, l) == Some(s') && s.ticker.Wedged?
    ensures s'.ticker.Wedged? && s'.idle == s.idle && s'.inuse == s.inuse
    ensures forall t | 0 <= t < |s.procs| && s.procs[t].Start? :: t < |s'.procs| && s'.procs[t] == s.procs[t]
  {
  }

  /** The lock is lost at no other step than checkIdle's locked section ... */
  lemma OnlyTickLockWedges(s: St, l: Label, s': St)
    requires Next(s, l) == Some(s') && LockFree(s)
    ensures !LockFree(s') <==> l.TickLock? && (s.idle == [] || s.idle[0].reverse > s.now)
  {
  }

  /** ... and there, on a heap-ordered queue, exactly when no idle port's reservation is over. */
  lemma WedgesExactly(s: St)
    requires s.ticker.Locking? && Heap.IsHeap(s.idle)
    ensures TickLocks(s).value.ticker.Wedged? <==> forall x | x in s.idle :: x.reverse > s.now
  {
    if s.idle != [] {
      Heap.RootIsLeastMember(s.idle);
      assert s.idle[0] in s.idle;
    }
  }

  lemma LockOne(s: St, t: nat)
    requires LockFree(s) && s.idle != [] && t < |s.procs| && s.procs[t].Start?
    ensures var e := Next(s, AcqLock(t));
            e.Some? && |e.value.idle| == |s.idle| - 1
            && e.value.ticker == s.ticker && |e.value.procs| == |s.procs|
            && (forall u | t < u < |s.procs| :: e.value.procs[u] == s.procs[u])
  {
    GetOneTakesOne(s.idle, s.procs[t].prefer);
    hide GetOne, CountIdle;
  }

  /** n callers lock in turn and empty the queue by n. */
  ghost predicate Drained(s: St, first: nat, n: nat, e: St) {
    && n <= |s.idle| && |e.idle| == |s.idle| - n
    && e.ticker == s.ticker && |e.procs| == |s.procs|
    && (forall t | first + n <= t < |s.procs| :: e.procs[t] == s.procs[t])
  }

  lemma {:induction false} LockAllDrains(s: St, first: nat, n: nat) returns (run: seq<Label>, e: St)
    requires LockFree(s) && n <= |s.idle| && first + n <= |s.procs|
    requires forall t | first <= t < first + n :: s.procs[t].Start?
    ensures Exec(s, run) == Some(e) && Drained(s, first, n, e)
  {
    if n == 0 {
      run, e := [], s;
    } else {
      var l, m := LockAllDrains(s, first, n - 1);
      var u := first + n - 1;
      assert m.procs[u] == s.procs[u];
      LockOne(m, u);
      e := Next(m, AcqLock(u)).value;
      Extend(s, l, m, AcqLock(u), e);
      run := l + [AcqLock(u)];
    }
  }

  /**
   * The branch of checkIdle marked impossible is reachable: whenever checkIdle
   * finds too many idle ports, as many Acquire calls in between as there are
   * idle ports leave it with an empty queue and the lock for ever.
   */
  lemma EmptyQueueWedges(s: St, first: nat) returns (run: seq<Label>)
    requires s.ticker.Check? && TooManyIdle(s)
    requires first + |s.idle| <= |s.procs|
    requires forall t | first <= t < first + |s.idle| :: s.procs[t].Start?
    ensures Exec(s, run).Some? && Exec(s, run).value.ticker.Wedged? && Exec(s, run).value.idle == []
  {
    var s1, look := s.(ticker := Locking(s.ticker.full)), SequentialRuns.LookLabels(s);
    SequentialRuns.Look(s, [], s);
    assert [] + look == look;
    var l, s2 := LockAllDrains(s1, first, |s.idle|);
    ExecConcat(s, look, s1, l);
    Extend(s, look + l, s2, TickLock, s2.(ticker := Wedged));
    run := look + l + [TickLock];
  }
}
