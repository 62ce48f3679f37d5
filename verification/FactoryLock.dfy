/**
 * The lock inside `PortFactory` (pkg/ipam/port.go:80-98). Dispose takes it
 * before it asks Neutron and returns with it when Neutron fails; Create takes it
 * when its port is made. So after one failed Dispose neither of them returns.
 */
module FactoryLock {
  import opened PoolTypes
  import opened PoolSteps
  import opened PoolInvariant
  import opened PoolTheorems
  import opened Limits
  import Heap

  /** The pool, and whether a failed Dispose has kept the factory's lock. */
  datatype Factory = Factory(pool: St, jammed: bool)

  /** The returns that need the factory's lock: of any Dispose, and of a Create that made a port. */
  predicate NeedsLock(l: Label) {
    || l.TickDispose?
    || ((l.AcqCreate? || l.StaticMade? || l.TickCreate?) && l.made.Some?)
  }

  function NextLocked(f: Factory, l: Label): (f': Option<Factory>) {
    if f.jammed && NeedsLock(l) then None
    else
      match Next(f.pool, l)
      case None => None
      case Some(p) => Some(Factory(p, f.jammed || l == TickDispose(false)))
  }

  function ExecLocked(f: Factory, run: seq<Label>): (f': Option<Factory>) {
    if run == [] then Some(f)
    else
      var n := |run| - 1;
      match ExecLocked(f, run[..n])
      case None => None
      case Some(m) => NextLocked(m, run[n])
  }

  /** The lock only takes runs away, so what holds over every run of the pool holds here. */
  lemma {:induction false} IsRunOfPool(f: Factory, run: seq<Label>, f': Factory)
    requires ExecLocked(f, run) == Some(f')
    ensures Exec(f.pool, run) == Some(f'.pool)
  {
    hide Next;
    if run != [] {
      var n := |run| - 1;
      IsRunOfPool(f, run[..n], ExecLocked(f, run[..n]).value);
    }
  }

  /** A caller whose Create is running can at most be told that it failed. */
  predicate CannotGain(pc: Pc, pc': Pc) {
    && (pc.Creating? ==> pc'.Creating? || pc'.Refund? || pc' == Done(None))
    && (pc.Refund? ==> pc'.Refund? || pc' == Done(None))
    && (pc.StaticCreate? ==> pc' == pc || pc' == Done(None))
    && (pc == Done(None) ==> pc' == pc)
  }

  ghost predicate Stuck(s: St, s': St) {
    && s'.cloud == s.cloud && |s'.procs| >= |s.procs|
    && (s.ticker.Disposing? ==> s'.ticker == s.ticker)
    && (forall t | 0 <= t < |s.procs| :: CannotGain(s.procs[t], s'.procs[t]))
  }

  /**
   * Once a Dispose has failed, over every run: no port is made or deleted any
   * more, a Dispose under way never returns and holds up the ticker, and no
   * running Create returns a port.
   */
  lemma {:induction false} JammedForever(f: Factory, run: seq<Label>, f': Factory)
    requires ExecLocked(f, run) == Some(f') && f.jammed
    ensures f'.jammed && Stuck(f.pool, f'.pool)
  {
    hide Next, CannotGain;
    if run == [] {
      StaysStuck(f.pool);
    } else {
      var n := |run| - 1;
      var m := ExecLocked(f, run[..n]).value;
      JammedForever(f, run[..n], m);
      JammedStep(m.pool, run[n], f'.pool);
      StuckComposes(f.pool, m.pool, f'.pool);
    }
  }

  lemma StaysStuck(s: St)
    ensures Stuck(s, s)
  {
  }

  lemma StuckComposes(a: St, b: St, c: St)
    requires Stuck(a, b) && Stuck(b, c)
    ensures Stuck(a, c)
  {
    forall t | 0 <= t < |a.procs|
      ensures CannotGain(a.procs[t], c.procs[t])
    {
      assert CannotGain(a.procs[t], b.procs[t]) && CannotGain(b.procs[t], c.procs[t]);
    }
  }

  lemma JammedStep(s: St, l: Label, s': St)
    requires Next(s, l) == Some(s') && !NeedsLock(l)
    ensures Stuck(s, s')
  {
    if NotTicker(l) {
      JammedCaller(s, l, s');
    } else {
      JammedTicker(s, l, s');
    }
  }

  lemma JammedCaller(s: St, l: Label, s': St)
    requires Next(s, l) == Some(s') && !NeedsLock(l) && NotTicker(l)
    ensures Stuck(s, s')
  {
    SameTicker(s, l, s');
    SameCloud(s, l, s');
    forall t | 0 <= t < |s.procs|
      ensures t < |s'.procs| && CannotGain(s.procs[t], s'.procs[t])
    {
      NoCallerGains(s, l, s', t);
    }
    hide Next, CannotGain;
    MoreCallers(s, l, s');
  }

  lemma SameCloud(s: St, l: Label, s': St)
    requires Next(s, l) == Some(s') && !NeedsLock(l)
    ensures s'.cloud == s.cloud
  {
    hide GetOne, Heap.Push, Heap.Pop;
  }

  lemma MoreCallers(s: St, l: Label, s': St)
    requires Next(s, l) == Some(s')
    ensures |s'.procs| >= |s.procs|
  {
    hide GetOne, Heap.Push, Heap.Pop;
  }

  lemma NoCallerGains(s: St, l: Label, s': St, t: nat)
    requires Next(s, l) == Some(s') && !NeedsLock(l) && NotTicker(l) && t < |s.procs|
    ensures t < |s'.procs| && CannotGain(s.procs[t], s'.procs[t])
  {
    hide GetOne, Heap.Push;
  }

  lemma JammedTicker(s: St, l: Label, s': St)
    requires Next(s, l) == Some(s') && !NeedsLock(l) && !NotTicker(l)
    ensures Stuck(s, s')
  {
    hide Next;
    SameCloud(s, l, s');
    SameCallers(s, l, s');
    DisposeHoldsTicker(s, l, s');
    StaysStuck(s);
  }

  lemma DisposeHoldsTicker(s: St, l: Label, s': St)
    requires Next(s, l) == Some(s') && !NeedsLock(l) && !NotTicker(l)
    ensures s.ticker.Disposing? ==> s'.ticker == s.ticker
  {
    hide Heap.Push, Heap.Pop;
  }

  // ----- which pools can jam -----

  ghost predicate Jams(s: St, run: seq<Label>) {
    CountStatic(run) == 0 && ExecLocked(Factory(s, false), run).Some? && ExecLocked(Factory(s, false), run).value.jammed
  }

  /** A run of the pool with a failed Dispose has a first one, and the lock is no obstacle up to there. */
  lemma {:induction false} FirstFailureJams(s: St, run: seq<Label>, s': St) returns (jams: bool, prefix: seq<Label>)
    requires Exec(s, run) == Some(s') && CountStatic(run) == 0
    ensures jams ==> Jams(s, prefix)
    ensures !jams ==> ExecLocked(Factory(s, false), run) == Some(Factory(s', false)) && TickDispose(false) !in run
  {
    hide Next, NextLocked, ExecLocked;
    if run == [] {
      jams, prefix := false, [];
      NothingDone(s);
    } else {
      var n := |run| - 1;
      var m := Exec(s, run[..n]).value;
      jams, prefix := FirstFailureJams(s, run[..n], m);
      if !jams {
        assert run == run[..n] + [run[n]];
        Unjammed(s, run, m, s');
        jams, prefix := run[n] == TickDispose(false), run;
      }
    }
  }

  lemma NothingDone(s: St)
    ensures ExecLocked(Factory(s, false), []) == Some(Factory(s, false))
  {
  }

  lemma Unjammed(s: St, run: seq<Label>, m: St, s': St)
    requires run != [] && Next(m, run[|run| - 1]) == Some(s')
    requires ExecLocked(Factory(s, false), run[..|run| - 1]) == Some(Factory(m, false))
    ensures ExecLocked(Factory(s, false), run) == Some(Factory(s', run[|run| - 1] == TickDispose(false)))
  {
    hide Next, NextLocked;
    UnjammedStep(m, run[|run| - 1], s');
  }

  lemma UnjammedStep(s: St, l: Label, s': St)
    requires Next(s, l) == Some(s')
    ensures NextLocked(Factory(s, false), l) == Some(Factory(s', l == TickDispose(false)))
  {
    hide Next;
  }

  lemma FailedDispose(s: St) returns (run: seq<Label>, e: St)
    requires Started(s) && Max(s.cfg.capacity, s.loaded) > 0
    ensures Exec(s, run) == Some(e) && CountStatic(run) == 0 && TickDispose(false) in run
  {
    hide Inv, Exec, Started, Next, CountStatic;
    var m;
    run, m := AllIdle(s, 0);
    run, m := LookPasses(s, run, m);
    var m1 := PopsRoot(m);
    run := Go(s, run, m, TickLock, m1);
    e := Fails(m1);
    run := GoLast(s, run, m1, TickDispose(false), e);
  }

  lemma Fails(m: St) returns (e: St)
    requires m.ticker.Disposing?
    ensures Next(m, TickDispose(false)) == Some(e)
  {
    e := Next(m, TickDispose(false)).value;
  }

  lemma GoLast(s: St, run0: seq<Label>, m: St, l: Label, e: St) returns (run: seq<Label>)
    requires Exec(s, run0) == Some(m) && Next(m, l) == Some(e) && !l.StaticPut?
    ensures Exec(s, run) == Some(e) && CountStatic(run) == CountStatic(run0) && l in run
  {
    Extend(s, run0, m, l, e);
    run := run0 + [l];
    assert run[..|run| - 1] == run0;
  }

  /** Without static creations, exactly the pools that can hold a port can jam. */
  lemma JamsExactly(s: St)
    requires Started(s)
    ensures (exists run :: Jams(s, run)) <==> Max(s.cfg.capacity, s.loaded) > 0
  {
    if run :| Jams(s, run) {
      JamNeedsPort(s, run, ExecLocked(Factory(s, false), run).value);
    }
    if Max(s.cfg.capacity, s.loaded) > 0 {
      var run, e := FailedDispose(s);
      var jams, prefix := FirstFailureJams(s, run, e);
      assert Jams(s, prefix);
    }
  }

  lemma {:induction false} JamNeedsPort(s: St, run: seq<Label>, f: Factory)
    requires Started(s) && ExecLocked(Factory(s, false), run) == Some(f) && f.jammed && CountStatic(run) == 0
    ensures Max(s.cfg.capacity, s.loaded) > 0
  {
    if run != [] {
      var n := |run| - 1;
      var m := ExecLocked(Factory(s, false), run[..n]).value;
      if m.jammed {
        JamNeedsPort(s, run[..n], m);
      } else {
        IsRunOfPool(Factory(s, false), run[..n], m);
        Conservation(s, run[..n], m.pool);
        assert TickerTokens(m.pool.ticker) == 1;
      }
    }
  }
}
