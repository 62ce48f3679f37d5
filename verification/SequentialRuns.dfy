/** The runs of the step system that one call makes when nobody interferes. */
module SequentialRuns {
  import opened PoolTypes
  import opened PoolSteps
  import Heap
  import Maintenance

  function Outcome(r: Result<Port>): (result: Option<Port>) {
    if r.Ok? then Some(r.value) else None
  }

  // ----- Acquire -----

  lemma Overwrite(procs: seq<Pc>, t: nat, a: Pc, b: Pc)
    requires t < |procs|
    ensures procs[t := a][t := b] == procs[t := b]
  {
  }

  lemma IdleAcquire(s: St, t: nat) returns (run: seq<Label>, e: St)
    requires LockFree(s) && t < |s.procs| && s.procs[t].Start? && s.idle != []
    ensures Exec(s, run) == Some(e) && AllInternal(run)
    ensures var (x, rest) := GetOne(s.idle, s.procs[t].prefer);
            e == Goto(s.(idle := rest, inuse := s.inuse[x.port.id := x.port]), t, Done(Some(x.port)))
  {
    e := AcqLocked(s, t).value;
    FirstStep(s, AcqLock(t), e);
    run := [AcqLock(t)];
  }

  lemma FullAcquire(s: St, t: nat)
    requires LockFree(s) && t < |s.procs| && s.procs[t].Start?
    requires s.idle == [] && Size(s) >= s.cfg.capacity
    ensures Exec(s, [AcqLock(t)]) == Some(Goto(s, t, Done(None))) && AllInternal([AcqLock(t)])
  {
    FirstStep(s, AcqLock(t), Goto(s, t, Done(None)));
  }

  lemma CancelledAcquire(s: St, t: nat)
    requires LockFree(s) && t < |s.procs| && s.procs[t].Start?
    requires s.idle == [] && Size(s) < s.cfg.capacity
    ensures Exec(s, [AcqLock(t), AcqCancel(t)]) == Some(Goto(s, t, Done(None)))
    ensures AllInternal([AcqLock(t), AcqCancel(t)])
  {
    var s1 := Goto(s, t, Await);
    Overwrite(s.procs, t, Await, Done(None));
    FirstStep(s, AcqLock(t), s1);
    Extend(s, [AcqLock(t)], s1, AcqCancel(t), Goto(s, t, Done(None)));
  }

  /** Acquire as far as the return of Create. */
  lemma CreatingAcquire(s: St, t: nat, made: Option<Port>) returns (run: seq<Label>, e: St)
    requires LockFree(s) && t < |s.procs| && s.procs[t].Start?
    requires s.idle == [] && Size(s) < s.cfg.capacity && s.tokens > 0 && Fresh(s, made)
    ensures Exec(s, run) == Some(e)
    ensures e == Goto(Register(s, made).(tokens := s.tokens - 1), t,
                      if made.Some? then Made(made.value) else Refund)
    ensures AllInternal(run)
  {
    var s1 := Goto(s, t, Await);
    var s2 := Goto(s.(tokens := s.tokens - 1), t, Creating);
    e := Goto(Register(s, made).(tokens := s.tokens - 1), t,
              if made.Some? then Made(made.value) else Refund);
    Overwrite(s.procs, t, Await, Creating);
    Overwrite(s.procs, t, Creating, e.procs[t]);
    FirstStep(s, AcqLock(t), s1);
    Extend(s, [AcqLock(t)], s1, AcqToken(t), s2);
    run := [AcqLock(t)] + [AcqToken(t)];
    Extend(s, run, s2, AcqCreate(t, made), e);
    run := run + [AcqCreate(t, made)];
  }

  lemma CreatedAcquire(s: St, t: nat, p: Port) returns (run: seq<Label>)
    requires LockFree(s) && t < |s.procs| && s.procs[t].Start?
    requires s.idle == [] && Size(s) < s.cfg.capacity && s.tokens > 0 && Fresh(s, Some(p))
    ensures Exec(s, run) ==
            Some(Goto(s.(tokens := s.tokens - 1, cloud := s.cloud[p.id := p], inuse := s.inuse[p.id := p]),
                      t, Done(Some(p))))
    ensures AllInternal(run)
  {
    hide Exec;
    var m;
    run, m := CreatingAcquire(s, t, Some(p));
    Overwrite(s.procs, t, Made(p), Done(Some(p)));
    Extend(s, run, m, AcqAdd(t),
           Goto(s.(tokens := s.tokens - 1, cloud := s.cloud[p.id := p], inuse := s.inuse[p.id := p]),
                t, Done(Some(p))));
    run := run + [AcqAdd(t)];
  }

  lemma RefundedAcquire(s: St, t: nat) returns (run: seq<Label>)
    requires LockFree(s) && t < |s.procs| && s.procs[t].Start?
    requires s.idle == [] && Size(s) < s.cfg.capacity && 0 < s.tokens <= s.cfg.capacity
    ensures Exec(s, run) == Some(Goto(s, t, Done(None)))
    ensures AllInternal(run)
  {
    hide Exec;
    var m;
    run, m := CreatingAcquire(s, t, None);
    Overwrite(s.procs, t, Refund, Done(None));
    Extend(s, run, m, AcqRefund(t), Goto(s, t, Done(None)));
    run := run + [AcqRefund(t)];
  }

  // ----- ReleaseWithReverse -----

  lemma ReleasedAt(s: St, id: string, stick: int, now: int, e: St)
    requires id in s.inuse && LockFree(s)
    requires e == s.(now := now, inuse := s.inuse - {id},
                     idle := Heap.Push(s.idle, Item(s.inuse[id], if stick > 0 then now + stick else now)))
    ensures Next(s.(now := now), Release(id, stick)) == Some(e)
  {
    hide Heap.Push;
  }

  // ----- static creation -----

  /** Create(ip) and AddIdle; the Acquire that names the new port comes next. */
  lemma StaticRun(s: St, t: nat, p: Port, to: int, e: St) returns (run: seq<Label>)
    requires LockFree(s) && t < |s.procs| && s.procs[t] == StaticCreate(p.ip)
    requires Fresh(s, Some(p)) && s.now <= to
    requires e == s.(now := to, cloud := s.cloud[p.id := p], statics := s.statics + 1,
                     idle := Heap.Push(s.idle, Item(p, to)), procs := s.procs[t := Start(p.id)])
    ensures Exec(s, run) == Some(e) && AllInternal(run)
  {
    hide Heap.Push;
    var s1 := Goto(s.(cloud := s.cloud[p.id := p]), t, StaticAdd(p));
    var s2 := s1.(now := to);
    Overwrite(s.procs, t, StaticAdd(p), Start(p.id));
    FirstStep(s, StaticMade(t, Some(p)), s1);
    Extend(s, [StaticMade(t, Some(p))], s1, Advance(to), s2);
    run := [StaticMade(t, Some(p))] + [Advance(to)];
    Extend(s, run, s2, StaticPut(t), e);
    run := run + [StaticPut(t)];
  }

  // ----- one turn of the loop of checkIdle -----

  /** The reads of one look at the sizes. */
  function LookLabels(m: St): (ls: seq<Label>) {
    if |m.idle| > m.cfg.maxIdle then [TickCheck]
    else if m.idle == [] then [TickCheck, TickAny]
    else [TickCheck, TickAny, TickSumIdle, TickSum]
  }

  /** Without interference the reads answer whether there are too many idle ports. */
  lemma Look(s: St, run0: seq<Label>, m: St)
    requires Exec(s, run0) == Some(m) && m.ticker.Check?
    ensures Exec(s, run0 + LookLabels(m))
            == Some(m.(ticker := if TooManyIdle(m) then Locking(m.ticker.full) else AfterCheck(m.ticker.full)))
  {
    hide Exec;
    var full, e := m.ticker.full, if TooManyIdle(m) then Locking(m.ticker.full) else AfterCheck(m.ticker.full);
    if |m.idle| > m.cfg.maxIdle {
      Extend(s, run0, m, TickCheck, m.(ticker := e));
    } else {
      Extend(s, run0, m, TickCheck, m.(ticker := LookAny(full)));
      var run := run0 + [TickCheck];
      if m.idle == [] {
        Extend(s, run, m.(ticker := LookAny(full)), TickAny, m.(ticker := e));
        assert run + [TickAny] == run0 + [TickCheck, TickAny];
      } else {
        Extend(s, run, m.(ticker := LookAny(full)), TickAny, m.(ticker := LookSum(full)));
        run := run + [TickAny];
        Extend(s, run, m.(ticker := LookSum(full)), TickSumIdle, m.(ticker := GotIdle(|m.idle|, full)));
        run := run + [TickSumIdle];
        Extend(s, run, m.(ticker := GotIdle(|m.idle|, full)), TickSum, m.(ticker := e));
        assert run + [TickSum] == run0 + [TickCheck, TickAny, TickSumIdle, TickSum];
      }
    }
  }

  /** Up to the locked section, with the clock read inside it. */
  lemma LockingTurn(s: St, run0: seq<Label>, m: St, to: int) returns (run: seq<Label>, e: St)
    requires Exec(s, run0) == Some(m)
    requires m.ticker.Check? && TooManyIdle(m) && m.now <= to
    ensures Exec(s, run) == Some(e) && e == m.(now := to, ticker := Locking(m.ticker.full))
  {
    hide Exec;
    var m1 := m.(ticker := Locking(m.ticker.full));
    e := m1.(now := to);
    Look(s, run0, m);
    run := run0 + LookLabels(m);
    Extend(s, run, m1, Advance(to), e);
    run := run + [Advance(to)];
  }

  /** Up to the end of the locked section: the item seen by Peek is the item popped. */
  lemma PoppingTurn(s: St, run0: seq<Label>, m: St, to: int) returns (run: seq<Label>, e: St)
    requires Exec(s, run0) == Some(m)
    requires m.ticker.Check? && TooManyIdle(m) && m.now <= to
    requires m.idle != [] && m.idle[0].reverse <= to
    ensures Exec(s, run) == Some(e)
    ensures e == m.(now := to, idle := Heap.Pop(m.idle), ticker := Disposing(m.idle[0].port, m.ticker.full))
  {
    hide Exec, Heap.Pop, LookLabels;
    var m2;
    run, m2 := LockingTurn(s, run0, m, to);
    e := m2.(idle := Heap.Pop(m.idle), ticker := Disposing(m.idle[0].port, m.ticker.full));
    Extend(s, run, m2, TickLock, e);
    run := run + [TickLock];
  }

  lemma DisposedTurn(s: St, run0: seq<Label>, m: St) returns (run: seq<Label>, e: St)
    requires Exec(s, run0) == Some(m) && m.ticker.Disposing?
    ensures Exec(s, run) == Some(e)
    ensures e == m.(cloud := m.cloud - {m.ticker.port.id}, ticker := Disposed(m.ticker.full))
  {
    e := m.(cloud := m.cloud - {m.ticker.port.id}, ticker := Disposed(m.ticker.full));
    Extend(s, run0, m, TickDispose(true), e);
    run := run0 + [TickDispose(true)];
  }

  lemma SendTurn(s: St, run0: seq<Label>, m: St) returns (run: seq<Label>)
    requires Exec(s, run0) == Some(m) && m.ticker.Disposed? && SendRoom(m)
    ensures Exec(s, run) == Some(m.(tokens := m.tokens + 1, ticker := Check(m.ticker.full)))
  {
    Extend(s, run0, m, TickSend, m.(tokens := m.tokens + 1, ticker := Check(m.ticker.full)));
    run := run0 + [TickSend];
  }

  /** The turn that leaves by a break. */
  lemma WedgingTurn(s: St, run0: seq<Label>, m: St, to: int) returns (run: seq<Label>)
    requires Exec(s, run0) == Some(m)
    requires m.ticker.Check? && TooManyIdle(m) && m.now <= to
    requires m.idle == [] || m.idle[0].reverse > to
    ensures Exec(s, run) == Some(m.(now := to, ticker := Wedged))
  {
    hide Exec, LookLabels;
    var m2;
    run, m2 := LockingTurn(s, run0, m, to);
    Extend(s, run, m2, TickLock, m2.(ticker := Wedged));
    run := run + [TickLock];
  }

  /** Dispose fails ... */
  lemma FailedTurn(s: St, run0: seq<Label>, m: St) returns (run: seq<Label>, e: St)
    requires Exec(s, run0) == Some(m) && m.ticker.Disposing?
    ensures Exec(s, run) == Some(e) && e == m.(ticker := PutBack(m.ticker.port, m.ticker.full))
  {
    e := m.(ticker := PutBack(m.ticker.port, m.ticker.full));
    Extend(s, run0, m, TickDispose(false), e);
    run := run0 + [TickDispose(false)];
  }

  /** ... and the port goes back, unreserved. */
  lemma PutBackTurn(s: St, run0: seq<Label>, m: St, to: int) returns (run: seq<Label>)
    requires Exec(s, run0) == Some(m) && m.ticker.PutBack? && m.now <= to
    ensures Exec(s, run) ==
            Some(m.(now := to, idle := Heap.Push(m.idle, Item(m.ticker.port, to)), ticker := Check(m.ticker.full)))
  {
    Extend(s, run0, m, Advance(to), m.(now := to));
    run := run0 + [Advance(to)];
    Extend(s, run, m.(now := to), TickPutBack,
           m.(now := to, idle := Heap.Push(m.idle, Item(m.ticker.port, to)), ticker := Check(m.ticker.full)));
    run := run + [TickPutBack];
  }

  // ----- checkInsufficient -----

  lemma NeedTurn(s: St) returns (run: seq<Label>, e: St)
    requires s.ticker.Need?
    ensures Exec(s, run) == Some(e)
    ensures e == s.(ticker := if NeedAddition(s) <= 0 then Rest else Collect(NeedAddition(s), 0))
  {
    e := TickNeeds(s).value;
    FirstStep(s, TickNeed, e);
    run := [TickNeed];
  }

  lemma CollectTurn(s: St, run0: seq<Label>, m: St) returns (run: seq<Label>)
    requires Exec(s, run0) == Some(m) && m.ticker.Collect? && m.ticker.left > 0 && m.tokens > 0
    ensures Exec(s, run) ==
            Some(m.(ticker := Collect(m.ticker.left - 1, m.ticker.got + 1), tokens := m.tokens - 1))
  {
    Extend(s, run0, m, TickCollect,
           m.(ticker := Collect(m.ticker.left - 1, m.ticker.got + 1), tokens := m.tokens - 1));
    run := run0 + [TickCollect];
  }

  lemma MissedTurn(s: St, run0: seq<Label>, m: St) returns (run: seq<Label>)
    requires Exec(s, run0) == Some(m) && m.ticker.Collect? && m.ticker.left > 0 && m.tokens == 0
    ensures Exec(s, run) == Some(m.(ticker := Collect(m.ticker.left - 1, m.ticker.got)))
  {
    Extend(s, run0, m, TickCollect, m.(ticker := Collect(m.ticker.left - 1, m.ticker.got)));
    run := run0 + [TickCollect];
  }

  lemma CollectedTurn(s: St, run0: seq<Label>, m: St) returns (run: seq<Label>)
    requires Exec(s, run0) == Some(m) && m.ticker.Collect? && m.ticker.left == 0
    ensures Exec(s, run) == Some(m.(ticker := NextFill(m.ticker.got)))
  {
    Extend(s, run0, m, TickCollect, m.(ticker := NextFill(m.ticker.got)));
    run := run0 + [TickCollect];
  }

  // ----- one turn of the loop that fills the queue -----

  lemma FillTurn(s: St, run0: seq<Label>, m: St, p: Port, to: int, e: St) returns (run: seq<Label>)
    requires Exec(s, run0) == Some(m)
    requires m.ticker.Fill? && m.now <= to && Fresh(m, Some(p))
    requires e == m.(now := to, cloud := m.cloud[p.id := p], idle := Heap.Push(m.idle, Item(p, to)),
                     ticker := NextFill(m.ticker.more))
    ensures Exec(s, run) == Some(e)
  {
    hide Exec, Heap.Push;
    var m1 := m.(cloud := m.cloud[p.id := p], ticker := FillMade(p, m.ticker.more));
    Extend(s, run0, m, TickCreate(Some(p)), m1);
    run := run0 + [TickCreate(Some(p))];
    Extend(s, run, m1, Advance(to), m1.(now := to));
    run := run + [Advance(to)];
    Extend(s, run, m1.(now := to), TickAdd, e);
    run := run + [TickAdd];
  }

  lemma FailedFillTurn(s: St, run0: seq<Label>, m: St) returns (run: seq<Label>)
    requires Exec(s, run0) == Some(m) && m.ticker.Fill? && SendRoom(m)
    ensures Exec(s, run) == Some(m.(tokens := m.tokens + 1, ticker := NextFill(m.ticker.more)))
  {
    hide Exec, NextFill;
    var m1 := m.(ticker := FillReturn(m.ticker.more));
    Extend(s, run0, m, TickCreate(None), m1);
    run := run0 + [TickCreate(None)];
    Extend(s, run, m1, TickReturn, m.(tokens := m.tokens + 1, ticker := NextFill(m.ticker.more)));
    run := run + [TickReturn];
  }

  /** checkIdle finished: one look at the sizes, then checkInsufficient. */
  lemma WholeTick(s: St, run1: seq<Label>, m: St, run2: seq<Label>, e: St) returns (run: seq<Label>)
    requires Exec(s, run1) == Some(m) && m.ticker == Check(true) && !TooManyIdle(m)
    requires Exec(m.(ticker := Need), run2) == Some(e)
    ensures Exec(s, run) == Some(e)
  {
    var m1 := m.(ticker := Need);
    hide Exec;
    Look(s, run1, m);
    run := run1 + LookLabels(m) + run2;
    ExecConcat(s, run1 + LookLabels(m), m1, run2);
  }

  /** After a tick has brought the pool to its target, the next one only looks twice and goes back to rest. */
  lemma QuietTick(s: St, before: nat)
    requires s.ticker == Check(true) && s.cfg.minIdle <= s.cfg.maxIdle && s.cfg.maxIdle >= 0
    requires |s.idle| == Maintenance.TickTarget(before, |s.inuse|, s.cfg.minIdle, s.cfg.maxIdle, s.cfg.capacity)
    ensures Exec(s, LookLabels(s) + [TickNeed]) == Some(s.(ticker := Rest))
  {
    Maintenance.TickTargetIsFixpoint(before, |s.inuse|, s.cfg.minIdle, s.cfg.maxIdle, s.cfg.capacity);
    assert !TooManyIdle(s) && NeedAddition(s) <= 0;
    NothingNeeded(s);
    assert Exec(s, []) == Some(s);
    hide Exec, Next, LookLabels, TooManyIdle, NeedAddition, Maintenance.TickTarget;
    Look(s, [], s);
    assert [] + LookLabels(s) == LookLabels(s);
    Extend(s, LookLabels(s), s.(ticker := Need), TickNeed, s.(ticker := Rest));
  }

  lemma NothingNeeded(s: St)
    requires NeedAddition(s) <= 0
    ensures Next(s.(ticker := Need), TickNeed) == Some(s.(ticker := Rest))
  {
  }
}
