/** When ports leak, when a pod gets its port back, and what goes wrong without the guards. */
module OwnershipResults {
  import opened PoolTypes
  import opened PoolSteps
  import opened PoolInvariant
  import opened Ownership
  import opened Recovery
  import PoolSafety
  import PoolTheorems

  // ----- building runs -----

  /** One more act; the run still obeys the rule if the act does. */
  lemma Then(rule: Rule, s: Sys, run0: seq<Act>, m: Sys, a: Act, e: Sys) returns (run: seq<Act>)
    requires ExecSys(s, run0) == Some(m) && NextSys(m, a) == Some(e)
    requires RunObeys(rule, s, run0) && Obeys(rule, m, a)
    ensures ExecSys(s, run) == Some(e) && RunObeys(rule, s, run)
  {
    hide NextSys, Obeys;
    ExtendSys(s, run0, m, a, e);
    run := run0 + [a];
    assert run[..|run| - 1] == run0;
  }

  /** The rules are about AllocateIP and ReleaseIP beginning, nothing else. */
  lemma OthersObey(rule: Rule, s: Sys, a: Act)
    requires !a.Alloc? && !a.RelRead?
    ensures Obeys(rule, s, a)
  {
  }

  lemma CallsRecorded(s: Sys, pod: string, id: string)
    requires pod in s.db && s.db[pod] == RecordFor(pod, id)
    ensures CallOf(s, pod, Dynamic) == Spawn(id)
  {
    OldIdOfWritten(pod, id);
  }

  /** An AllocateIP that names an idle port wins that port. */
  lemma NamedAllocWins(s: Sys, pod: string, how: How, x: Item) returns (s2: Sys, s3: Sys)
    requires Inv(s.pool) && LockFree(s.pool) && x in s.pool.idle && CallOf(s, pod, how) == Spawn(x.port.id)
    ensures var t := |s.pool.procs|;
            && NextSys(s, Alloc(pod, how)) == Some(s2)
            && NextSys(s2, Pool(AcqLock(t))) == Some(s3)
            && t < |s3.pool.procs| && s3.pool.procs[t] == Done(Some(x.port))
            && s3.pool.inuse == s.pool.inuse[x.port.id := x.port]
            && s3.pool.cloud == s.pool.cloud && s3.pool.now == s.pool.now
            && s3 == s.(pool := s3.pool, reqs := s.reqs[t := pod])
            && s2 == s.(pool := s2.pool, reqs := s.reqs[t := pod])
            && Inv(s3.pool) && LockFree(s3.pool)
            && (forall y | y in s.pool.idle && y.port.id != x.port.id :: y in s3.pool.idle)
  {
    hide Inv, GetOne;
    var t := |s.pool.procs|;
    var p2 := s.pool.(procs := s.pool.procs + [Start(x.port.id)]);
    PoolSafety.SpawnKeeps(s.pool, Start(x.port.id), p2);
    IdleIsNamed(s.pool, x);
    PoolTheorems.NamedAcquireGetsIt(p2, t, x);
    s2 := s.(pool := p2, reqs := s.reqs[t := pod]);
    s3 := s2.(pool := AcqLocked(p2, t).value);
    PoolSafety.AcqLockedKeeps(p2, t, s3.pool);
    OthersStayIdle(p2, t, x, s3.pool);
  }

  /** An Acquire that names an idle port takes no other. */
  lemma OthersStayIdle(s: St, t: nat, x: Item, s': St)
    requires t < |s.procs| && s.procs[t] == Start(x.port.id) && x in s.idle && x.port.id != ""
    requires AcqLocked(s, t) == Some(s')
    ensures forall y | y in s.idle && y.port.id != x.port.id :: y in s'.idle
  {
    GetOneTakesOne(s.idle, x.port.id);
    assert GetOne(s.idle, x.port.id).0.port.id == x.port.id by {
      var k :| 0 <= k < |s.idle| && s.idle[k] == x;
    }
    hide GetOne, CountIdle;
  }

  lemma IdleIsNamed(s: St, x: Item)
    requires Inv(s) && x in s.idle
    ensures x.port.id != ""
  {
  }

  lemma RecordWrites(s: Sys, t: nat, pod: string, id: string)
    requires t in s.reqs && s.reqs[t] == pod && t < |s.pool.procs|
    requires Won(s.pool.procs[t]) && s.pool.procs[t].result.value.id == id
    ensures NextSys(s, Record(t, true)) == Some(Recorded(s, t, pod, id))
  {
  }

  /** A whole AllocateIP that names an idle port: the pod owns it. */
  lemma ThenAllocate(rule: Rule, s: Sys, run0: seq<Act>, m: Sys, pod: string, how: How, x: Item)
    returns (run: seq<Act>, e: Sys)
    requires ExecSys(s, run0) == Some(m) && RunObeys(rule, s, run0) && Obeys(rule, m, Alloc(pod, how))
    requires Inv(m.pool) && LockFree(m.pool) && x in m.pool.idle && CallOf(m, pod, how) == Spawn(x.port.id)
    requires |m.pool.procs| !in m.reqs
    ensures ExecSys(s, run) == Some(e) && RunObeys(rule, s, run)
    ensures e == m.(pool := e.pool, db := m.db[pod := RecordFor(pod, x.port.id)], owner := m.owner[pod := x.port.id])
    ensures e.pool.inuse == m.pool.inuse[x.port.id := x.port]
    ensures e.pool.cloud == m.pool.cloud && e.pool.now == m.pool.now
    ensures Inv(e.pool) && LockFree(e.pool)
    ensures |e.pool.procs| > |m.pool.procs|
    ensures forall y | y in m.pool.idle && y.port.id != x.port.id :: y in e.pool.idle
  {
    var t := |m.pool.procs|;
    hide Inv, LockFree, ExecSys, RunObeys, NextSys, Obeys, CallOf;
    var s2, s3 := NamedAllocWins(m, pod, how, x);
    run := Then(rule, s, run0, m, Alloc(pod, how), s2);
    OthersObey(rule, s2, Pool(AcqLock(t)));
    run := Then(rule, s, run, s2, Pool(AcqLock(t)), s3);
    RecordWrites(s3, t, pod, x.port.id);
    e := Recorded(s3, t, pod, x.port.id);
    assert s3.reqs - {t} == m.reqs;
    OthersObey(rule, s3, Record(t, true));
    run := Then(rule, s, run, s3, Record(t, true), e);
  }

  lemma ReleasedFrame(s: St, id: string, stick: int)
    requires LockFree(s) && id in s.inuse
    ensures var e := Released(s, id, stick).value;
            e.inuse == s.inuse - {id} && e.procs == s.procs && e.cloud == s.cloud && e.now == s.now
  {
  }

  /** One turn of the loop of ReleaseIP on a port in use. */
  lemma FreeMakesIdle(s: Sys, r: nat) returns (s1: Sys, x: Item)
    requires Inv(s.pool) && LockFree(s.pool) && r in s.rels && s.rels[r].left != []
    requires s.rels[r].left[0].id in s.pool.inuse
    ensures NextSys(s, RelPool(r)) == Some(s1) && Inv(s1.pool) && LockFree(s1.pool)
    ensures x in s1.pool.idle
            && x == Item(s.pool.inuse[s.rels[r].left[0].id],
                         if s.rels[r].stick > 0 then s.pool.now + s.rels[r].stick else s.pool.now)
    ensures s1.pool.inuse == s.pool.inuse - {s.rels[r].left[0].id}
    ensures s1 == s.(pool := s1.pool, owner := Disowned(s.owner, s.rels[r].pod, s.rels[r].left[0].id),
                     rels := s.rels[r := s.rels[r].(left := s.rels[r].left[1..])])
    ensures s1.pool.procs == s.pool.procs && s1.pool.cloud == s.pool.cloud && s1.pool.now == s.pool.now
  {
    hide Inv, Released, LockFree;
    x := PoolTheorems.ReleasedIsIdle(s.pool, s.rels[r].left[0].id, s.rels[r].stick);
    ReleasedFrame(s.pool, s.rels[r].left[0].id, s.rels[r].stick);
    s1 := Frees(s, r).value;
  }

  // ----- leaks -----

  /** The port in use is some pod's, or about to be recorded. */
  ghost predicate Accounted(s: Sys, id: string) {
    (exists p :: p in s.owner && s.owner[p] == id)
    || (exists t :: t in s.reqs && t < |s.pool.procs| && Won(s.pool.procs[t]) && s.pool.procs[t].result.value.id == id)
  }

  ghost predicate NoLeak(s: Sys) {
    forall id | id in s.pool.inuse :: Accounted(s, id)
  }

  /**
   * Allocate and release alternate for each pod and do not overlap, the
   * database takes every write, no restart.
   */
  ghost predicate TidyAct(s: Sys, a: Act) {
    && Obeys(Both, s, a)
    && match a
       case Record(t, stored) => stored && t in s.reqs && s.reqs[t] !in s.owner
       case RelRead(_, pod, _) => pod in s.owner
       case Restart(_) => false
       case _ => true
  }

  lemma AccountedFrame(s: Sys, s': Sys, id: string)
    requires Accounted(s, id) && s'.owner == s.owner && s'.reqs == s.reqs
    requires |s'.pool.procs| >= |s.pool.procs|
    requires forall t | 0 <= t < |s.pool.procs| && Won(s.pool.procs[t]) :: s'.pool.procs[t] == s.pool.procs[t]
    ensures Accounted(s', id)
  {
    if t :| t in s.reqs && t < |s.pool.procs| && Won(s.pool.procs[t]) && s.pool.procs[t].result.value.id == id {
      assert t in s'.reqs && Won(s'.pool.procs[t]);
    }
  }

  lemma InternalKeepsNoLeak(s: Sys, l: Label, s': Sys)
    requires Own(s) && NoLeak(s) && NextSys(s, Pool(l)) == Some(s')
    ensures NoLeak(s')
  {
    InternalStep(s.pool, l, s'.pool);
    forall id | id in s'.pool.inuse
      ensures Accounted(s', id)
    {
      if id in s.pool.inuse {
        AccountedFrame(s, s', id);
      } else {
        assert l.t in s'.reqs && Won(s'.pool.procs[l.t]);
      }
    }
  }

  /** Recording keeps every port in use accounted for exactly when the write succeeds and the pod held none. */
  lemma RecordKeepsNoLeakExactly(s: Sys, t: nat, stored: bool, s': Sys)
    requires Own(s) && NoLeak(s) && NextSys(s, Record(t, stored)) == Some(s')
    ensures NoLeak(s') <==> stored && s.reqs[t] !in s.owner
  {
    hide Inv;
    if stored && s.reqs[t] !in s.owner {
      forall k | k in s'.pool.inuse
        ensures Accounted(s', k)
      {
        RecordAccounts(s, t, s', k);
      }
    } else {
      RecordLeaks(s, t, stored, s');
    }
  }

  lemma RecordAccounts(s: Sys, t: nat, s': Sys, k: string)
    requires Accounted(s, k) && NextSys(s, Record(t, true)) == Some(s') && s.reqs[t] !in s.owner
    ensures Accounted(s', k)
  {
    var pod := s.reqs[t];
    if p :| p in s.owner && s.owner[p] == k {
      assert p in s'.owner && s'.owner[p] == k;
    } else if k == s.pool.procs[t].result.value.id {
      assert pod in s'.owner && s'.owner[pod] == k;
    } else {
      var u :| u in s.reqs && u < |s.pool.procs| && Won(s.pool.procs[u]) && s.pool.procs[u].result.value.id == k;
      assert u in s'.reqs;
    }
  }

  /** Otherwise the port that was won, or the one the pod held, is left in use for nobody. */
  lemma RecordLeaks(s: Sys, t: nat, stored: bool, s': Sys)
    requires Owned(s) && Pending(s) && NextSys(s, Record(t, stored)) == Some(s')
    requires stored ==> s.reqs[t] in s.owner
    ensures !NoLeak(s')
  {
    var lost := if stored then s.owner[s.reqs[t]] else s.pool.procs[t].result.value.id;
    assert lost in s'.pool.inuse;
    assert !Accounted(s', lost);
  }

  lemma FreeKeepsNoLeak(s: Sys, r: nat, s': Sys)
    requires Own(s) && AllAlone(s) && NoLeak(s) && NextSys(s, RelPool(r)) == Some(s')
    ensures NoLeak(s')
  {
    hide Inv;
    assert Alone(s, r);
    forall k | k in s'.pool.inuse
      ensures Accounted(s', k)
    {
      assert Accounted(s, k);
      if p :| p in s.owner && s.owner[p] == k {
        assert p in s'.owner && s'.owner[p] == k;
      } else {
        var u :| u in s.reqs && u < |s.pool.procs| && Won(s.pool.procs[u]) && s.pool.procs[u].result.value.id == k;
        assert u in s'.reqs;
      }
    }
  }

  lemma SameUseKeepsNoLeak(s: Sys, s': Sys)
    requires NoLeak(s) && s'.pool == s.pool && s'.owner == s.owner && s'.reqs == s.reqs
    ensures NoLeak(s')
  {
    forall id | id in s'.pool.inuse
      ensures Accounted(s', id)
    {
      assert Accounted(s, id);
      if t :| t in s.reqs && t < |s.pool.procs| && Won(s.pool.procs[t]) && s.pool.procs[t].result.value.id == id {
        assert t in s'.reqs && Won(s'.pool.procs[t]);
      }
    }
  }

  lemma AllocKeepsNoLeak(s: Sys, pod: string, how: How, s': Sys)
    requires Own(s) && NoLeak(s) && NextSys(s, Alloc(pod, how)) == Some(s')
    ensures NoLeak(s')
  {
    hide Inv;
    assert s'.pool.inuse == s.pool.inuse && s'.owner == s.owner;
    assert s.pool.procs <= s'.pool.procs;
    forall id | id in s'.pool.inuse
      ensures Accounted(s', id)
    {
      assert Accounted(s, id);
      if t :| t in s.reqs && t < |s.pool.procs| && Won(s.pool.procs[t]) && s.pool.procs[t].result.value.id == id {
        assert t in s'.reqs && s'.pool.procs[t] == s.pool.procs[t];
      }
    }
  }

  lemma FailKeepsNoLeak(s: Sys, t: nat, s': Sys)
    requires Own(s) && NoLeak(s) && NextSys(s, Fail(t)) == Some(s')
    ensures NoLeak(s')
  {
    hide Inv;
    forall id | id in s'.pool.inuse
      ensures Accounted(s', id)
    {
      assert Accounted(s, id);
      if u :| u in s.reqs && u < |s.pool.procs| && Won(s.pool.procs[u]) && s.pool.procs[u].result.value.id == id {
        assert u in s'.reqs;
      }
    }
  }

  ghost predicate TidyRun(s: Sys, run: seq<Act>) {
    run == []
    || (var n := |run| - 1;
        TidyRun(s, run[..n])
        && (ExecSys(s, run[..n]).Some? ==> TidyAct(ExecSys(s, run[..n]).value, run[n])))
  }

  lemma TidyStep(s: Sys, a: Act, s': Sys)
    requires Own(s) && AllAlone(s) && NoLeak(s) && NextSys(s, a) == Some(s') && TidyAct(s, a)
    ensures Own(s') && AllAlone(s') && NoLeak(s')
  {
    hide Own, NoLeak, AllAlone, Obeys;
    OrderlyStep(s, a, s');
    match a {
      case Pool(l) => InternalKeepsNoLeak(s, l, s');
      case Record(t, stored) => RecordKeepsNoLeakExactly(s, t, stored, s');
      case RelRead(_, _, _) => SameUseKeepsNoLeak(s, s');
      case RelPool(r) => FreeKeepsNoLeak(s, r, s');
      case RelDelete(_, _) => SameUseKeepsNoLeak(s, s');
      case Alloc(pod, how) => AllocKeepsNoLeak(s, pod, how, s');
      case Fail(t) => FailKeepsNoLeak(s, t, s');
    }
  }

  lemma {:induction false} TidyRunKeeps(s: Sys, run: seq<Act>, s': Sys)
    requires Own(s) && AllAlone(s) && NoLeak(s) && ExecSys(s, run) == Some(s') && TidyRun(s, run)
    ensures Own(s') && AllAlone(s') && NoLeak(s')
  {
    hide Own, NoLeak, AllAlone, NextSys, TidyAct;
    if run != [] {
      var n := |run| - 1;
      var m := ExecSys(s, run[..n]).value;
      TidyRunKeeps(s, run[..n], m);
      TidyStep(m, run[n], s');
    }
  }

  lemma {:induction false} InjectiveCount(m: map<string, string>)
    requires forall p, q | p in m && q in m && p != q :: m[p] != m[q]
    ensures |m.Values| == |m|
    decreases |m|
  {
    if m != map[] {
      var p :| p in m;
      var rest := m - {p};
      assert rest.Keys == m.Keys - {p};
      assert |rest| == |rest.Keys| && |m| == |m.Keys|;
      InjectiveCount(rest);
      assert m.Values == rest.Values + {m[p]} by {
        forall v | v in m.Values
          ensures v in rest.Values + {m[p]}
        {
          var k :| k in m && m[k] == v;
          assert k == p || (k in rest && rest[k] == v);
        }
      }
      assert m[p] !in rest.Values;
    }
  }

  /**
   * Between restarts, from a pool with no port in use, with allocate and
   * release alternating for each pod and every database write succeeding: when
   * no request is in flight the ports in use are one to one with the pods that
   * hold one.
   */
  lemma InUseAreTheOwners(s: Sys, run: seq<Act>, s': Sys)
    requires FirstBoot(s) && s.pool.inuse == map[]
    requires ExecSys(s, run) == Some(s') && TidyRun(s, run) && s'.reqs == map[]
    ensures s'.pool.inuse.Keys == s'.owner.Values && |s'.pool.inuse| == |s'.owner|
    ensures forall p, q | p in s'.owner && q in s'.owner && p != q :: s'.owner[p] != s'.owner[q]
  {
    FirstBootIsOwn(s);
    TidyRunKeeps(s, run, s');
    forall id | id in s'.pool.inuse
      ensures id in s'.owner.Values
    {
      assert Accounted(s', id);
    }
    InjectiveCount(s'.owner);
    assert |s'.pool.inuse| == |s'.pool.inuse.Keys|;
  }

  // ----- sticky ports -----

  /** The steps of the pool that a run of the daemon takes. */
  ghost function PoolStepsOf(s: Sys, a: Act): (r: seq<Label>) {
    match a
    case Pool(l) => [l]
    case Alloc(pod, how) => [CallOf(s, pod, how)]
    case RelPool(r) =>
      if r in s.rels && s.rels[r].left != [] && s.rels[r].left[0].id in s.pool.inuse
      then [Release(s.rels[r].left[0].id, s.rels[r].stick)] else []
    case _ => []
  }

  ghost function Project(s: Sys, run: seq<Act>): (r: seq<Label>) {
    if run == [] then []
    else
      var n := |run| - 1;
      Project(s, run[..n]) + (if ExecSys(s, run[..n]).Some? then PoolStepsOf(ExecSys(s, run[..n]).value, run[n]) else [])
  }

  ghost predicate NoRestart(run: seq<Act>) {
    forall i | 0 <= i < |run| :: !run[i].Restart?
  }

  lemma ProjectStep(s: Sys, a: Act, s': Sys, from: St, run: seq<Label>)
    requires NextSys(s, a) == Some(s') && !a.Restart? && Exec(from, run) == Some(s.pool)
    ensures Exec(from, run + PoolStepsOf(s, a)) == Some(s'.pool)
  {
    var ls := PoolStepsOf(s, a);
    if ls == [] {
      assert run + ls == run;
    } else {
      Extend(from, run, s.pool, ls[0], s'.pool);
    }
  }

  /** Without a restart, the daemon's run is a run of the one pool. */
  lemma {:induction false} ProjectRuns(s: Sys, run: seq<Act>, s': Sys)
    requires ExecSys(s, run) == Some(s') && NoRestart(run)
    ensures Exec(s.pool, Project(s, run)) == Some(s'.pool)
  {
    if run != [] {
      var n := |run| - 1;
      var m := ExecSys(s, run[..n]).value;
      ProjectRuns(s, run[..n], m);
      ProjectStep(m, run[n], s', s.pool, Project(s, run[..n]));
    }
  }

  /**
   * A pod released with a stick time and allocated again before it is over gets
   * its port back, whatever the daemon did in between, unless it restarted or
   * some Acquire took that very port.
   */
  lemma PodGetsItsPortBack(s: Sys, r: nat, id: string, s1: Sys, run: seq<Act>, s2: Sys)
    requires Own(s) && r in s.rels && id in s.pool.inuse
    requires s.rels[r].left == RecordFor(s.rels[r].pod, id).resources && s.rels[r].stick > 0
    requires NextSys(s, RelPool(r)) == Some(s1)
    requires ExecSys(s1, run) == Some(s2) && NoRestart(run)
    requires Lookup(s2, s.rels[r].pod) == Some(RecordFor(s.rels[r].pod, id))
    requires s2.pool.now < s.pool.now + s.rels[r].stick && LockFree(s2.pool)
    requires !PoolTheorems.Taken(s1.pool, Project(s1, run), Item(s.pool.inuse[id], s.pool.now + s.rels[r].stick))
    ensures var t := |s2.pool.procs|;
            var s3 := NextSys(s2, Alloc(s.rels[r].pod, Dynamic));
            s3.Some? && var s4 := NextSys(s3.value, Pool(AcqLock(t)));
            s4.Some? && t < |s4.value.pool.procs| && s4.value.pool.procs[t] == Done(Some(s.pool.inuse[id]))
  {
    FreedIsLocked(s, r, id, s1);
    hide Own, Inv, LockFree, NextSys, ExecSys, Exec, CallOf, NoRestart;
    var n1, x := FreeMakesIdle(s, r);
    ProjectRuns(s1, run, s2);
    CallsRecorded(s2, s.rels[r].pod, id);
    PoolTheorems.StickyStays(s1.pool, Project(s1, run), s2.pool, x);
    PoolSafety.InvRun(s1.pool, Project(s1, run), s2.pool);
    var s3, s4 := NamedAllocWins(s2, s.rels[r].pod, Dynamic, x);
  }

  lemma FreedIsLocked(s: Sys, r: nat, id: string, s1: Sys)
    requires Own(s) && NextSys(s, RelPool(r)) == Some(s1) && id in s.pool.inuse
    ensures LockFree(s.pool) && s.pool.inuse[id].id == id && Inv(s.pool)
  {
  }

  // ----- restarts -----

  /** Every listed port that a record names is some pod's. */
  ghost predicate RecordsOwned(s: Sys) {
    forall p, x | p in s.db && x in s.db[p].resources && x.id in s.pool.cloud ::
      exists q :: q in s.owner && s.owner[q] == x.id
  }

  /** A restart leaves no port in use for nobody exactly if every listed port on record was some pod's. */
  lemma RestartLeaksExactly(s: Sys, boot: St, s': Sys)
    requires Own(s) && NextSys(s, Restart(boot)) == Some(s')
    ensures NoLeak(s') <==> RecordsOwned(s)
  {
    hide Inv, Started;
    if RecordsOwned(s) {
      forall id | id in s'.pool.inuse
        ensures Accounted(s', id)
      {
        var p, x :| p in s.db && x in s.db[p].resources && x.id == id;
        assert x.id in s.pool.cloud;
      }
    } else {
      var p, x :| p in s.db && x in s.db[p].resources && x.id in s.pool.cloud
                  && !exists q :: q in s.owner && s.owner[q] == x.id;
      assert x.id in RecordedIds(s.db);
      assert x.id in s'.pool.inuse && !Accounted(s', x.id);
    }
  }

  /**
   * So a restart ends every sticky reservation: the port of a released pod
   * whose record was kept comes back as in use, for nobody, and the next
   * AllocateIP of the pod, which names it, cannot get it.
   */
  lemma RestartLosesSticky(s: Sys, boot: St, s': Sys, pod: string, x: Item)
    requires Own(s) && NextSys(s, Restart(boot)) == Some(s')
    requires pod in s.db && x in s.pool.idle && exists y :: y in s.db[pod].resources && y.id == x.port.id
    ensures x.port.id in s'.pool.inuse
    ensures forall y | y in s'.pool.idle :: y.port.id != x.port.id
    ensures !NoLeak(s')
  {
    hide Inv, Started, Genuine;
    IdleKnown(s.pool, x);
    PoolTheorems.IdleCounts(s.pool, x);
    RestartLeaksExactly(s, boot, s');
    assert x.port.id in RecordedIds(s.db);
    PoolTheorems.StartedInv(boot);
    PoolTheorems.EveryPortInOnePlace(boot);
  }

  lemma IdleKnown(s: St, x: Item)
    requires Inv(s) && x in s.idle
    ensures Known(s.cloud, x.port)
  {
  }

  // ----- the daemon's own records can be read back -----

  /** Records as AllocateIP writes them. */
  ghost predicate WrittenHere(db: map<string, PodResources>) {
    forall p | p in db :: exists id :: db[p] == RecordFor(p, id)
  }

  lemma WrittenIsLoggable(db: map<string, PodResources>, podsUsage: set<string>)
    requires WrittenHere(db)
    ensures forall p | p in db :: !LogPanics(db[p], podsUsage)
  {
  }

  /** From a database of such records every run leads to one, so no record this daemon wrote stops a restart. */
  lemma {:induction false} RecordsStayLoggable(s: Sys, run: seq<Act>, s': Sys, podsUsage: set<string>)
    requires WrittenHere(s.db) && ExecSys(s, run) == Some(s')
    ensures WrittenHere(s'.db) && forall p | p in s'.db :: !LogPanics(s'.db[p], podsUsage)
  {
    if run != [] {
      var n := |run| - 1;
      var m := ExecSys(s, run[..n]).value;
      RecordsStayLoggable(s, run[..n], m, podsUsage);
      StepWrites(m, run[n], s');
    }
    WrittenIsLoggable(s'.db, podsUsage);
  }

  lemma StepWrites(s: Sys, a: Act, s': Sys)
    requires WrittenHere(s.db) && NextSys(s, a) == Some(s')
    ensures WrittenHere(s'.db)
  {
    forall p | p in s'.db
      ensures exists id :: s'.db[p] == RecordFor(p, id)
    {
      if p in s.db && s'.db[p] == s.db[p] {
      } else {
        assert a.Record?;
        assert s'.db[p] == RecordFor(p, s.pool.procs[a.t].result.value.id);
      }
    }
  }
}
