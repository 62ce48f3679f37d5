/**
 * The daemon above the pool (pkg/daemon/daemon.go, pkg/ipam/port.go): pods,
 * their database records, and the ports they hold, over whole runs with any
 * number of requests in flight and restarts at any moment.
 */
module Ownership {
  import opened PoolTypes
  import opened PoolSteps
  import opened PoolInvariant
  import opened Recovery
  import PoolSafety
  import PoolTheorems
  import Heap

  /**
   * `db` is the database, `reqs` the AllocateIP calls in flight by the pool
   * caller that serves them, `rels` the ReleaseIP calls in flight. `owner` is
   * history: the port that the last completed AllocateIP gave a pod and that
   * was not released for it since.
   */
  datatype Sys = Sys(
    pool: St,
    db: map<string, PodResources>,
    owner: map<string, string>,
    reqs: map<nat, string>,
    rels: map<nat, Rel>)

  /** A ReleaseIP call that has read the record: the resources it has still to release. */
  datatype Rel = Rel(pod: string, stick: int, left: seq<ResourceItem>)

  datatype How =
    | Dynamic                // Acquire naming the port of the pod's record, if any
    | StaticIdle(id: string) // a static address found on an idle port
    | StaticNew(ip: string)  // a static address to be created

  datatype Act =
    | Pool(l: Label)
    | Alloc(pod: string, how: How)                // AllocateIP reads the record and calls the pool
    | Record(t: nat, stored: bool)                // the database write of AllocateIP
    | Fail(t: nat)
    | RelRead(r: nat, pod: string, stick: int)    // ReleaseIP reads the record
    | RelPool(r: nat)                             // one turn of its loop
    | RelDelete(r: nat, deleted: bool)            // after the loop: drop the record without a stick time
    | Restart(boot: St)

  function Lookup(s: Sys, pod: string): (r: Option<PodResources>) {
    if pod in s.db then Some(s.db[pod]) else None
  }

  function Prefer(s: Sys, pod: string): (id: string) {
    OldId(Lookup(s, pod))
  }

  function CallOf(s: Sys, pod: string, how: How): (l: Label) {
    match how
    case Dynamic => Spawn(Prefer(s, pod))
    case StaticIdle(id) => Spawn(id)
    case StaticNew(ip) => SpawnStatic(ip)
  }

  predicate Won(pc: Pc) {
    pc.Done? && pc.result.Some?
  }

  /** Releasing a port for a pod ends its ownership of that port and of no other. */
  function Disowned(owner: map<string, string>, pod: string, id: string): (r: map<string, string>) {
    if pod in owner && owner[pod] == id then owner - {pod} else owner
  }

  /** One turn of the loop of ReleaseIP; a port that is not in use ends the call with an error. */
  function Frees(s: Sys, r: nat): (s': Option<Sys>) {
    if r !in s.rels || s.rels[r].left == [] || !LockFree(s.pool) then None
    else
      var id := s.rels[r].left[0].id;
      if id !in s.pool.inuse then Some(s.(rels := s.rels - {r}))
      else
        Some(s.(pool := Released(s.pool, id, s.rels[r].stick).value,
                owner := Disowned(s.owner, s.rels[r].pod, id),
                rels := s.rels[r := s.rels[r].(left := s.rels[r].left[1..])]))
  }

  function Deletes(s: Sys, r: nat, deleted: bool): (s': Option<Sys>) {
    if r !in s.rels || s.rels[r].left != [] then None
    else
      Some(s.(rels := s.rels - {r},
              db := if s.rels[r].stick == 0 && deleted then s.db - {s.rels[r].pod} else s.db))
  }

  /** The ports some record names. */
  ghost function RecordedIds(db: map<string, PodResources>): (ids: set<string>) {
    set p, x | p in db && x in db[p].resources :: x.id
  }

  /**
   * A new process on the old database: the listed ports some record names are
   * in use, all others are idle, and preload may have added new ones.
   */
  ghost predicate Recovers(s: Sys, boot: St) {
    && Started(boot) && boot.now >= s.pool.now
    && (forall k | k in s.pool.cloud :: k in boot.cloud && boot.cloud[k] == s.pool.cloud[k])
    && boot.inuse.Keys == s.pool.cloud.Keys * RecordedIds(s.db)
  }

  /** The pod's record names the port and the pod is its owner. */
  function Recorded(s: Sys, t: nat, pod: string, id: string): (s': Sys) {
    s.(reqs := s.reqs - {t}, db := s.db[pod := RecordFor(pod, id)], owner := s.owner[pod := id])
  }

  ghost function NextSys(s: Sys, a: Act): (s': Option<Sys>) {
    match a
    case Pool(l) =>
      if Internal(l) && Next(s.pool, l).Some? then Some(s.(pool := Next(s.pool, l).value)) else None
    case Alloc(pod, how) =>
      Some(s.(pool := Next(s.pool, CallOf(s, pod, how)).value, reqs := s.reqs[|s.pool.procs| := pod]))
    case Record(t, stored) =>
      if t in s.reqs && t < |s.pool.procs| && Won(s.pool.procs[t]) then
        Some(if stored then Recorded(s, t, s.reqs[t], s.pool.procs[t].result.value.id)
             else s.(reqs := s.reqs - {t}))
      else None
    case Fail(t) =>
      if t in s.reqs && t < |s.pool.procs| && s.pool.procs[t] == Done(None)
      then Some(s.(reqs := s.reqs - {t})) else None
    case RelRead(r, pod, stick) =>
      if r in s.rels then None
      else Some(s.(rels := s.rels[r := Rel(pod, stick, if pod in s.db then s.db[pod].resources else [])]))
    case RelPool(r) => Frees(s, r)
    case RelDelete(r, deleted) => Deletes(s, r, deleted)
    case Restart(boot) =>
      if Recovers(s, boot) then Some(s.(pool := boot, reqs := map[], rels := map[])) else None
  }

  ghost function ExecSys(s: Sys, run: seq<Act>): (s': Option<Sys>) {
    if run == [] then Some(s)
    else
      var n := |run| - 1;
      match ExecSys(s, run[..n])
      case None => None
      case Some(m) => NextSys(m, run[n])
  }

  lemma ExtendSys(s: Sys, run: seq<Act>, m: Sys, a: Act, e: Sys)
    requires ExecSys(s, run) == Some(m) && NextSys(m, a) == Some(e)
    ensures ExecSys(s, run + [a]) == Some(e)
  {
    assert (run + [a])[..|run|] == run;
  }

  // ----- the invariant -----

  /** Every owned port is recorded for its owner, in use, and owned once. */
  ghost predicate Owned(s: Sys) {
    && (forall p | p in s.owner :: p in s.db && s.db[p] == RecordFor(p, s.owner[p]) && s.owner[p] in s.pool.inuse)
    && (forall p, q | p in s.owner && q in s.owner && p != q :: s.owner[p] != s.owner[q])
  }

  /** Every caller serves a request until it is done; a port won but not yet recorded is in use for it alone. */
  ghost predicate Pending(s: Sys) {
    && (forall t | t in s.reqs :: t < |s.pool.procs|)
    && (forall t | 0 <= t < |s.pool.procs| && !s.pool.procs[t].Done? :: t in s.reqs)
    && (forall t | t in s.reqs && Won(s.pool.procs[t]) ::
          var id := s.pool.procs[t].result.value.id;
          id in s.pool.inuse && (forall p | p in s.owner :: s.owner[p] != id))
    && (forall t, u | t in s.reqs && u in s.reqs && t != u && Won(s.pool.procs[t]) && Won(s.pool.procs[u]) ::
          s.pool.procs[t].result.value.id != s.pool.procs[u].result.value.id)
  }

  ghost predicate Own(s: Sys) {
    Inv(s.pool) && Owned(s) && Pending(s)
  }

  /** What an internal step of the pool does to the ports in use and to the callers. */
  ghost predicate QuietFor(s: St, s': St) {
    && s'.inuse == s.inuse && |s'.procs| == |s.procs|
    && (forall t | 0 <= t < |s.procs| :: s'.procs[t] == s.procs[t] || (!s.procs[t].Done? && !Won(s'.procs[t])))
  }

  ghost predicate WinsFor(s: St, t: nat, s': St) {
    && |s'.procs| == |s.procs| && t < |s.procs| && !s.procs[t].Done? && Won(s'.procs[t])
    && s'.procs[t].result.value.id !in s.inuse
    && s'.inuse == s.inuse[s'.procs[t].result.value.id := s'.procs[t].result.value]
    && (forall u | 0 <= u < |s.procs| && u != t :: s'.procs[u] == s.procs[u])
  }

  predicate Wins(s: St, l: Label) {
    (l.AcqLock? && s.idle != []) || l.AcqAdd?
  }

  lemma TakingWins(s: St, t: nat, s': St)
    requires Inv(s) && AcqLocked(s, t) == Some(s') && s.idle != []
    ensures WinsFor(s, t, s')
  {
    var (x, rest) := GetOne(s.idle, s.procs[t].prefer);
    GetOneTakesOne(s.idle, s.procs[t].prefer);
    PoolSafety.CallerTakes(s, t, x, rest, s');
  }

  lemma AddingWins(s: St, t: nat, s': St)
    requires Inv(s) && AcqAdds(s, t) == Some(s')
    ensures WinsFor(s, t, s')
  {
    assert PcPort(s.procs[t]) == Some(s.procs[t].port);
    PoolTheorems.CallerPortAlone(s, t);
  }

  lemma CallerQuiet(s: St, l: Label, s': St)
    requires Next(s, l) == Some(s') && !Wins(s, l)
    requires l.AcqLock? || l.AcqToken? || l.AcqCancel? || l.AcqCreate? || l.AcqRefund? || l.StaticMade? || l.StaticPut?
    ensures QuietFor(s, s')
  {
  }

  lemma TickerQuiet(s: St, l: Label, s': St)
    requires Next(s, l) == Some(s') && Internal(l)
    requires !(l.AcqLock? || l.AcqToken? || l.AcqCancel? || l.AcqCreate? || l.AcqAdd? || l.AcqRefund?
               || l.StaticMade? || l.StaticPut?)
    ensures s'.inuse == s.inuse && s'.procs == s.procs
  {
  }

  lemma InternalStep(s: St, l: Label, s': St)
    requires Inv(s) && Internal(l) && Next(s, l) == Some(s')
    ensures if Wins(s, l) then WinsFor(s, l.t, s') else QuietFor(s, s')
  {
    hide Inv;
    match l {
      case AcqLock(t) =>
        if s.idle != [] {
          TakingWins(s, t, s');
        } else {
          CallerQuiet(s, l, s');
        }
      case AcqAdd(t) => AddingWins(s, t, s');
      case AcqToken(_) => CallerQuiet(s, l, s');
      case AcqCancel(_) => CallerQuiet(s, l, s');
      case AcqCreate(_, _) => CallerQuiet(s, l, s');
      case AcqRefund(_) => CallerQuiet(s, l, s');
      case StaticMade(_, _) => CallerQuiet(s, l, s');
      case StaticPut(_) => CallerQuiet(s, l, s');
      case _ => TickerQuiet(s, l, s');
    }
  }

  lemma InternalKeepsOwn(s: Sys, l: Label, s': Sys)
    requires Own(s) && NextSys(s, Pool(l)) == Some(s')
    ensures Own(s')
  {
    PoolSafety.InvStep(s.pool, l, s'.pool);
    InternalStep(s.pool, l, s'.pool);
    OwnFrame(s, s', Wins(s.pool, l), if Wins(s.pool, l) then l.t else 0);
  }

  lemma OwnFrame(s: Sys, s': Sys, wins: bool, t: nat)
    requires Owned(s) && Pending(s) && s' == s.(pool := s'.pool)
    requires if wins then WinsFor(s.pool, t, s'.pool) else QuietFor(s.pool, s'.pool)
    ensures Owned(s') && Pending(s')
  {
  }

  lemma AllocKeepsOwn(s: Sys, pod: string, how: How, s': Sys)
    requires Own(s) && NextSys(s, Alloc(pod, how)) == Some(s')
    ensures Own(s')
  {
    var pc := if how.StaticNew? then StaticCreate(how.ip) else Start(if how.StaticIdle? then how.id else Prefer(s, pod));
    assert s'.pool == s.pool.(procs := s.pool.procs + [pc]);
    PoolSafety.SpawnKeeps(s.pool, pc, s'.pool);
    NewCaller(s, pod, pc, s');
  }

  lemma NewCaller(s: Sys, pod: string, pc: Pc, s': Sys)
    requires Owned(s) && Pending(s) && !pc.Done?
    requires s' == s.(pool := s.pool.(procs := s.pool.procs + [pc]), reqs := s.reqs[|s.pool.procs| := pod])
    ensures Owned(s') && Pending(s')
  {
  }

  lemma RecordKeepsOwn(s: Sys, t: nat, stored: bool, s': Sys)
    requires Own(s) && NextSys(s, Record(t, stored)) == Some(s')
    ensures Own(s')
  {
    hide Inv;
    var id := s.pool.procs[t].result.value.id;
    assert id in s.pool.inuse && forall p | p in s.owner :: s.owner[p] != id;
  }

  lemma FailKeepsOwn(s: Sys, t: nat, s': Sys)
    requires Own(s) && NextSys(s, Fail(t)) == Some(s')
    ensures Own(s')
  {
    hide Inv;
  }

  /**
   * A restart keeps every owner's port: its record puts it in use again. (The
   * ports of requests cut off by the restart have no record and become idle.)
   */
  lemma RestartKeepsOwn(s: Sys, boot: St, s': Sys)
    requires Own(s) && NextSys(s, Restart(boot)) == Some(s')
    ensures Own(s')
  {
    PoolTheorems.StartedInv(boot);
    forall p | p in s.owner
      ensures s.owner[p] in boot.inuse
    {
      assert s.db[p].resources[0] in s.db[p].resources;
      assert s.owner[p] in RecordedIds(s.db);
      assert s.owner[p] in s.pool.cloud;
    }
  }

  // ----- releasing -----

  /** Nobody but the pod owns the port, and no request has won it. */
  ghost predicate Clear(s: Sys, pod: string, id: string) {
    && (forall q | q in s.owner && q != pod :: s.owner[q] != id)
    && (forall t | t in s.reqs && t < |s.pool.procs| && Won(s.pool.procs[t]) :: s.pool.procs[t].result.value.id != id)
  }

  /** The two steps of ReleaseIP that can take a port or a record from somebody, and when they do not. */
  ghost predicate SafeAct(s: Sys, a: Act) {
    match a
    case RelPool(r) => r in s.rels && s.rels[r].left != [] ==> Clear(s, s.rels[r].pod, s.rels[r].left[0].id)
    case RelDelete(r, deleted) => r in s.rels && s.rels[r].stick == 0 && deleted ==> s.rels[r].pod !in s.owner
    case _ => true
  }

  lemma ClearReleaseKeeps(s: Sys, pod: string, id: string, s': Sys)
    requires Owned(s) && Pending(s) && Clear(s, pod, id)
    requires s'.reqs == s.reqs && s'.pool.procs == s.pool.procs && s'.owner == Disowned(s.owner, pod, id) && s'.db == s.db
    requires s'.pool.inuse == s.pool.inuse - {id}
    ensures Owned(s') && Pending(s')
  {
  }

  lemma UnclearReleaseLoses(s: Sys, pod: string, id: string, s': Sys)
    requires Owned(s) && Pending(s) && !Clear(s, pod, id)
    requires s'.reqs == s.reqs && s'.pool.procs == s.pool.procs && s'.owner == Disowned(s.owner, pod, id)
    requires id !in s'.pool.inuse
    ensures !(Owned(s') && Pending(s'))
  {
    if q :| q in s.owner && q != pod && s.owner[q] == id {
      assert q in s'.owner;
    } else {
      var t :| t in s.reqs && t < |s.pool.procs| && Won(s.pool.procs[t]) && s.pool.procs[t].result.value.id == id;
      assert t in s'.reqs && Won(s'.pool.procs[t]);
    }
  }

  lemma PortFreed(s: Sys, r: nat, s': Sys)
    requires Inv(s.pool) && NextSys(s, RelPool(r)) == Some(s') && s.rels[r].left[0].id in s.pool.inuse
    ensures var id := s.rels[r].left[0].id;
            && Inv(s'.pool) && LockFree(s'.pool)
            && s'.pool.inuse == s.pool.inuse - {id} && s'.pool.procs == s.pool.procs && s'.db == s.db
            && s'.reqs == s.reqs && s'.owner == Disowned(s.owner, s.rels[r].pod, id)
            && s'.rels == s.rels[r := s.rels[r].(left := s.rels[r].left[1..])]
  {
    hide Inv, Heap.Push;
    PoolSafety.ReleasedKeeps(s.pool, s.rels[r].left[0].id, s.rels[r].stick, s'.pool);
  }

  lemma NothingFreed(s: Sys, r: nat, s': Sys)
    requires Owned(s) && Pending(s) && NextSys(s, RelPool(r)) == Some(s') && s.rels[r].left[0].id !in s.pool.inuse
    ensures s' == s.(rels := s.rels - {r}) && SafeAct(s, RelPool(r))
  {
  }

  lemma SameOwners(s: Sys, s': Sys)
    requires Own(s) && s' == s.(rels := s'.rels)
    ensures Own(s')
  {
    hide Inv;
  }

  /** Releasing one port keeps everybody's ports safe exactly if it is clear. */
  lemma RelPoolKeepsOwnExactly(s: Sys, r: nat, s': Sys)
    requires Own(s) && NextSys(s, RelPool(r)) == Some(s')
    ensures Own(s') <==> SafeAct(s, RelPool(r))
  {
    assert r in s.rels && s.rels[r].left != [];
    if s.rels[r].left[0].id in s.pool.inuse {
      hide Inv, Owned, Pending, Clear, NextSys;
      PortFreed(s, r, s');
      if Clear(s, s.rels[r].pod, s.rels[r].left[0].id) {
        ClearReleaseKeeps(s, s.rels[r].pod, s.rels[r].left[0].id, s');
      } else {
        UnclearReleaseLoses(s, s.rels[r].pod, s.rels[r].left[0].id, s');
      }
    } else {
      hide Inv, Owned, Pending;
      NothingFreed(s, r, s');
      SameOwners(s, s');
    }
  }

  /** Deleting the record keeps them safe exactly if the pod has not been given a port again. */
  lemma RelDeleteKeepsOwnExactly(s: Sys, r: nat, deleted: bool, s': Sys)
    requires Own(s) && NextSys(s, RelDelete(r, deleted)) == Some(s')
    ensures Own(s') <==> SafeAct(s, RelDelete(r, deleted))
  {
    hide Inv;
    if s.rels[r].stick == 0 && deleted && s.rels[r].pod in s.owner {
      assert s.rels[r].pod in s'.owner && s.rels[r].pod !in s'.db;
    }
  }

  // ----- runs -----

  ghost predicate SafeRun(s: Sys, run: seq<Act>) {
    run == []
    || (var n := |run| - 1;
        SafeRun(s, run[..n])
        && (ExecSys(s, run[..n]).Some? ==> SafeAct(ExecSys(s, run[..n]).value, run[n])))
  }

  lemma OwnStep(s: Sys, a: Act, s': Sys)
    requires Own(s) && NextSys(s, a) == Some(s') && SafeAct(s, a)
    ensures Own(s')
  {
    match a {
      case Pool(l) => InternalKeepsOwn(s, l, s');
      case Alloc(pod, how) => AllocKeepsOwn(s, pod, how, s');
      case Record(t, stored) => RecordKeepsOwn(s, t, stored, s');
      case Fail(t) => FailKeepsOwn(s, t, s');
      case RelRead(_, _, _) => SameOwners(s, s');
      case RelPool(r) => RelPoolKeepsOwnExactly(s, r, s');
      case RelDelete(r, deleted) => RelDeleteKeepsOwnExactly(s, r, deleted, s');
      case Restart(boot) => RestartKeepsOwn(s, boot, s');
    }
  }

  lemma {:induction false} OwnRun(s: Sys, run: seq<Act>, s': Sys)
    requires Own(s) && ExecSys(s, run) == Some(s') && SafeRun(s, run)
    ensures Own(s')
  {
    if run != [] {
      var n := |run| - 1;
      var m := ExecSys(s, run[..n]).value;
      OwnRun(s, run[..n], m);
      hide Own, NextSys, SafeAct;
      OwnStep(m, run[n], s');
    }
  }

  lemma PoolInvStep(s: Sys, a: Act, s': Sys)
    requires Inv(s.pool) && NextSys(s, a) == Some(s')
    ensures Inv(s'.pool)
  {
    hide Inv, Started;
    match a {
      case Pool(l) => PoolSafety.InvStep(s.pool, l, s'.pool);
      case Alloc(pod, how) => PoolSafety.InvStep(s.pool, CallOf(s, pod, how), s'.pool);
      case RelPool(r) =>
        if s.rels[r].left[0].id in s.pool.inuse {
          PortFreed(s, r, s');
        }
      case Restart(boot) => PoolTheorems.StartedInv(boot);
      case _ =>
    }
  }

  /** The pool keeps its invariant over every run of the daemon, guarded or not. */
  lemma {:induction false} PoolInvRun(s: Sys, run: seq<Act>, s': Sys)
    requires Inv(s.pool) && ExecSys(s, run) == Some(s')
    ensures Inv(s'.pool)
  {
    hide Inv, NextSys;
    if run != [] {
      var n := |run| - 1;
      var m := ExecSys(s, run[..n]).value;
      PoolInvRun(s, run[..n], m);
      PoolInvStep(m, run[n], s');
    }
  }

  // ----- a discipline the callers can keep -----

  /** No other call for the pod overlaps a ReleaseIP. */
  ghost predicate Apart(s: Sys, a: Act) {
    match a
    case Alloc(pod, _) => forall r | r in s.rels :: s.rels[r].pod != pod
    case RelRead(_, pod, _) =>
      (forall t | t in s.reqs :: s.reqs[t] != pod) && (forall r | r in s.rels :: s.rels[r].pod != pod)
    case _ => true
  }

  /** A pod is released only while it holds a port, or while it has no record. */
  ghost predicate Held(s: Sys, a: Act) {
    a.RelRead? ==> a.pod in s.owner || a.pod !in s.db
  }

  /** What callers may be asked to keep to: one of the two rules, or both. */
  datatype Rule = Both | OnlyApart | OnlyHeld

  ghost predicate Obeys(rule: Rule, s: Sys, a: Act) {
    (rule.OnlyHeld? || Apart(s, a)) && (rule.OnlyApart? || Held(s, a))
  }

  ghost predicate RunObeys(rule: Rule, s: Sys, run: seq<Act>) {
    run == []
    || (var n := |run| - 1;
        RunObeys(rule, s, run[..n])
        && (ExecSys(s, run[..n]).Some? ==> Obeys(rule, ExecSys(s, run[..n]).value, run[n])))
  }

  /** A release in flight is alone with its pod, and what it has to release is what the pod holds. */
  ghost predicate Alone(s: Sys, r: nat)
    requires r in s.rels
  {
    var rel := s.rels[r];
    && (forall t | t in s.reqs :: s.reqs[t] != rel.pod)
    && (forall q | q in s.rels && q != r :: s.rels[q].pod != rel.pod)
    && (if rel.left == [] then rel.pod !in s.owner
        else rel.pod in s.owner && rel.left == RecordFor(rel.pod, s.owner[rel.pod]).resources)
  }

  ghost predicate AllAlone(s: Sys) {
    forall r | r in s.rels :: Alone(s, r)
  }

  /** The discipline is enough for the guards of the single steps. */
  lemma AloneIsSafe(s: Sys, a: Act, s': Sys)
    requires Owned(s) && Pending(s) && AllAlone(s) && NextSys(s, a) == Some(s')
    ensures SafeAct(s, a)
  {
    if a.RelPool? {
      assert Alone(s, a.r);
    } else if a.RelDelete? {
      assert Alone(s, a.r);
    }
  }

  lemma FreeingStaysAlone(s: Sys, r: nat, s': Sys)
    requires Owned(s) && AllAlone(s) && NextSys(s, RelPool(r)) == Some(s')
    ensures AllAlone(s')
  {
    assert Alone(s, r);
    forall q | q in s'.rels
      ensures Alone(s', q)
    {
      assert Alone(s, q);
    }
  }

  lemma RecordingStaysAlone(s: Sys, t: nat, stored: bool, s': Sys)
    requires AllAlone(s) && NextSys(s, Record(t, stored)) == Some(s')
    ensures AllAlone(s')
  {
    forall q | q in s'.rels
      ensures Alone(s', q)
    {
      assert Alone(s, q);
    }
  }

  lemma ReadingStaysAlone(s: Sys, r: nat, pod: string, stick: int, s': Sys)
    requires Owned(s) && AllAlone(s) && NextSys(s, RelRead(r, pod, stick)) == Some(s')
    requires Obeys(Both, s, RelRead(r, pod, stick))
    ensures AllAlone(s')
  {
    forall q | q in s'.rels
      ensures Alone(s', q)
    {
      if q != r {
        assert Alone(s, q);
      }
    }
  }

  lemma OtherStaysAlone(s: Sys, a: Act, s': Sys)
    requires AllAlone(s) && NextSys(s, a) == Some(s') && Obeys(Both, s, a)
    requires a.Pool? || a.Alloc? || a.Fail? || a.RelDelete? || a.Restart?
    ensures AllAlone(s')
  {
    forall q | q in s'.rels
      ensures Alone(s', q)
    {
      assert q in s.rels && Alone(s, q);
    }
  }

  lemma OrderlyStep(s: Sys, a: Act, s': Sys)
    requires Own(s) && AllAlone(s) && NextSys(s, a) == Some(s') && Obeys(Both, s, a)
    ensures SafeAct(s, a) && Own(s') && AllAlone(s')
  {
    hide Inv, Owned, Pending, AllAlone, NextSys, SafeAct, Obeys;
    AloneIsSafe(s, a, s');
    OwnStep(s, a, s');
    match a {
      case Record(t, stored) => RecordingStaysAlone(s, t, stored, s');
      case RelRead(r, pod, stick) => ReadingStaysAlone(s, r, pod, stick, s');
      case RelPool(r) => FreeingStaysAlone(s, r, s');
      case _ => OtherStaysAlone(s, a, s');
    }
  }

  lemma {:induction false} OrderlyRunIsSafe(s: Sys, run: seq<Act>, s': Sys)
    requires Own(s) && AllAlone(s) && ExecSys(s, run) == Some(s') && RunObeys(Both, s, run)
    ensures SafeRun(s, run) && Own(s') && AllAlone(s')
  {
    hide Own, AllAlone, NextSys, SafeAct, Obeys;
    if run != [] {
      var n := |run| - 1;
      var m := ExecSys(s, run[..n]).value;
      OrderlyRunIsSafe(s, run[..n], m);
      OrderlyStep(m, run[n], s');
    }
  }

  /** A daemon that has just come up and owes nobody anything. */
  ghost predicate FirstBoot(s: Sys) {
    Started(s.pool) && s.owner == map[] && s.reqs == map[] && s.rels == map[]
  }

  lemma FirstBootIsOwn(s: Sys)
    requires FirstBoot(s)
    ensures Own(s) && AllAlone(s)
  {
    PoolTheorems.StartedInv(s.pool);
  }

  /** No two pods hold one port; the record of each holder names its port, which is in use and not idle. */
  ghost predicate Exclusive(s: Sys) {
    && (forall p, q | p in s.owner && q in s.owner && p != q :: s.owner[p] != s.owner[q])
    && (forall p | p in s.owner ::
          p in s.db && s.db[p] == RecordFor(p, s.owner[p]) && s.owner[p] in s.pool.inuse
          && forall x | x in s.pool.idle :: x.port.id != s.owner[p])
  }

  lemma OwnIsExclusive(s: Sys)
    requires Own(s)
    ensures Exclusive(s)
  {
    PoolTheorems.EveryPortInOnePlace(s.pool);
    hide Inv;
  }

  /**
   * Over every run with any number of AllocateIP and ReleaseIP calls in flight
   * and restarts at any moment, as long as no call for a pod overlaps its
   * release and a pod is released only while it holds a port.
   */
  lemma NoTwoPodsShareAPort(s: Sys, run: seq<Act>, s': Sys)
    requires FirstBoot(s) && ExecSys(s, run) == Some(s') && RunObeys(Both, s, run)
    ensures Exclusive(s')
  {
    FirstBootIsOwn(s);
    OrderlyRunIsSafe(s, run, s');
    OwnIsExclusive(s');
  }

  /** The same, with the exact guards of the single steps in place of the discipline. */
  lemma SafeRunsShareNoPort(s: Sys, run: seq<Act>, s': Sys)
    requires FirstBoot(s) && ExecSys(s, run) == Some(s') && SafeRun(s, run)
    ensures Exclusive(s')
  {
    FirstBootIsOwn(s);
    OwnRun(s, run, s');
    OwnIsExclusive(s');
  }
}
