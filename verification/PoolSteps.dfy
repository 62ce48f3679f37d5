/**
 * `SimpleObjectPool` (pkg/pool/pool.go) as a step system. Every locked section,
 * every send or receive on `tokenCh`, every return of `Create` or `Dispose` and
 * every read of a size without the lock is one step; any number of Acquire
 * calls, static creations and releases interleave with the one ticker goroutine.
 * The lock is kept only by a ticker that left `checkIdle` through a `break`
 * (`Wedged`).
 */
module PoolSteps {
  import opened PoolTypes
  import Heap

  datatype Config = Config(minIdle: int, maxIdle: int, capacity: nat)

  /** Where one caller of the pool stands. */
  datatype Pc =
    | Start(prefer: string)     // about to lock in Acquire
    | Await                     // at the select on tokenCh and ctx.Done
    | Creating                  // took a token, Create("") is running
    | Made(port: Port)          // about to AddInuse
    | Refund                    // Create failed, about to send the token back
    | StaticCreate(ip: string)  // Create(ip) is running, without a token
    | StaticAdd(port: Port)     // about to AddIdle
    | Done(result: Option<Port>)

  /** Where the ticker stands; `full` says that checkInsufficient follows checkIdle. */
  datatype Ticker =
    | Rest
    | Check(full: bool)                 // at the loop head, about to compare the queue with maxIdle
    | LookAny(full: bool)               // not above maxIdle, about to see whether any port is idle
    | LookSum(full: bool)               // some port is idle, about to read both sizes
    | GotIdle(idle: nat, full: bool)    // read the queue size, about to read the number in use
    | GotInuse(inuse: nat, full: bool)  // read the number in use, about to read the queue size
    | Locking(full: bool)               // saw too many idle ports, about to lock
    | Disposing(port: Port, full: bool)
    | Disposed(full: bool)              // about to send the token
    | PutBack(port: Port, full: bool)   // Dispose failed, about to AddIdle
    | Need                              // about to call needAddition
    | Collect(left: nat, got: nat)      // taking tokens without blocking
    | Fill(more: nat)                   // Create("") is running, `more` to follow
    | FillMade(port: Port, more: nat)   // about to AddIdle
    | FillReturn(more: nat)             // Create failed, about to send the token back
    | Wedged                            // left checkIdle by `break`, the lock still held

  /** `cloud` is what Neutron lists for this node; `loaded` and `statics` are history. */
  datatype St = St(
    cfg: Config,
    idle: seq<Item>,
    inuse: map<string, Port>,
    tokens: nat,
    procs: seq<Pc>,
    ticker: Ticker,
    cloud: map<string, Port>,
    now: int,
    loaded: nat,
    statics: nat)

  datatype Label =
    | Advance(to: int)
    | Spawn(prefer: string)
    | SpawnStatic(ip: string)
    | AcqLock(t: nat)
    | AcqToken(t: nat)
    | AcqCancel(t: nat)
    | AcqCreate(t: nat, made: Option<Port>)
    | AcqAdd(t: nat)
    | AcqRefund(t: nat)
    | StaticMade(t: nat, made: Option<Port>)
    | StaticPut(t: nat)
    | Release(id: string, stick: int)
    | TickBegin
    | TickCheck
    | TickAny
    | TickSumIdle
    | TickSumInuse
    | TickSum
    | TickLock
    | TickDispose(ok: bool)
    | TickSend
    | TickPutBack
    | TickNeed
    | TickCollect
    | TickCreate(made: Option<Port>)
    | TickAdd
    | TickReturn

  function Size(s: St): (r: nat) {
    |s.idle| + |s.inuse|
  }

  /** tooManyIdle as it answers when nobody interferes. */
  predicate TooManyIdle(s: St) {
    |s.idle| > s.cfg.maxIdle || (|s.idle| > 0 && Size(s) > s.cfg.capacity)
  }

  function NeedAddition(s: St): (r: int) {
    Min(s.cfg.minIdle - |s.idle|, s.cfg.capacity - Size(s))
  }

  /** `getOneLocked`: the named item if it is idle, else the root. */
  function GetOne(idle: seq<Item>, prefer: string): (r: (Item, seq<Item>))
    requires idle != []
  {
    var i := Heap.IndexOf(idle, prefer);
    if prefer != "" && i < |idle| then (idle[i], Heap.RobAt(idle, i))
    else (idle[0], Heap.Pop(idle))
  }

  /** What the model trusts Neutron with: a created port has a new, non-empty id. */
  predicate Fresh(s: St, made: Option<Port>) {
    made.Some? ==> made.value.id != "" && made.value.id !in s.cloud
  }

  function Register(s: St, made: Option<Port>): (r: St) {
    if made.Some? then s.(cloud := s.cloud[made.value.id := made.value]) else s
  }

  function Goto(s: St, t: nat, pc: Pc): (r: St)
    requires t < |s.procs|
  {
    s.(procs := s.procs[t := pc])
  }

  function AddIdle(s: St, port: Port): (r: St) {
    s.(idle := Heap.Push(s.idle, Item(port, s.now)))
  }

  predicate LockFree(s: St) {
    !s.ticker.Wedged?
  }

  // ----- the locked section of Acquire and what follows it -----

  function AcqLocked(s: St, t: nat): (r: Option<St>) {
    if t >= |s.procs| || !s.procs[t].Start? || !LockFree(s) then None
    else if s.idle != [] then
      var (item, rest) := GetOne(s.idle, s.procs[t].prefer);
      Some(Goto(s.(idle := rest, inuse := s.inuse[item.port.id := item.port]), t, Done(Some(item.port))))
    else if Size(s) >= s.cfg.capacity then Some(Goto(s, t, Done(None)))
    else Some(Goto(s, t, Await))
  }

  function AcqTakesToken(s: St, t: nat): (r: Option<St>) {
    if t < |s.procs| && s.procs[t].Await? && s.tokens > 0
    then Some(Goto(s.(tokens := s.tokens - 1), t, Creating)) else None
  }

  function AcqCancelled(s: St, t: nat): (r: Option<St>) {
    if t < |s.procs| && s.procs[t].Await? then Some(Goto(s, t, Done(None))) else None
  }

  function AcqCreated(s: St, t: nat, made: Option<Port>): (r: Option<St>) {
    if t < |s.procs| && s.procs[t].Creating? && Fresh(s, made)
    then Some(Goto(Register(s, made), t, if made.Some? then Made(made.value) else Refund)) else None
  }

  function AcqAdds(s: St, t: nat): (r: Option<St>) {
    if t < |s.procs| && s.procs[t].Made? && LockFree(s)
    then
      var p := s.procs[t].port;
      Some(Goto(s.(inuse := s.inuse[p.id := p]), t, Done(Some(p))))
    else None
  }

  /** A send on tokenCh waits while the buffer is full. */
  predicate SendRoom(s: St) {
    s.tokens < s.cfg.capacity
  }

  function AcqRefunds(s: St, t: nat): (r: Option<St>) {
    if t < |s.procs| && s.procs[t].Refund? && SendRoom(s)
    then Some(Goto(s.(tokens := s.tokens + 1), t, Done(None))) else None
  }

  // ----- static creation -----

  function StaticCreated(s: St, t: nat, made: Option<Port>): (r: Option<St>) {
    if t < |s.procs| && s.procs[t].StaticCreate? && Fresh(s, made)
       && (made.Some? ==> made.value.ip == s.procs[t].ip)
    then Some(Goto(Register(s, made), t, if made.Some? then StaticAdd(made.value) else Done(None))) else None
  }

  function StaticPuts(s: St, t: nat): (r: Option<St>) {
    if t < |s.procs| && s.procs[t].StaticAdd? && LockFree(s)
    then
      var p := s.procs[t].port;
      Some(Goto(AddIdle(s, p).(statics := s.statics + 1), t, Start(p.id)))
    else None
  }

  // ----- ReleaseWithReverse -----

  function Released(s: St, id: string, stick: int): (r: Option<St>) {
    if !LockFree(s) || id !in s.inuse then None
    else
      var item := Item(s.inuse[id], if stick > 0 then s.now + stick else s.now);
      Some(s.(inuse := s.inuse - {id}, idle := Heap.Push(s.idle, item)))
  }

  // ----- the ticker -----

  function AfterCheck(full: bool): (r: Ticker) {
    if full then Need else Rest
  }

  /**
   * tooManyIdle runs without the lock, so each read of a size is a step. Go
   * leaves open which of the two sizes of the sum is read first.
   */
  function TickChecks(s: St): (s': Option<St>) {
    if !s.ticker.Check? then None
    else Some(s.(ticker := if |s.idle| > s.cfg.maxIdle then Locking(s.ticker.full) else LookAny(s.ticker.full)))
  }

  function TickLooks(s: St): (s': Option<St>) {
    if !s.ticker.LookAny? then None
    else Some(s.(ticker := if |s.idle| > 0 then LookSum(s.ticker.full) else AfterCheck(s.ticker.full)))
  }

  function TickReadsIdle(s: St): (s': Option<St>) {
    if s.ticker.LookSum? then Some(s.(ticker := GotIdle(|s.idle|, s.ticker.full))) else None
  }

  function TickReadsInuse(s: St): (s': Option<St>) {
    if s.ticker.LookSum? then Some(s.(ticker := GotInuse(|s.inuse|, s.ticker.full))) else None
  }

  function TickSums(s: St): (s': Option<St>) {
    if !s.ticker.GotIdle? && !s.ticker.GotInuse? then None
    else
      var sum := if s.ticker.GotIdle? then s.ticker.idle + |s.inuse| else |s.idle| + s.ticker.inuse;
      Some(s.(ticker := if sum > s.cfg.capacity then Locking(s.ticker.full) else AfterCheck(s.ticker.full)))
  }

  function TickLocks(s: St): (r: Option<St>) {
    if !s.ticker.Locking? then None
    else if s.idle == [] || s.idle[0].reverse > s.now then Some(s.(ticker := Wedged))
    else Some(s.(idle := Heap.Pop(s.idle), ticker := Disposing(s.idle[0].port, s.ticker.full)))
  }

  function TickDisposes(s: St, ok: bool): (r: Option<St>) {
    if !s.ticker.Disposing? then None
    else if ok then
      Some(s.(ticker := Disposed(s.ticker.full), cloud := s.cloud - {s.ticker.port.id}))
    else Some(s.(ticker := PutBack(s.ticker.port, s.ticker.full)))
  }

  function TickSends(s: St): (r: Option<St>) {
    if s.ticker.Disposed? && SendRoom(s)
    then Some(s.(ticker := Check(s.ticker.full), tokens := s.tokens + 1)) else None
  }

  function TickPutsBack(s: St): (r: Option<St>) {
    if s.ticker.PutBack?
    then Some(AddIdle(s, s.ticker.port).(ticker := Check(s.ticker.full))) else None
  }

  function TickNeeds(s: St): (r: Option<St>) {
    if !s.ticker.Need? then None
    else
      var addition := NeedAddition(s);
      Some(s.(ticker := if addition <= 0 then Rest else Collect(addition, 0)))
  }

  function NextFill(more: nat): (r: Ticker) {
    if more == 0 then Rest else Fill(more - 1)
  }

  function TickCollects(s: St): (r: Option<St>) {
    if !s.ticker.Collect? then None
    else if s.ticker.left == 0 then Some(s.(ticker := NextFill(s.ticker.got)))
    else if s.tokens > 0 then
      Some(s.(ticker := Collect(s.ticker.left - 1, s.ticker.got + 1), tokens := s.tokens - 1))
    else Some(s.(ticker := Collect(s.ticker.left - 1, s.ticker.got)))
  }

  function TickCreates(s: St, made: Option<Port>): (r: Option<St>) {
    if s.ticker.Fill? && Fresh(s, made)
    then
      var more := s.ticker.more;
      Some(Register(s, made).(ticker := if made.Some? then FillMade(made.value, more) else FillReturn(more)))
    else None
  }

  function TickAdds(s: St): (r: Option<St>) {
    if s.ticker.FillMade?
    then Some(AddIdle(s, s.ticker.port).(ticker := NextFill(s.ticker.more))) else None
  }

  function TickReturns(s: St): (r: Option<St>) {
    if s.ticker.FillReturn? && SendRoom(s)
    then Some(s.(ticker := NextFill(s.ticker.more), tokens := s.tokens + 1)) else None
  }

  // ----- steps and runs -----

  /** The state after the step, or None where the step cannot be taken. */
  function Next(s: St, l: Label): (r: Option<St>) {
    match l
    case Advance(to) => if s.now <= to then Some(s.(now := to)) else None
    case Spawn(prefer) => Some(s.(procs := s.procs + [Start(prefer)]))
    case SpawnStatic(ip) => Some(s.(procs := s.procs + [StaticCreate(ip)]))
    case AcqLock(t) => AcqLocked(s, t)
    case AcqToken(t) => AcqTakesToken(s, t)
    case AcqCancel(t) => AcqCancelled(s, t)
    case AcqCreate(t, made) => AcqCreated(s, t, made)
    case AcqAdd(t) => AcqAdds(s, t)
    case AcqRefund(t) => AcqRefunds(s, t)
    case StaticMade(t, made) => StaticCreated(s, t, made)
    case StaticPut(t) => StaticPuts(s, t)
    case Release(id, stick) => Released(s, id, stick)
    case TickBegin => if s.ticker.Rest? then Some(s.(ticker := Check(true))) else None
    case TickCheck => TickChecks(s)
    case TickAny => TickLooks(s)
    case TickSumIdle => TickReadsIdle(s)
    case TickSumInuse => TickReadsInuse(s)
    case TickSum => TickSums(s)
    case TickLock => TickLocks(s)
    case TickDispose(ok) => TickDisposes(s, ok)
    case TickSend => TickSends(s)
    case TickPutBack => TickPutsBack(s)
    case TickNeed => TickNeeds(s)
    case TickCollect => TickCollects(s)
    case TickCreate(made) => TickCreates(s, made)
    case TickAdd => TickAdds(s)
    case TickReturn => TickReturns(s)
  }

  /** The state after the whole run, or None where some step of it cannot be taken. */
  function Exec(s: St, run: seq<Label>): (r: Option<St>) {
    if run == [] then Some(s)
    else
      var n := |run| - 1;
      match Exec(s, run[..n])
      case None => None
      case Some(m) => Next(m, run[n])
  }

  /** Steps that are not the arrival of a call from above. */
  predicate Internal(l: Label) {
    !l.Spawn? && !l.SpawnStatic? && !l.Release?
  }

  predicate AllInternal(run: seq<Label>) {
    forall i | 0 <= i < |run| :: Internal(run[i])
  }

  lemma ExecStep(s: St, run: seq<Label>, m: St, l: Label)
    requires Exec(s, run) == Some(m)
    ensures Exec(s, run + [l]) == Next(m, l)
  {
    assert (run + [l])[..|run|] == run;
  }

  lemma Extend(s: St, run: seq<Label>, m: St, l: Label, e: St)
    requires Exec(s, run) == Some(m) && Next(m, l) == Some(e)
    ensures Exec(s, run + [l]) == Some(e)
  {
    ExecStep(s, run, m, l);
  }

  lemma FirstStep(s: St, l: Label, e: St)
    requires Next(s, l) == Some(e)
    ensures Exec(s, [l]) == Some(e)
  {
    ExecStep(s, [], s, l);
    assert [] + [l] == [l];
  }

  lemma {:induction false} ExecConcat(s: St, a: seq<Label>, m: St, b: seq<Label>)
    requires Exec(s, a) == Some(m)
    ensures Exec(s, a + b) == Exec(m, b)
  {
    if b == [] {
      assert a + b == a;
    } else {
      var n := |b| - 1;
      ExecConcat(s, a, m, b[..n]);
      assert (a + b)[..|a + b| - 1] == a + b[..n];
    }
  }

  /** A state right after NewSimpleObjectPool: no caller yet, the ticker about to run checkIdle once. */
  ghost predicate Started(s: St) {
    && s.procs == [] && s.ticker == Check(false) && s.statics == 0
    && s.tokens == Max(0, s.cfg.capacity - Size(s))
    && Max(s.cfg.capacity, Size(s)) == Max(s.cfg.capacity, s.loaded)
    && (forall i, j | 0 <= i < j < |s.idle| :: s.idle[i].port.id != s.idle[j].port.id)
    && (forall x | x in s.idle :: x.port.id !in s.inuse && x.port.id in s.cloud && s.cloud[x.port.id] == x.port)
    && (forall k | k in s.inuse :: s.inuse[k].id == k && k in s.cloud && s.cloud[k] == s.inuse[k])
    && (forall k | k in s.cloud :: s.cloud[k].id == k && (k in s.inuse || exists x :: x in s.idle && x.port.id == k))
    && "" !in s.cloud
  }
}
