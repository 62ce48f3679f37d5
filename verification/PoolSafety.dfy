/** The invariant holds in every reachable state of every interleaving. */
module PoolSafety {
  import opened PoolTypes
  import opened PoolSteps
  import opened PoolInvariant
  import Heap

  /** No port moves. */
  lemma SamePlaces(s: St, s': St)
    requires Placed(s) && Genuine(s)
    requires s'.idle == s.idle && s'.inuse == s.inuse && s'.procs == s.procs && s'.cloud == s.cloud
    requires TickerPort(s'.ticker) == TickerPort(s.ticker)
    ensures Placed(s') && Genuine(s')
  {
    forall id
      ensures Places(s', id) == One(id in s'.cloud)
    {
      assert Places(s', id) == Places(s, id);
    }
  }

  /** One caller moves on without moving a port. */
  lemma CallerMoves(s: St, t: nat, pc: Pc, s': St)
    requires Placed(s) && Genuine(s) && t < |s.procs|
    requires PcPort(s.procs[t]) == PcPort(pc) == None
    requires s'.procs == s.procs[t := pc]
    requires s'.idle == s.idle && s'.inuse == s.inuse && s'.ticker == s.ticker && s'.cloud == s.cloud
    ensures Placed(s') && Genuine(s')
    ensures InFlight(s') + PcTokens(s.procs[t]) == InFlight(s) + PcTokens(pc)
  {
    hide CountIdle, CountProcs, ProcTokens;
    ProcTokensUpdate(s.procs, t, pc);
    forall id
      ensures Places(s', id) == One(id in s'.cloud)
    {
      ProcCountUpdate(s.procs, t, pc, id);
      assert Places(s', id) == Places(s, id);
    }
  }

  /** A caller takes one item out of the queue and into use. */
  lemma CallerTakes(s: St, t: nat, x: Item, rest: seq<Item>, s': St)
    requires Inv(s) && t < |s.procs| && s.procs[t].Start?
    requires forall id :: CountIdle(rest, id) + One(x.port.id == id) == CountIdle(s.idle, id)
    requires x in s.idle && |rest| == |s.idle| - 1 && forall y | y in rest :: y in s.idle
    requires s' == Goto(s.(idle := rest, inuse := s.inuse[x.port.id := x.port]), t, Done(Some(x.port)))
    ensures x.port.id !in s.inuse
    ensures Inv(s')
  {
    ProcTokensUpdate(s.procs, t, Done(Some(x.port)));
    CallerTakesPlaced(s, t, x, rest, s');
    CallerTakesGenuine(s, t, x, rest, s');
    hide CountIdle, CountProcs, ProcTokens, Placed, Genuine;
  }

  lemma CallerTakesPlaced(s: St, t: nat, x: Item, rest: seq<Item>, s': St)
    requires Placed(s) && t < |s.procs| && PcPort(s.procs[t]) == None
    requires forall id :: CountIdle(rest, id) + One(x.port.id == id) == CountIdle(s.idle, id)
    requires s'.idle == rest && s'.inuse == s.inuse[x.port.id := x.port] && s'.cloud == s.cloud && s'.ticker == s.ticker
    requires s'.procs == s.procs[t := Done(Some(x.port))]
    ensures x.port.id !in s.inuse && Placed(s')
  {
    hide CountIdle, CountProcs;
    assert CountIdle(s.idle, x.port.id) >= 1;
    assert Places(s, x.port.id) == One(x.port.id in s.cloud);
    forall id
      ensures Places(s', id) == One(id in s'.cloud)
    {
      ProcCountUpdate(s.procs, t, Done(Some(x.port)), id);
      assert Places(s, id) == One(id in s.cloud);
    }
  }

  lemma CallerTakesGenuine(s: St, t: nat, x: Item, rest: seq<Item>, s': St)
    requires Genuine(s) && t < |s.procs| && x in s.idle && forall y | y in rest :: y in s.idle
    requires s'.idle == rest && s'.inuse == s.inuse[x.port.id := x.port] && s'.cloud == s.cloud && s'.ticker == s.ticker
    requires s'.procs == s.procs[t := Done(Some(x.port))]
    ensures Genuine(s')
  {
  }

  lemma AcqLockedKeeps(s: St, t: nat, s': St)
    requires Inv(s) && AcqLocked(s, t) == Some(s')
    ensures Inv(s')
  {
    hide GetOne;
    if s.idle != [] {
      var (x, rest) := GetOne(s.idle, s.procs[t].prefer);
      GetOneTakesOne(s.idle, s.procs[t].prefer);
      CallerTakes(s, t, x, rest, s');
    } else {
      CallerMoves(s, t, s'.procs[t], s');
    }
  }

  lemma AcqKeeps(s: St, l: Label, s': St)
    requires Inv(s) && Next(s, l) == Some(s')
    requires l.AcqToken? || l.AcqCancel? || l.AcqRefund?
    ensures Inv(s')
  {
    CallerMoves(s, l.t, s'.procs[l.t], s');
  }

  lemma AcqAddsKeeps(s: St, t: nat, s': St)
    requires Inv(s) && AcqAdds(s, t) == Some(s')
    ensures Inv(s')
  {
    hide CountIdle, CountProcs, ProcTokens;
    var p := s.procs[t].port;
    var pc := Done(Some(p));
    assert PcPort(s.procs[t]) == Some(p);
    ProcCountHas(s.procs, t);
    assert Places(s, p.id) == 1;
    ProcTokensUpdate(s.procs, t, pc);
    forall id
      ensures Places(s', id) == One(id in s'.cloud)
    {
      ProcCountUpdate(s.procs, t, pc, id);
      assert Places(s', id) == Places(s, id);
    }
  }

  /** A caller's Create returns, with a port nobody has seen or with an error. */
  lemma CallerCreates(s: St, t: nat, made: Option<Port>, pc: Pc, s': St)
    requires Inv(s) && t < |s.procs| && Fresh(s, made)
    requires PcPort(s.procs[t]) == None && PcPort(pc) == made && PcTokens(pc) == PcTokens(s.procs[t])
    requires s' == Goto(Register(s, made), t, pc)
    ensures Inv(s')
  {
    hide CountIdle, CountProcs, ProcTokens;
    ProcTokensUpdate(s.procs, t, pc);
    CallerCreatesPlaced(s, t, made, pc, s');
    hide Placed;
  }

  lemma CallerCreatesPlaced(s: St, t: nat, made: Option<Port>, pc: Pc, s': St)
    requires Placed(s) && t < |s.procs| && Fresh(s, made)
    requires PcPort(s.procs[t]) == None && PcPort(pc) == made
    requires s' == Goto(Register(s, made), t, pc)
    ensures Placed(s')
  {
    hide CountIdle, CountProcs, ProcTokens;
    forall id
      ensures Places(s', id) == One(id in s'.cloud)
    {
      ProcCountUpdate(s.procs, t, pc, id);
      assert Places(s, id) == One(id in s.cloud);
    }
  }

  lemma CreatedKeeps(s: St, l: Label, s': St)
    requires Inv(s) && Next(s, l) == Some(s')
    requires l.AcqCreate? || l.StaticMade?
    ensures Inv(s')
  {
    CallerCreates(s, l.t, l.made, s'.procs[l.t], s');
  }

  lemma StaticPutsKeeps(s: St, t: nat, s': St)
    requires Inv(s) && StaticPuts(s, t) == Some(s')
    ensures Inv(s')
  {
    hide CountIdle, CountProcs, ProcTokens, Heap.Push;
    var p := s.procs[t].port;
    assert PcPort(s.procs[t]) == Some(p);
    PushCount(s.idle, Item(p, s.now));
    ProcTokensUpdate(s.procs, t, Start(p.id));
    forall id
      ensures Places(s', id) == One(id in s'.cloud)
    {
      ProcCountUpdate(s.procs, t, Start(p.id), id);
      assert Places(s', id) == Places(s, id);
    }
  }

  lemma ReleasedKeeps(s: St, id: string, stick: int, s': St)
    requires Inv(s) && Released(s, id, stick) == Some(s')
    ensures Inv(s')
  {
    hide CountIdle, CountProcs, ProcTokens, Heap.Push;
    var item := Item(s.inuse[id], if stick > 0 then s.now + stick else s.now);
    PushCount(s.idle, item);
    MapRemove(s.inuse, id);
    forall k
      ensures Places(s', k) == One(k in s'.cloud)
    {
      assert Places(s', k) == Places(s, k);
    }
  }

  /** The root leaves the queue for the ticker. */
  lemma TickLocksKeeps(s: St, s': St)
    requires Inv(s) && TickLocks(s) == Some(s')
    ensures Inv(s')
  {
    if !s'.ticker.Wedged? {
      RobCount(s.idle, 0);
      hide Heap.RobAt, CountIdle, CountProcs, ProcTokens;
      TickLocksPlaced(s, s.idle[0], Heap.Pop(s.idle), s');
      TickLocksGenuine(s, s.idle[0], Heap.Pop(s.idle), s');
      hide Placed, Genuine;
    } else {
      SamePlaces(s, s');
    }
  }

  lemma TickLocksPlaced(s: St, x: Item, rest: seq<Item>, s': St)
    requires Placed(s) && TickerPort(s.ticker) == None && TickerPort(s'.ticker) == Some(x.port)
    requires forall id :: CountIdle(rest, id) + One(x.port.id == id) == CountIdle(s.idle, id)
    requires s'.idle == rest && s'.inuse == s.inuse && s'.procs == s.procs && s'.cloud == s.cloud
    ensures Placed(s')
  {
    hide CountIdle, CountProcs;
    forall id
      ensures Places(s', id) == One(id in s'.cloud)
    {
      assert Places(s, id) == One(id in s.cloud);
    }
  }

  lemma TickLocksGenuine(s: St, x: Item, rest: seq<Item>, s': St)
    requires Genuine(s) && x in s.idle && forall y | y in rest :: y in s.idle
    requires TickerPort(s'.ticker) == Some(x.port)
    requires s'.idle == rest && s'.inuse == s.inuse && s'.procs == s.procs && s'.cloud == s.cloud
    ensures Genuine(s')
  {
  }

  lemma TickDisposesKeeps(s: St, ok: bool, s': St)
    requires Inv(s) && TickDisposes(s, ok) == Some(s')
    ensures Inv(s')
  {
    if ok {
      TickDisposedPlaced(s, s.ticker.port.id, s');
      TickDisposedGenuine(s, s.ticker.port.id, s');
      hide Placed, Genuine, CountIdle, CountProcs, ProcTokens;
    } else {
      SamePlaces(s, s');
    }
  }

  lemma TickDisposedPlaced(s: St, id: string, s': St)
    requires Placed(s)
    requires TickerPort(s.ticker).Some? && TickerPort(s.ticker).value.id == id && TickerPort(s'.ticker) == None
    requires s'.idle == s.idle && s'.inuse == s.inuse && s'.procs == s.procs && s'.cloud == s.cloud - {id}
    ensures Placed(s')
  {
    hide CountIdle, CountProcs;
    assert Places(s, id) == One(id in s.cloud);
    forall k
      ensures Places(s', k) == One(k in s'.cloud)
    {
      assert Places(s, k) == One(k in s.cloud);
    }
  }

  /** The port the ticker carries is nowhere else, so nothing that is left has its id. */
  lemma TickDisposedGenuine(s: St, id: string, s': St)
    requires Placed(s) && Genuine(s)
    requires TickerPort(s.ticker).Some? && TickerPort(s.ticker).value.id == id && TickerPort(s'.ticker) == None
    requires s'.idle == s.idle && s'.inuse == s.inuse && s'.procs == s.procs && s'.cloud == s.cloud - {id}
    ensures Genuine(s')
  {
    assert Places(s, id) == 1;
    forall x | x in s.idle
      ensures x.port.id != id
    {
      CountHas(s.idle, x.port.id);
    }
    forall t | 0 <= t < |s.procs| && PcPort(s.procs[t]).Some?
      ensures PcPort(s.procs[t]).value.id != id
    {
      ProcCountHas(s.procs, t);
    }
  }

  /** The ticker puts the port it carries into the queue. */
  lemma TickerPuts(s: St, port: Port, k: Ticker, s': St)
    requires Inv(s) && TickerPort(s.ticker) == Some(port) && TickerPort(k) == None
    requires TickerTokens(k) + 1 == TickerTokens(s.ticker)
    requires s' == AddIdle(s, port).(ticker := k)
    ensures Inv(s')
  {
    hide CountIdle, CountProcs, ProcTokens, Heap.Push;
    PushCount(s.idle, Item(port, s.now));
    forall id
      ensures Places(s', id) == One(id in s'.cloud)
    {
      assert Places(s, id) == One(id in s.cloud);
    }
  }

  /** The ticker's Create returns, with a port nobody has seen or with an error. */
  lemma TickerCreates(s: St, made: Option<Port>, k: Ticker, s': St)
    requires Inv(s) && Fresh(s, made) && TickerPort(s.ticker) == None && TickerPort(k) == made
    requires TickerTokens(k) == TickerTokens(s.ticker)
    requires s' == Register(s, made).(ticker := k)
    ensures Inv(s')
  {
    hide CountIdle, CountProcs, ProcTokens;
    forall id
      ensures Places(s', id) == One(id in s'.cloud)
    {
      assert Places(s, id) == One(id in s.cloud);
    }
  }

  /** The ticker moves on without moving a port; tokens may change hands. */
  lemma TickerMoves(s: St, k: Ticker, tokens: nat, s': St)
    requires Inv(s) && TickerPort(k) == TickerPort(s.ticker)
    requires TickerTokens(k) + tokens == TickerTokens(s.ticker) + s.tokens
    requires s' == s.(ticker := k, tokens := tokens)
    ensures Inv(s')
  {
    SamePlaces(s, s');
  }

  lemma SpawnKeeps(s: St, pc: Pc, s': St)
    requires Inv(s) && PcPort(pc) == None && PcTokens(pc) == 0
    requires s' == s.(procs := s.procs + [pc])
    ensures Inv(s')
  {
    hide CountIdle, CountProcs, ProcTokens;
    ProcAppend(s.procs, pc);
    forall id
      ensures Places(s', id) == One(id in s'.cloud)
    {
      assert Places(s', id) == Places(s, id);
    }
  }

  lemma TickStep(s: St, l: Label, s': St)
    requires Inv(s) && Next(s, l) == Some(s')
    requires l.TickBegin? || l.TickSend? || l.TickPutBack? || l.TickNeed?
    ensures Inv(s')
  {
    if l.TickPutBack? {
      TickerPuts(s, s.ticker.port, s'.ticker, s');
    } else {
      TickerMoves(s, s'.ticker, s'.tokens, s');
    }
  }

  lemma LookStep(s: St, l: Label, s': St)
    requires Inv(s) && Next(s, l) == Some(s')
    requires l.TickCheck? || l.TickAny? || l.TickSumIdle? || l.TickSumInuse? || l.TickSum?
    ensures Inv(s')
  {
    hide Inv;
    TickerMoves(s, s'.ticker, s'.tokens, s');
  }

  lemma FillStep(s: St, l: Label, s': St)
    requires Inv(s) && Next(s, l) == Some(s')
    requires l.TickCreate? || l.TickAdd?
    ensures Inv(s')
  {
    if l.TickAdd? {
      TickerPuts(s, s.ticker.port, s'.ticker, s');
    } else {
      TickerCreates(s, l.made, s'.ticker, s');
    }
  }

  lemma CollectStep(s: St, l: Label, s': St)
    requires Inv(s) && Next(s, l) == Some(s')
    requires l.TickCollect? || l.TickReturn?
    ensures Inv(s')
  {
    hide Inv;
    TickerMoves(s, s'.ticker, s'.tokens, s');
  }

  lemma CallerStep(s: St, l: Label, s': St)
    requires Inv(s) && Next(s, l) == Some(s')
    requires l.AcqLock? || l.AcqToken? || l.AcqCancel? || l.AcqCreate? || l.AcqAdd? || l.AcqRefund?
             || l.StaticMade? || l.StaticPut?
    ensures Inv(s')
  {
    match l {
      case AcqLock(t) => AcqLockedKeeps(s, t, s');
      case AcqCreate(_, _) => CreatedKeeps(s, l, s');
      case AcqAdd(t) => AcqAddsKeeps(s, t, s');
      case StaticMade(_, _) => CreatedKeeps(s, l, s');
      case StaticPut(t) => StaticPutsKeeps(s, t, s');
      case _ => AcqKeeps(s, l, s');
    }
  }

  /** The invariant is inductive over single steps. */
  lemma InvStep(s: St, l: Label, s': St)
    requires Inv(s) && Next(s, l) == Some(s')
    ensures Inv(s')
  {
    match l {
      case Advance(_) => SamePlaces(s, s');
      case Spawn(prefer) => SpawnKeeps(s, Start(prefer), s');
      case SpawnStatic(ip) => SpawnKeeps(s, StaticCreate(ip), s');
      case Release(id, stick) => ReleasedKeeps(s, id, stick, s');
      case TickLock => TickLocksKeeps(s, s');
      case TickDispose(ok) => TickDisposesKeeps(s, ok, s');
      case TickCollect => CollectStep(s, l, s');
      case TickCreate(_) => FillStep(s, l, s');
      case TickAdd => FillStep(s, l, s');
      case TickReturn => CollectStep(s, l, s');
      case TickBegin => TickStep(s, l, s');
      case TickCheck => LookStep(s, l, s');
      case TickAny => LookStep(s, l, s');
      case TickSumIdle => LookStep(s, l, s');
      case TickSumInuse => LookStep(s, l, s');
      case TickSum => LookStep(s, l, s');
      case TickSend => TickStep(s, l, s');
      case TickPutBack => TickStep(s, l, s');
      case TickNeed => TickStep(s, l, s');
      case _ => CallerStep(s, l, s');
    }
  }

  /** The invariant holds along every run. */
  lemma {:induction false} InvRun(s: St, run: seq<Label>, s': St)
    requires Inv(s) && Exec(s, run) == Some(s')
    ensures Inv(s')
  {
    if run != [] {
      var n := |run| - 1;
      var m := Exec(s, run[..n]).value;
      InvRun(s, run[..n], m);
      InvStep(m, run[n], s');
    }
  }
}
