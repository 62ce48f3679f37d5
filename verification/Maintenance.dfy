/**
 * Where the ticker's two loops lead an undisturbed pool when Neutron does not
 * fail and no reservation is pending: how many ports stay, which ones go, and
 * that the result is a fixpoint.
 */
module Maintenance {
  import opened PoolTypes
  import Heap

  /** How checkIdle is left; in the last two cases it never returns control of what it holds. */
  datatype Exit = Finished | LockKept | SendBlocked

  predicate TooMany(idle: nat, inuse: nat, maxIdle: int, capacity: nat) {
    idle > maxIdle || (idle > 0 && idle + inuse > capacity)
  }

  /** How many idle ports checkIdle means to leave. */
  function IdleTarget(idle: nat, inuse: nat, maxIdle: int, capacity: nat): (n: nat)
    ensures n <= idle
  {
    Min(idle, Max(0, Min(maxIdle, capacity - inuse)))
  }

  lemma TooManyExactly(idle: nat, inuse: nat, maxIdle: int, capacity: nat)
    ensures idle > 0 ==> (TooMany(idle, inuse, maxIdle, capacity) <==> IdleTarget(idle, inuse, maxIdle, capacity) < idle)
    ensures idle > 0 && TooMany(idle, inuse, maxIdle, capacity) ==>
              IdleTarget(idle, inuse, maxIdle, capacity) == IdleTarget(idle - 1, inuse, maxIdle, capacity)
    ensures TooMany(0, inuse, maxIdle, capacity) <==> maxIdle < 0
  {
  }

  /** The size and exit of checkIdle started on `idle` ports. */
  ghost predicate LeavesTarget(idle: nat, inuse: nat, maxIdle: int, capacity: nat, room: nat, left: nat, exit: Exit) {
    var n := IdleTarget(idle, inuse, maxIdle, capacity);
    if idle - n <= room
    then left == n && exit == (if maxIdle >= 0 then Finished else LockKept)
    else left == idle - room - 1 && exit == SendBlocked
  }

  /** The loop of checkIdle on the number of idle ports, with `room` free places in tokenCh. */
  function LoopSize(idle: nat, inuse: nat, maxIdle: int, capacity: nat, room: nat): (r: (nat, Exit)) {
    if !TooMany(idle, inuse, maxIdle, capacity) then (idle, Finished)
    else if idle == 0 then (0, LockKept)
    else if room == 0 then (idle - 1, SendBlocked)
    else LoopSize(idle - 1, inuse, maxIdle, capacity, room - 1)
  }

  /**
   * checkIdle leaves exactly min(idle, max(0, min(maxIdle, capacity - inuse)))
   * ports, if tokenCh has room for the rest. Otherwise it blocks on the first
   * send without room. With room it finishes exactly when maxIdle is not
   * negative, else it ends on the empty queue with the lock kept.
   */
  lemma {:induction false} LoopSizeTarget(idle: nat, inuse: nat, maxIdle: int, capacity: nat, room: nat)
    ensures var (left, exit) := LoopSize(idle, inuse, maxIdle, capacity, room);
            LeavesTarget(idle, inuse, maxIdle, capacity, room, left, exit)
  {
    TooManyExactly(idle, inuse, maxIdle, capacity);
    if TooMany(idle, inuse, maxIdle, capacity) && idle > 0 && room > 0 {
      LoopSizeTarget(idle - 1, inuse, maxIdle, capacity, room - 1);
    }
  }

  /** What went from the bag had reservations no later than anything that stayed. */
  ghost predicate EarliestWent(all: multiset<Item>, rest: multiset<Item>) {
    rest <= all && forall x, y | x in all - rest && y in rest :: x.reverse <= y.reverse
  }

  /** From a heap, some items of earliest reservation went and a heap is left. */
  ghost predicate TookEarliest(q: seq<Item>, r: seq<Item>) {
    Heap.IsHeap(q) ==> Heap.IsHeap(r) && EarliestWent(multiset(q), multiset(r))
  }

  lemma PopTakesEarliest(q: seq<Item>)
    requires q != []
    ensures TookEarliest(q, Heap.Pop(q))
  {
    if Heap.IsHeap(q) {
      Heap.PopTakesLeast(q);
      assert multiset(q) - multiset(Heap.Pop(q)) == multiset{q[0]};
    }
  }

  lemma TakingNothing(q: seq<Item>)
    ensures TookEarliest(q, q)
  {
  }

  lemma TakingEarliestComposes(a: seq<Item>, b: seq<Item>, c: seq<Item>)
    requires TookEarliest(a, b) && TookEarliest(b, c)
    ensures TookEarliest(a, c)
  {
    if Heap.IsHeap(a) {
      var p, q, r := multiset(a), multiset(b), multiset(c);
      forall x, y | x in p - r && y in r
        ensures x.reverse <= y.reverse
      {
        assert y in q;
        if x !in p - q {
          assert x in q - r;
        }
      }
    }
  }

  /** Between the turns of an undisturbed loop that began with the queue q0. */
  ghost predicate OnCourse(q0: seq<Item>, tokens0: nat, q: seq<Item>, tokens: nat, inuse: nat, maxIdle: int,
                           capacity: nat) {
    && tokens0 <= capacity && tokens <= capacity && tokens + |q| == tokens0 + |q0|
    && LoopSize(|q|, inuse, maxIdle, capacity, capacity - tokens)
       == LoopSize(|q0|, inuse, maxIdle, capacity, capacity - tokens0)
    && TookEarliest(q0, q)
  }

  /** After the loop: as many ports as meant, the earliest ones gone, a token for each unless the last send waits. */
  ghost predicate Arrived(q0: seq<Item>, tokens0: nat, q: seq<Item>, tokens: nat, inuse: nat, maxIdle: int,
                          capacity: nat, exit: Exit) {
    && tokens0 <= capacity
    && LeavesTarget(|q0|, inuse, maxIdle, capacity, capacity - tokens0, |q|, exit)
    && TookEarliest(q0, q)
    && tokens + |q| + (if exit == SendBlocked then 1 else 0) == tokens0 + |q0|
  }

  /** What one undisturbed turn does. */
  ghost predicate OneTurn(q: seq<Item>, tokens: nat, r: seq<Item>, tokens': nat, capacity: nat, exit: Exit) {
    && TookEarliest(q, r)
    && if q == [] then exit == LockKept && r == [] && tokens' == tokens
       else |r| == |q| - 1
            && if tokens < capacity then exit == Finished && tokens' == tokens + 1
               else exit == SendBlocked && tokens' == tokens
  }

  /**
   * What becomes of a port that checkIdle has popped, leaving the queue `rest`:
   * Dispose removes it from the cloud and a token goes in if there is room, or
   * Dispose fails and the port goes back, reserved for nobody.
   */
  ghost predicate Disposal(port: Port, rest: seq<Item>, tokens: nat, capacity: nat, cloud: map<string, Port>,
                           faults: nat, now: int, rest': seq<Item>, tokens': nat, cloud': map<string, Port>,
                           faults': nat, exit: Exit) {
    if faults' == faults then
      && rest' == rest && cloud' == cloud - {port.id}
      && (if tokens < capacity then exit == Finished && tokens' == tokens + 1
          else exit == SendBlocked && tokens' == tokens)
    else
      && exit == Finished && faults' == faults - 1
      && rest' == Heap.Push(rest, Item(port, now)) && tokens' == tokens && cloud' == cloud
  }

  /**
   * The sizes after checkIdle, faults and reservations or not: the target if it
   * finishes, never less, and a token for each port that went.
   */
  ghost predicate Shrunk(idle0: nat, tokens0: nat, idle: nat, tokens: nat, inuse: nat, maxIdle: int, capacity: nat,
                         exit: Exit) {
    var n, unsent := IdleTarget(idle0, inuse, maxIdle, capacity), if exit == SendBlocked then 1 else 0;
    && n <= idle + unsent && idle <= idle0 && tokens + idle + unsent == tokens0 + idle0
    && (exit == Finished ==> idle == n)
    && (exit == SendBlocked ==> tokens == capacity)
  }

  /** The same between two turns of the loop. */
  ghost predicate Shrinking(idle0: nat, tokens0: nat, idle: nat, tokens: nat, inuse: nat, maxIdle: int,
                            capacity: nat) {
    && idle <= idle0 && tokens + idle == tokens0 + idle0
    && IdleTarget(idle, inuse, maxIdle, capacity) == IdleTarget(idle0, inuse, maxIdle, capacity)
  }

  lemma ShrinkingTurn(idle0: nat, tokens0: nat, q: seq<Item>, tokens: nat, inuse: nat, maxIdle: int, capacity: nat,
                      cloud: map<string, Port>, faults: nat, now: int, q': seq<Item>, tokens': nat,
                      cloud': map<string, Port>, faults': nat, exit: Exit)
    requires Shrinking(idle0, tokens0, |q|, tokens, inuse, maxIdle, capacity) && tokens <= capacity
    requires TooMany(|q|, inuse, maxIdle, capacity)
    requires if exit == LockKept then q' == q && tokens' == tokens && faults' == faults
             else q != [] && Disposal(q[0].port, Heap.Pop(q), tokens, capacity, cloud, faults, now,
                                      q', tokens', cloud', faults', exit)
    ensures faults' <= faults
    ensures if exit == Finished
            then Shrinking(idle0, tokens0, |q'|, tokens', inuse, maxIdle, capacity)
                 && (faults' < faults || (faults' == faults && |q'| < |q|))
            else Shrunk(idle0, tokens0, |q'|, tokens', inuse, maxIdle, capacity, exit)
  {
    TooManyExactly(|q|, inuse, maxIdle, capacity);
  }

  lemma ShrinkingEnds(idle0: nat, tokens0: nat, idle: nat, tokens: nat, inuse: nat, maxIdle: int, capacity: nat)
    requires Shrinking(idle0, tokens0, idle, tokens, inuse, maxIdle, capacity)
    requires !TooMany(idle, inuse, maxIdle, capacity)
    ensures Shrunk(idle0, tokens0, idle, tokens, inuse, maxIdle, capacity, Finished)
  {
    TooManyExactly(idle, inuse, maxIdle, capacity);
  }

  /** The sizes after a whole tick that finishes: what is missing from the target failed to be created. */
  ghost predicate Refilled(idle0: nat, tokens0: nat, idle: nat, tokens: nat, inuse: nat, minIdle: int, maxIdle: int,
                           capacity: nat, failed: nat) {
    var n := IdleTarget(idle0, inuse, maxIdle, capacity);
    var all := n + Max(0, Min(Addition(n, inuse, minIdle, capacity), tokens0 + idle0 - n));
    tokens + idle == tokens0 + idle0 && idle <= all <= idle + failed
  }

  lemma ShrunkAndRefilled(idle0: nat, tokens0: nat, idle1: nat, tokens1: nat, idle: nat, tokens: nat, inuse: nat,
                          minIdle: int, maxIdle: int, capacity: nat, failed1: nat, failed: nat)
    requires Shrunk(idle0, tokens0, idle1, tokens1, inuse, maxIdle, capacity, Finished)
    requires tokens + idle == tokens1 + idle1 && failed1 <= failed
    requires idle + failed1 == idle1 + Max(0, Min(Addition(idle1, inuse, minIdle, capacity), tokens1))
    ensures Refilled(idle0, tokens0, idle, tokens, inuse, minIdle, maxIdle, capacity, failed)
  {
  }

  lemma CourseBegins(q: seq<Item>, tokens: nat, inuse: nat, maxIdle: int, capacity: nat)
    requires tokens <= capacity
    ensures OnCourse(q, tokens, q, tokens, inuse, maxIdle, capacity)
  {
    TakingNothing(q);
  }

  lemma TurnOnCourse(q0: seq<Item>, tokens0: nat, q: seq<Item>, tokens: nat, r: seq<Item>, tokens': nat,
                     inuse: nat, maxIdle: int, capacity: nat, exit: Exit)
    requires OnCourse(q0, tokens0, q, tokens, inuse, maxIdle, capacity) && TooMany(|q|, inuse, maxIdle, capacity)
    requires OneTurn(q, tokens, r, tokens', capacity, exit)
    ensures if exit == Finished then OnCourse(q0, tokens0, r, tokens', inuse, maxIdle, capacity)
            else Arrived(q0, tokens0, r, tokens', inuse, maxIdle, capacity, exit)
  {
    LoopSizeTarget(|q0|, inuse, maxIdle, capacity, capacity - tokens0);
    TakingEarliestComposes(q0, q, r);
  }

  lemma CourseEnds(q0: seq<Item>, tokens0: nat, q: seq<Item>, tokens: nat, inuse: nat, maxIdle: int, capacity: nat)
    requires OnCourse(q0, tokens0, q, tokens, inuse, maxIdle, capacity) && !TooMany(|q|, inuse, maxIdle, capacity)
    ensures Arrived(q0, tokens0, q, tokens, inuse, maxIdle, capacity, Finished)
  {
    LoopSizeTarget(|q0|, inuse, maxIdle, capacity, capacity - tokens0);
  }

  /** What checkInsufficient asks for. */
  function Addition(idle: nat, inuse: nat, minIdle: int, capacity: nat): (r: int) {
    Min(minIdle - idle, capacity - (idle + inuse))
  }

  /** The idle ports after a whole tick. */
  function TickTarget(idle: nat, inuse: nat, minIdle: int, maxIdle: int, capacity: nat): (r: nat) {
    Max(IdleTarget(idle, inuse, maxIdle, capacity), Min(minIdle, capacity - inuse))
  }

  /**
   * The tick is a fixpoint: adding what checkInsufficient asks for after
   * checkIdle gives the target, and at the target neither loop does anything.
   */
  lemma TickTargetIsFixpoint(idle: nat, inuse: nat, minIdle: int, maxIdle: int, capacity: nat)
    requires minIdle <= maxIdle && maxIdle >= 0
    ensures var n := IdleTarget(idle, inuse, maxIdle, capacity);
            var m := TickTarget(idle, inuse, minIdle, maxIdle, capacity);
            && m == n + Max(0, Addition(n, inuse, minIdle, capacity))
            && !TooMany(m, inuse, maxIdle, capacity)
            && Addition(m, inuse, minIdle, capacity) <= 0
            && TickTarget(m, inuse, minIdle, maxIdle, capacity) == m
            && (idle + inuse <= capacity ==> m == Max(Min(idle, maxIdle), Min(minIdle, capacity - inuse)))
  {
  }

  /** Enough tokens for what the tick may create, enough room for what it returns. */
  predicate TokensSuffice(idle: nat, inuse: nat, tokens: nat, maxIdle: int, capacity: nat) {
    && tokens + idle + inuse >= capacity
    && tokens + idle - IdleTarget(idle, inuse, maxIdle, capacity) <= capacity
  }

  lemma TickReachesTarget(idle: nat, inuse: nat, tokens: nat, minIdle: int, maxIdle: int, capacity: nat,
                          left: nat, exit: Exit, after: nat)
    requires minIdle <= maxIdle && maxIdle >= 0 && tokens <= capacity
    requires TokensSuffice(idle, inuse, tokens, maxIdle, capacity)
    requires LeavesTarget(idle, inuse, maxIdle, capacity, capacity - tokens, left, exit)
    ensures exit == Finished && left <= idle
    ensures after == left + Max(0, Min(Addition(left, inuse, minIdle, capacity), tokens + idle - left)) ==>
              after == TickTarget(idle, inuse, minIdle, maxIdle, capacity)
              && !TooMany(after, inuse, maxIdle, capacity)
              && Addition(after, inuse, minIdle, capacity) <= 0
  {
    TickTargetIsFixpoint(idle, inuse, minIdle, maxIdle, capacity);
  }

  /** At the target size neither loop acts. */
  lemma TargetIsQuiet(idle: nat, inuse: nat, minIdle: int, maxIdle: int, capacity: nat)
    requires minIdle <= maxIdle && maxIdle >= 0
    requires idle == TickTarget(idle, inuse, minIdle, maxIdle, capacity)
    ensures !TooMany(idle, inuse, maxIdle, capacity) && Addition(idle, inuse, minIdle, capacity) <= 0
  {
    TickTargetIsFixpoint(idle, inuse, minIdle, maxIdle, capacity);
  }

  /** What a tick leaves is a target, and there are tokens for another tick. */
  lemma ReadyAgain(idle: nat, inuse: nat, tokens: nat, minIdle: int, maxIdle: int, capacity: nat, after: nat, left: nat)
    requires minIdle <= maxIdle && maxIdle >= 0 && left <= capacity
    requires TokensSuffice(idle, inuse, tokens, maxIdle, capacity)
    requires after == TickTarget(idle, inuse, minIdle, maxIdle, capacity) && left + after == tokens + idle
    ensures TokensSuffice(after, inuse, left, maxIdle, capacity)
    ensures after == TickTarget(after, inuse, minIdle, maxIdle, capacity)
  {
    TickTargetIsFixpoint(idle, inuse, minIdle, maxIdle, capacity);
  }

  /** A port added now keeps every reservation over. */
  lemma NoneReserved(q: seq<Item>, x: Item, now: int)
    ensures (forall y | y in q :: y.reverse <= now) && x.reverse >= now ==>
              forall y | y in Heap.Push(q, x) :: y.reverse <= x.reverse
  {
    forall y | y in Heap.Push(q, x)
      ensures y in q || y == x
    {
      assert y in multiset(Heap.Push(q, x));
      assert multiset(q + [x]) == multiset(q) + multiset{x};
    }
  }
}
