/**
 * The binary heap of pkg/pool/queue.go as functions on the occupied prefix of
 * the slot array, and what those functions guarantee.
 */
module Heap {
  import opened PoolTypes

  predicate Less(a: Item, b: Item) {
    a.reverse < b.reverse
  }

  function Parent(i: nat): (r: nat)
    requires i > 0
  {
    (i - 1) / 2
  }

  function Swap(s: seq<Item>, x: nat, y: nat): (r: seq<Item>)
    requires x < |s| && y < |s|
    ensures |r| == |s|
  {
    s[x := s[y]][y := s[x]]
  }

  function SiftUp(s: seq<Item>, i: nat): (r: seq<Item>)
    requires i < |s|
    ensures |r| == |s|
    decreases i
  {
    if i == 0 || !Less(s[i], s[Parent(i)]) then s
    else SiftUp(Swap(s, i, Parent(i)), Parent(i))
  }

  /** The child `bubbleDown` compares with: on a tie, the right one. */
  function MinChild(s: seq<Item>, i: nat): (c: nat)
    requires 2 * i + 1 < |s|
    ensures c < |s| && i < c && Parent(c) == i
    ensures forall k | 0 < k < |s| && Parent(k) == i :: s[c].reverse <= s[k].reverse
  {
    if 2 * i + 2 < |s| then
      if Less(s[2 * i + 1], s[2 * i + 2]) then 2 * i + 1 else 2 * i + 2
    else 2 * i + 1
  }

  function SiftDown(s: seq<Item>, i: nat): (r: seq<Item>)
    ensures |r| == |s|
    decreases |s| - i
  {
    if 2 * i + 1 >= |s| then s
    else
      var c := MinChild(s, i);
      if Less(s[c], s[i]) then SiftDown(Swap(s, i, c), c) else s
  }

  lemma {:induction false} SiftUpPermutes(s: seq<Item>, i: nat)
    requires i < |s|
    ensures multiset(SiftUp(s, i)) == multiset(s)
    decreases i
  {
    if i != 0 && Less(s[i], s[Parent(i)]) {
      SiftUpPermutes(Swap(s, i, Parent(i)), Parent(i));
    }
  }

  lemma {:induction false} SiftDownPermutes(s: seq<Item>, i: nat)
    ensures multiset(SiftDown(s, i)) == multiset(s)
    decreases |s| - i
  {
    if 2 * i + 1 < |s| {
      var c := MinChild(s, i);
      if Less(s[c], s[i]) {
        SiftDownPermutes(Swap(s, i, c), c);
      }
    }
  }

  /** What Pop and Rob do to slot i: move the last item into it and shrink. */
  function Vacate(s: seq<Item>, i: nat): (r: seq<Item>)
    requires i < |s|
    ensures |r| == |s| - 1
    ensures multiset(r) == multiset(s) - multiset{s[i]}
  {
    var n := |s| - 1;
    var t := s[i := s[n]];
    assert s[i] in s;
    assert t == t[..n] + [s[n]];
    assert multiset(t) == multiset(t[..n]) + multiset{s[n]};
    assert multiset(t) == multiset(s) - multiset{s[i]} + multiset{s[n]};
    assert multiset(t[..n]) == multiset(t) - multiset{s[n]};
    assert multiset(s) - multiset{s[i]} + multiset{s[n]} - multiset{s[n]} == multiset(s) - multiset{s[i]};
    t[..n]
  }

  function Push(s: seq<Item>, x: Item): (r: seq<Item>)
    ensures |r| == |s| + 1
    ensures multiset(r) == multiset(s) + multiset{x}
  {
    SiftUpPermutes(s + [x], |s|);
    SiftUp(s + [x], |s|)
  }

  /** The queue after Pop; the item returned is s[0]. */
  function Pop(s: seq<Item>): (r: seq<Item>)
    requires s != []
    ensures |r| == |s| - 1
    ensures multiset(r) == multiset(s) - multiset{s[0]}
  {
    RobAt(s, 0)
  }

  function RobAt(s: seq<Item>, i: nat): (r: seq<Item>)
    requires i < |s|
    ensures |r| == |s| - 1
    ensures multiset(r) == multiset(s) - multiset{s[i]}
  {
    SiftDownPermutes(Vacate(s, i), i);
    SiftDown(Vacate(s, i), i)
  }

  lemma PopMembers(s: seq<Item>)
    requires s != []
    ensures forall x | x in Pop(s) :: x in s
  {
    forall x | x in Pop(s)
      ensures x in s
    {
      assert x in multiset(Pop(s));
      assert x in multiset(s);
    }
  }

  /** The first slot holding the id, or |s|: the scan of Rob and Find. */
  function IndexOf(s: seq<Item>, id: string): (i: nat)
    ensures i <= |s|
    ensures i < |s| ==> s[i].port.id == id
    ensures forall k | 0 <= k < i :: s[k].port.id != id
  {
    if s == [] then 0
    else if s[0].port.id == id then 0
    else
      var i := IndexOf(s[1..], id);
      assert forall k | 0 <= k < 1 + i :: s[k].port.id != id;
      i + 1
  }

  lemma IndexOfIsFirst(s: seq<Item>, id: string, i: nat)
    requires i <= |s|
    requires forall k | 0 <= k < i :: s[k].port.id != id
    requires i < |s| ==> s[i].port.id == id
    ensures IndexOf(s, id) == i
  {
  }

  // ----- heap order -----

  predicate EdgeOk(s: seq<Item>, k: nat)
    requires 0 < k < |s|
  {
    s[Parent(k)].reverse <= s[k].reverse
  }

  /** Heap order at every parent/child edge except the one above slot i. */
  ghost predicate HeapExcept(s: seq<Item>, i: nat) {
    forall k | 0 < k < |s| && k != i :: EdgeOk(s, k)
  }

  ghost predicate IsHeap(s: seq<Item>) {
    forall k | 0 < k < |s| :: EdgeOk(s, k)
  }

  /** Slot i is not above its grandchildren's bound: what a hole at i must keep. */
  ghost predicate ParentCovers(s: seq<Item>, i: nat) {
    0 < i < |s| ==> forall k | 0 < k < |s| && Parent(k) == i :: s[Parent(i)].reverse <= s[k].reverse
  }

  lemma {:induction false} SiftUpRestores(s: seq<Item>, i: nat)
    requires i < |s| && HeapExcept(s, i) && ParentCovers(s, i)
    ensures IsHeap(SiftUp(s, i))
    decreases i
  {
    if i != 0 && Less(s[i], s[Parent(i)]) {
      var p := Parent(i);
      var t := Swap(s, i, p);
      forall k | 0 < k < |t| && k != p
        ensures EdgeOk(t, k)
      {
        assert k != i ==> EdgeOk(s, k);
      }
      forall k | 0 < p && 0 < k < |t| && Parent(k) == p
        ensures t[Parent(p)].reverse <= t[k].reverse
      {
        assert EdgeOk(s, p);
        assert k != i ==> EdgeOk(s, k);
      }
      SiftUpRestores(t, p);
    }
  }

  /** Would bubbleDown move the item at slot i at all? */
  predicate Sinks(s: seq<Item>, i: nat)
    requires i < |s|
  {
    2 * i + 1 < |s| && Less(s[MinChild(s, i)], s[i])
  }

  /** After one swap with the smaller child only edges touching that child's slot may be wrong. */
  lemma SunkOnce(s: seq<Item>, i: nat)
    requires forall k | 0 < k < |s| && k != i && Parent(k) != i :: EdgeOk(s, k)
    requires i < |s| && ParentCovers(s, i) && Sinks(s, i)
    ensures var c := MinChild(s, i);
            var t := Swap(s, i, c);
            && (forall k | 0 < k < |t| && k != c && Parent(k) != c :: EdgeOk(t, k))
            && ParentCovers(t, c) && EdgeOk(t, c)
            && (i > 0 ==> EdgeOk(t, i))
  {
    var c := MinChild(s, i);
    var t := Swap(s, i, c);
    forall k | 0 < k < |t| && k != c && Parent(k) != c
      ensures EdgeOk(t, k)
    {
      assert k != i && Parent(k) != i ==> EdgeOk(s, k);
    }
    forall k | 0 < k < |t| && Parent(k) == c
      ensures t[Parent(c)].reverse <= t[k].reverse
    {
      assert EdgeOk(s, k);
    }
  }

  /**
   * bubbleDown from slot i, when only edges touching i may be wrong: every
   * edge is right afterwards except possibly the one above i, and that one is
   * wrong exactly if it was wrong and the item did not sink. Slots before i
   * are untouched.
   */
  lemma {:induction false} SiftDownRestores(s: seq<Item>, i: nat)
    requires forall k | 0 < k < |s| && k != i && Parent(k) != i :: EdgeOk(s, k)
    requires ParentCovers(s, i)
    ensures HeapExcept(SiftDown(s, i), i)
    ensures forall k | 0 <= k < i && k < |s| :: SiftDown(s, i)[k] == s[k]
    ensures 0 < i < |s| ==> (EdgeOk(SiftDown(s, i), i) <==> EdgeOk(s, i) || Sinks(s, i))
    decreases |s| - i
  {
    if 2 * i + 1 < |s| {
      var c := MinChild(s, i);
      if Less(s[c], s[i]) {
        var t := Swap(s, i, c);
        SunkOnce(s, i);
        SiftDownRestores(t, c);
        hide ParentCovers, MinChild;
        var r := SiftDown(t, c);
        assert SiftDown(s, i) == r && r[i] == t[i];
        assert EdgeOk(t, c);
        forall k | 0 < k < |r| && k != i
          ensures EdgeOk(r, k)
        {
          assert k != c ==> EdgeOk(r, k);
        }
      } else {
        forall k | 0 < k < |s| && k != i
          ensures EdgeOk(s, k)
        {
          assert Parent(k) == i ==> s[c].reverse <= s[k].reverse;
        }
      }
    } else {
      forall k | 0 < k < |s| && k != i
        ensures EdgeOk(s, k)
      {
        assert Parent(k) != i;
      }
    }
  }

  lemma {:induction false} RootIsLeast(s: seq<Item>, k: nat)
    requires IsHeap(s) && k < |s|
    ensures s[0].reverse <= s[k].reverse
    decreases k
  {
    if k > 0 {
      assert EdgeOk(s, k);
      RootIsLeast(s, Parent(k));
    }
  }

  lemma RootIsLeastMember(s: seq<Item>)
    requires IsHeap(s) && s != []
    ensures forall x | x in s :: s[0].reverse <= x.reverse
  {
    forall x | x in s
      ensures s[0].reverse <= x.reverse
    {
      var k :| 0 <= k < |s| && s[k] == x;
      RootIsLeast(s, k);
    }
  }

  lemma PushKeepsHeap(s: seq<Item>, x: Item)
    requires IsHeap(s)
    ensures IsHeap(Push(s, x))
  {
    var t := s + [x];
    forall k | 0 < k < |t| && k != |s|
      ensures EdgeOk(t, k)
    {
      assert EdgeOk(s, k);
    }
    SiftUpRestores(t, |s|);
  }

  lemma PopKeepsHeap(s: seq<Item>)
    requires IsHeap(s) && s != []
    ensures IsHeap(Pop(s))
  {
    var t := Vacate(s, 0);
    forall k | 0 < k < |t| && Parent(k) != 0
      ensures EdgeOk(t, k)
    {
      assert EdgeOk(s, k);
    }
    SiftDownRestores(t, 0);
  }

  /** On a heap, Pop removes exactly one item, and one of least reservation time. */
  lemma PopTakesLeast(s: seq<Item>)
    requires IsHeap(s) && s != []
    ensures IsHeap(Pop(s))
    ensures multiset(Pop(s)) + multiset{s[0]} == multiset(s)
    ensures forall y | y in multiset(Pop(s)) :: s[0].reverse <= y.reverse
  {
    PopKeepsHeap(s);
    RootIsLeastMember(s);
    assert s[0] in s;
    forall y: Item | y in multiset(Pop(s))
      ensures s[0].reverse <= y.reverse
    {
      assert y in multiset(s);
    }
  }

  // ----- runs of Push and Pop -----

  datatype Op = PushOp(x: Item) | PopOp

  datatype Ran = Ran(queue: seq<Item>, popped: seq<Item>)

  /** The array heap after a run that starts from an empty queue. */
  function Run(ops: seq<Op>): (r: Ran) {
    if ops == [] then Ran([], [])
    else
      var n := |ops| - 1;
      var r := Run(ops[..n]);
      match ops[n]
      case PushOp(x) => Ran(Push(r.queue, x), r.popped)
      case PopOp => if r.queue == [] then r else Ran(Pop(r.queue), r.popped + [r.queue[0]])
  }

  /**
   * The specification: a bag from which each Pop takes some item of least
   * reservation time, or does nothing when the bag is empty.
   */
  ghost predicate BagRun(ops: seq<Op>, bag: multiset<Item>, popped: seq<Item>) {
    if ops == [] then bag == multiset{} && popped == []
    else
      var n := |ops| - 1;
      match ops[n]
      case PushOp(x) => x in bag && BagRun(ops[..n], bag - multiset{x}, popped)
      case PopOp =>
        (bag == multiset{} && BagRun(ops[..n], bag, popped))
        || (popped != []
            && (forall y | y in bag :: popped[|popped| - 1].reverse <= y.reverse)
            && BagRun(ops[..n], bag + multiset{popped[|popped| - 1]}, popped[..|popped| - 1]))
  }

  lemma BagRunPush(ops: seq<Op>, x: Item, bag: multiset<Item>, popped: seq<Item>)
    requires BagRun(ops, bag, popped)
    ensures BagRun(ops + [PushOp(x)], bag + multiset{x}, popped)
  {
    var more := ops + [PushOp(x)];
    assert more[..|more| - 1] == ops;
    assert bag + multiset{x} - multiset{x} == bag;
  }

  lemma BagRunPop(ops: seq<Op>, x: Item, bag: multiset<Item>, popped: seq<Item>)
    requires BagRun(ops, bag + multiset{x}, popped)
    requires forall y | y in bag :: x.reverse <= y.reverse
    ensures BagRun(ops + [PopOp], bag, popped + [x])
  {
    var more := ops + [PopOp];
    var out := popped + [x];
    assert more[..|more| - 1] == ops;
    assert out[..|out| - 1] == popped;
  }

  /** Every run of Push and Pop keeps heap order and is a run of the bag. */
  lemma {:induction false} RunRefinesBag(ops: seq<Op>)
    ensures IsHeap(Run(ops).queue)
    ensures BagRun(ops, multiset(Run(ops).queue), Run(ops).popped)
  {
    if ops != [] {
      var n := |ops| - 1;
      var r := Run(ops[..n]);
      RunRefinesBag(ops[..n]);
      assert ops[..n] + [ops[n]] == ops;
      match ops[n] {
        case PushOp(x) =>
          PushKeepsHeap(r.queue, x);
          BagRunPush(ops[..n], x, multiset(r.queue), r.popped);
        case PopOp =>
          if r.queue != [] {
            PopTakesLeast(r.queue);
            BagRunPop(ops[..n], r.queue[0], multiset(Pop(r.queue)), r.popped);
          }
      }
    }
  }

  /** Pop until empty. */
  function Drain(s: seq<Item>): (r: seq<Item>)
    decreases |s|
  {
    if s == [] then [] else [s[0]] + Drain(Pop(s))
  }

  ghost predicate Sorted(d: seq<Item>) {
    forall i, j | 0 <= i < j < |d| :: d[i].reverse <= d[j].reverse
  }

  lemma LeastFirst(x: Item, d: seq<Item>)
    requires Sorted(d) && forall y | y in multiset(d) :: x.reverse <= y.reverse
    ensures Sorted([x] + d) && multiset([x] + d) == multiset{x} + multiset(d)
  {
    forall j | 0 <= j < |d|
      ensures x.reverse <= d[j].reverse
    {
      assert d[j] in multiset(d);
    }
  }

  lemma {:induction false} DrainSorts(s: seq<Item>)
    requires IsHeap(s)
    ensures multiset(Drain(s)) == multiset(s)
    ensures Sorted(Drain(s))
    decreases |s|
  {
    if s != [] {
      PopTakesLeast(s);
      hide IsHeap, Pop, Sorted;
      DrainSorts(Pop(s));
      LeastFirst(s[0], Drain(Pop(s)));
    } else {
      assert Sorted([]);
    }
  }
}
