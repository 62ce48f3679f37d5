/**
 * Rob removes an item by id but only sifts down (pkg/pool/queue.go:152-164).
 * What that keeps of the heap, and exactly when it keeps all of it.
 */
module RobHeap {
  import opened PoolTypes
  import opened Heap

  /** When does the moved item fit under the parent of the vacated slot? */
  predicate LastFits(s: seq<Item>, i: nat)
    requires i < |s|
  {
    i == 0 || i == |s| - 1 || s[Parent(i)].reverse <= s[|s| - 1].reverse
  }

  lemma VacateNearlyHeap(s: seq<Item>, i: nat)
    requires IsHeap(s) && i < |s|
    ensures var t := Vacate(s, i);
            && (forall k | 0 < k < |t| && k != i && Parent(k) != i :: EdgeOk(t, k))
            && ParentCovers(t, i)
  {
    var t := Vacate(s, i);
    forall k | 0 < k < |t| && k != i && Parent(k) != i
      ensures EdgeOk(t, k)
    {
      assert EdgeOk(s, k);
    }
    forall k | 0 < i && 0 < k < |t| && Parent(k) == i
      ensures t[Parent(i)].reverse <= t[k].reverse
    {
      assert EdgeOk(s, i) && EdgeOk(s, k);
    }
  }

  /**
   * On a heap, Rob at slot i keeps the rest of the bag, keeps heap order at
   * every edge but the one above i, and leaves a least item in slot 0. It keeps
   * heap order altogether exactly when the last item fits under i's parent.
   */
  lemma RobOnHeap(s: seq<Item>, i: nat)
    requires IsHeap(s) && i < |s|
    ensures multiset(RobAt(s, i)) + multiset{s[i]} == multiset(s)
    ensures HeapExcept(RobAt(s, i), i)
    ensures IsHeap(RobAt(s, i)) <==> LastFits(s, i)
  {
    var t := Vacate(s, i);
    VacateNearlyHeap(s, i);
    SiftDownRestores(t, i);
    assert s[i] in s;
    if 0 < i < |s| - 1 {
      VacatedEdge(s, i);
    }
    hide Vacate, SiftDown, EdgeOk, Sinks;
    assert IsHeap(SiftDown(t, i)) <==> !(0 < i < |t|) || EdgeOk(SiftDown(t, i), i);
  }

  /** The edge above the vacated slot is right, or gets right as the moved item sinks, exactly if that item fits. */
  lemma VacatedEdge(s: seq<Item>, i: nat)
    requires IsHeap(s) && 0 < i < |s| - 1
    ensures EdgeOk(Vacate(s, i), i) || Sinks(Vacate(s, i), i) <==> LastFits(s, i)
  {
    var t := Vacate(s, i);
    if Sinks(t, i) {
      var c := MinChild(t, i);
      assert EdgeOk(s, c) && EdgeOk(s, i);
    }
  }

  lemma RobKeepsLeast(s: seq<Item>, i: nat)
    requires IsHeap(s) && i < |s|
    ensures forall x | x in RobAt(s, i) :: RobAt(s, i)[0].reverse <= x.reverse
  {
    var r := RobAt(s, i);
    RobOnHeap(s, i);
    if i == 0 || r == [] {
      if r != [] {
        RootIsLeastMember(r);
      }
    } else {
      VacateNearlyHeap(s, i);
      SiftDownRestores(Vacate(s, i), i);
      assert r[0] == s[0];
      RootIsLeastMember(s);
      forall x | x in r
        ensures r[0].reverse <= x.reverse
      {
        assert x in multiset(r);
        assert x in multiset(s);
      }
    }
  }

  /** The bubbleUp that Rob leaves out would repair the one edge. */
  lemma OneSiftUpRepairs(s: seq<Item>, i: nat)
    requires IsHeap(s) && i < |s| - 1
    ensures IsHeap(SiftUp(RobAt(s, i), i))
  {
    var t := Vacate(s, i);
    var r := RobAt(s, i);
    RobOnHeap(s, i);
    VacateNearlyHeap(s, i);
    SiftDownRestores(t, i);
    if i > 0 {
      forall k | 0 < k < |r| && Parent(k) == i
        ensures r[Parent(i)].reverse <= r[k].reverse
      {
        assert EdgeOk(r, k);
        if Sinks(t, i) {
          assert EdgeOk(r, i);
        } else {
          assert r == t;
        }
      }
    }
    SiftUpRestores(r, i);
  }

  // ----- which slots are safe whatever the items -----

  predicate IsAncestor(a: nat, k: nat) {
    a == k || (k > 0 && IsAncestor(a, Parent(k)))
  }

  lemma {:induction false} AncestorIsLess(s: seq<Item>, a: nat, k: nat)
    requires IsHeap(s) && k < |s| && IsAncestor(a, k)
    ensures a <= k && s[a].reverse <= s[k].reverse
  {
    if a != k {
      assert EdgeOk(s, k);
      AncestorIsLess(s, a, Parent(k));
    }
  }

  /** n items with distinct ids, reserved to 1 below slot a and to 0 elsewhere. */
  function Tilted(n: nat, a: nat): (s: seq<Item>)
    ensures |s| == n
  {
    seq(n, (j: nat) => Item(Port(seq(j, _ => 'p'), ""), if IsAncestor(a, j) then 1 else 0))
  }

  lemma TiltedIsHeap(n: nat, a: nat)
    ensures IsHeap(Tilted(n, a))
    ensures forall i, j | 0 <= i < j < n :: Tilted(n, a)[i].port.id != Tilted(n, a)[j].port.id
  {
    var s := Tilted(n, a);
    forall i, j | 0 <= i < j < n
      ensures s[i].port.id != s[j].port.id
    {
      assert |s[i].port.id| == i && |s[j].port.id| == j;
    }
  }

  ghost predicate DistinctIds(s: seq<Item>) {
    forall i, j | 0 <= i < j < |s| :: s[i].port.id != s[j].port.id
  }

  /** Robbing slot i is harmless in every heap of n items with distinct ids. */
  ghost predicate SafeSlot(n: nat, i: nat) {
    forall s: seq<Item> | |s| == n && i < n && IsHeap(s) && DistinctIds(s) ::
      IsHeap(RobAt(s, i))
  }

  /** Exactly the slots whose parent is an ancestor of the last slot are safe. */
  lemma SafeSlotExactly(n: nat, i: nat)
    requires 0 < i < n
    ensures SafeSlot(n, i) <==> IsAncestor(Parent(i), n - 1)
  {
    var a := Parent(i);
    if IsAncestor(a, n - 1) {
      forall s: seq<Item> | |s| == n && IsHeap(s) && DistinctIds(s)
        ensures IsHeap(RobAt(s, i))
      {
        AncestorIsLess(s, a, n - 1);
        RobOnHeap(s, i);
      }
    } else {
      TiltedBreaks(n, i);
    }
  }

  lemma TiltedBreaks(n: nat, i: nat)
    requires 0 < i < n && !IsAncestor(Parent(i), n - 1)
    ensures !SafeSlot(n, i)
  {
    var s := Tilted(n, Parent(i));
    TiltedIsHeap(n, Parent(i));
    assert s[Parent(i)].reverse == 1 && s[n - 1].reverse == 0;
    hide IsHeap, RobAt, Tilted;
    RobOnHeap(s, i);
    assert !IsHeap(RobAt(s, i));
  }

  lemma {:induction false} ZeroIsAncestor(k: nat)
    ensures IsAncestor(0, k)
  {
    if k > 0 {
      ZeroIsAncestor(Parent(k));
    }
  }

  lemma {:induction false} NotBelowBoth(k: nat)
    ensures !(IsAncestor(1, k) && IsAncestor(2, k))
  {
    if k > 2 {
      NotBelowBoth(Parent(k));
    }
  }

  /** Every Rob on a heap of n items is harmless exactly when n is at most 5. */
  lemma SafeSizeExactly(n: nat)
    ensures (forall i | 0 <= i < n :: SafeSlot(n, i)) <==> n <= 5
  {
    if n <= 5 {
      forall i | 0 <= i < n
        ensures SafeSlot(n, i)
      {
        if i == 0 {
          forall s: seq<Item> | |s| == n && IsHeap(s) && DistinctIds(s)
            ensures IsHeap(RobAt(s, i))
          {
            RobOnHeap(s, i);
          }
        } else {
          ZeroIsAncestor(n - 1);
          if i >= 3 {
            assert Parent(i) == 1 && Parent(n - 1) == 1;
            assert IsAncestor(1, Parent(n - 1));
          }
          SafeSlotExactly(n, i);
        }
      }
    } else {
      NotBelowBoth(n - 1);
      var i := if IsAncestor(1, n - 1) then 5 else 3;
      assert Parent(5) == 2 && Parent(3) == 1;
      SafeSlotExactly(n, i);
    }
  }
}
