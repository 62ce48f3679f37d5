/** `PriorityQueue` of pkg/pool/queue.go: the heap in a slot array that doubles when full. */
module PriorityQueues {
  import opened PoolTypes
  import Heap
  import HeapCost

  class PriorityQueue {
    var slots: array<Item>
    var size: nat
    var capacity: nat

    ghost predicate Shaped()
      reads this
    {
      size <= capacity && slots.Length == capacity
    }

    /** Between calls there is always a free slot: Push doubles the array as soon as it is full. */
    ghost predicate Valid()
      reads this
    {
      Shaped() && size < capacity
    }

    /** The occupied prefix of the slots: what `List` returns. */
    function Contents(): (s: seq<Item>)
      requires Shaped()
      reads this, slots
      ensures |s| == size
    {
      slots[..size]
    }

    constructor ()
      ensures Valid() && fresh(slots)
      ensures Contents() == []
    {
      capacity := 10;
      size := 0;
      slots := new Item[10];
    }

    method Pop() returns (popped: Option<Item>)
      requires Valid()
      modifies this, slots
      ensures Valid() && slots == old(slots)
      ensures old(Contents()) == [] ==> popped == None && Contents() == []
      ensures old(Contents()) != [] ==>
                popped == Some(old(Contents())[0]) && Contents() == Heap.Pop(old(Contents()))
    {
      if size == 0 {
        return None;
      }
      popped := Some(slots[0]);
      TakeSlot(0);
    }

    method BubbleUp(start: nat) returns (ghost swaps: nat)
      requires Shaped() && start < size
      modifies slots
      ensures Contents() == Heap.SiftUp(old(Contents()), start)
      ensures swaps == HeapCost.UpSwaps(old(Contents()), start)
    {
      var index := start;
      swaps := 0;
      while index > 0
        invariant 0 <= index < size
        invariant Heap.SiftUp(Contents(), index) == Heap.SiftUp(old(Contents()), start)
        invariant swaps + HeapCost.UpSwaps(Contents(), index) == HeapCost.UpSwaps(old(Contents()), start)
      {
        var parent := (index - 1) / 2;
        if !Heap.Less(slots[index], slots[parent]) {
          break;
        }
        ghost var before := Contents();
        SwapSlots(index, parent);
        assert Contents() == Heap.Swap(before, index, parent);
        swaps := swaps + 1;
        index := parent;
      }
    }

    method SwapSlots(x: nat, y: nat)
      requires Shaped() && x < size && y < size
      modifies slots
      ensures Contents() == Heap.Swap(old(Contents()), x, y)
    {
      var tmp := slots[x];
      slots[x] := slots[y];
      slots[y] := tmp;
    }

    method BubbleDown(start: nat) returns (ghost swaps: nat)
      requires Valid()
      modifies slots
      ensures Contents() == Heap.SiftDown(old(Contents()), start)
      ensures swaps == HeapCost.DownSwaps(old(Contents()), start)
    {
      var index := start;
      swaps := 0;
      ghost var first := Contents();
      ghost var now := first;
      while index < size
        invariant now == Contents()
        invariant Heap.SiftDown(now, index) == Heap.SiftDown(first, start)
        invariant swaps + HeapCost.DownSwaps(now, index) == HeapCost.DownSwaps(first, start)
        decreases size - index
      {
        var left := index * 2 + 1;
        var right := index * 2 + 2;
        var minChild;
        if left < size && right < size {
          if Heap.Less(slots[left], slots[right]) {
            minChild := left;
          } else {
            minChild := right;
          }
        } else if left < size {
          minChild := left;
        } else {
          // The right child has the larger index, so neither child exists.
          break;
        }
        assert minChild == Heap.MinChild(now, index);
        if !Heap.Less(slots[minChild], slots[index]) {
          break;
        }
        SwapSlots(index, minChild);
        now := Heap.Swap(now, index, minChild);
        swaps := swaps + 1;
        index := minChild;
      }
    }

    method Peek() returns (first: Option<Item>)
      requires Valid()
      ensures first == if Contents() == [] then None else Some(Contents()[0])
    {
      if size == 0 {
        return None;
      }
      return Some(slots[0]);
    }

    /** Move the last item into slot i, shrink, and sift down: how Pop and Rob end. */
    method TakeSlot(i: nat)
      requires Valid() && i < size
      modifies this, slots
      ensures Valid() && slots == old(slots)
      ensures Contents() == Heap.RobAt(old(Contents()), i)
    {
      ghost var before := Contents();
      slots[i] := slots[size - 1];
      size := size - 1;
      assert Contents() == Heap.Vacate(before, i);
      var _ := BubbleDown(i);
    }

    method Rob(id: string) returns (robbed: Option<Item>)
      requires Valid()
      modifies this, slots
      ensures Valid() && slots == old(slots)
      ensures var q := old(Contents());
              var i := Heap.IndexOf(q, id);
              if i < |q| then robbed == Some(q[i]) && Contents() == Heap.RobAt(q, i)
              else robbed == None && Contents() == q
    {
      ghost var q := Contents();
      for i := 0 to size
        invariant Valid() && size == |q| && slots == old(slots) && Contents() == q
        invariant forall k | 0 <= k < i :: q[k].port.id != id
      {
        var item := slots[i];
        assert item == q[i];
        if item.port.id == id {
          Heap.IndexOfIsFirst(q, id, i);
          TakeSlot(i);
          return Some(item);
        }
      }
      Heap.IndexOfIsFirst(q, id, size);
      return None;
    }

    method Find(id: string) returns (found: Option<Item>)
      requires Valid()
      ensures var q := Contents();
              var i := Heap.IndexOf(q, id);
              found == if i < |q| then Some(q[i]) else None
    {
      ghost var q := Contents();
      for i := 0 to size
        invariant forall k | 0 <= k < i :: q[k].port.id != id
      {
        assert slots[i] == q[i];
        if slots[i].port.id == id {
          Heap.IndexOfIsFirst(q, id, i);
          return Some(slots[i]);
        }
      }
      Heap.IndexOfIsFirst(q, id, size);
      return None;
    }

    method Push(item: Item)
      requires Valid()
      modifies this, slots
      ensures Valid() && (slots == old(slots) || fresh(slots))
      ensures Contents() == Heap.Push(old(Contents()), item)
    {
      ghost var before := Contents();
      slots[size] := item;
      size := size + 1;
      assert Contents() == before + [item];
      var _ := BubbleUp(size - 1);
      if size >= capacity {
        Grow();
      }
    }

    /** `capacity *= 2` and the copy into the new array. */
    method Grow()
      requires Shaped() && size == capacity && capacity > 0
      modifies this
      ensures Valid() && fresh(slots) && size == old(size)
      ensures Contents() == old(Contents())
    {
      var newSlots := new Item[capacity * 2];
      forall k | 0 <= k < slots.Length {
        newSlots[k] := slots[k];
      }
      assert newSlots[..size] == Contents();
      capacity := capacity * 2;
      slots := newSlots;
    }
  }
}
