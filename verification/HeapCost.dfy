/** How many swaps the two sift loops make: at most the depth of the heap. */
module HeapCost {
  import opened PoolTypes
  import opened Heap

  function Pow2(n: nat): (p: nat)
    ensures p > 0
  {
    if n == 0 then 1 else 2 * Pow2(n - 1)
  }

  function UpSwaps(s: seq<Item>, i: nat): (r: nat)
    requires i < |s|
    decreases i
  {
    if i == 0 || !Less(s[i], s[Parent(i)]) then 0
    else 1 + UpSwaps(Swap(s, i, Parent(i)), Parent(i))
  }

  function DownSwaps(s: seq<Item>, i: nat): (r: nat)
    decreases |s| - i
  {
    if 2 * i + 1 >= |s| || !Less(s[MinChild(s, i)], s[i]) then 0
    else 1 + DownSwaps(Swap(s, i, MinChild(s, i)), MinChild(s, i))
  }

  lemma {:induction false} UpSwapsLogarithmic(s: seq<Item>, i: nat)
    requires i < |s|
    ensures Pow2(UpSwaps(s, i)) <= i + 1
    decreases i
  {
    if i != 0 && Less(s[i], s[Parent(i)]) {
      UpSwapsLogarithmic(Swap(s, i, Parent(i)), Parent(i));
    }
  }

  lemma {:induction false} DownSwapsLogarithmic(s: seq<Item>, i: nat)
    requires i < |s|
    ensures Pow2(DownSwaps(s, i)) * (i + 1) <= |s|
    decreases |s| - i
  {
    if 2 * i + 1 < |s| {
      var c := MinChild(s, i);
      if Less(s[c], s[i]) {
        var t := Swap(s, i, c);
        DownSwapsLogarithmic(t, c);
        DoubleStep(Pow2(DownSwaps(t, c)), i, c, |s|);
      }
    }
  }

  lemma DoubleStep(p: nat, i: nat, c: nat, n: nat)
    requires p * (c + 1) <= n && 2 * i + 1 <= c
    ensures 2 * p * (i + 1) <= n
  {
    assert p * (2 * i + 2) <= p * (c + 1);
  }
}
