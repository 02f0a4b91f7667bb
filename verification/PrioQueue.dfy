/** The priority queue of gwlib/gw-prioqueue.c: a binary heap in tab[1..len] with a NULL sentinel in
    slot 0, for any comparison that is a total preorder. */
module PrioQueues {
  import opened Common

  ghost predicate TotalPreorder<T(!new)>(cmp: (T, T) -> int) {
    && (forall a, b :: cmp(a, b) <= 0 <==> cmp(b, a) >= 0)
    && (forall a, b, c :: cmp(a, b) >= 0 && cmp(b, c) >= 0 ==> cmp(a, c) >= 0)
  }

  ghost predicate Above<T>(cmp: (T, T) -> int, x: Option<T>, y: Option<T>) {
    x.Some? && y.Some? && cmp(x.value, y.value) >= 0
  }

  lemma AboveTransitive<T(!new)>(cmp: (T, T) -> int, x: Option<T>, y: Option<T>, z: Option<T>)
    requires TotalPreorder(cmp) && Above(cmp, x, y) && Above(cmp, y, z)
    ensures Above(cmp, x, z)
  {
  }

  lemma AboveTotal<T(!new)>(cmp: (T, T) -> int, x: Option<T>, y: Option<T>)
    requires TotalPreorder(cmp) && x.Some? && y.Some?
    ensures cmp(x.value, y.value) <= 0 <==> Above(cmp, y, x)
    ensures Above(cmp, x, y) || Above(cmp, y, x)
    ensures Above(cmp, x, x) && Above(cmp, y, y)
  {
  }

  /** The sentinel, then items only. */
  ghost predicate Filled<T>(s: seq<Option<T>>) {
    s != [] && s[0].None? && forall i :: 1 <= i < |s| ==> s[i].Some?
  }

  ghost predicate Heap<T>(cmp: (T, T) -> int, s: seq<Option<T>>) {
    Filled(s) && forall i :: 2 <= i < |s| ==> Above(cmp, s[i / 2], s[i])
  }

  /** A heap but for the item at k, which may be above its parent. */
  ghost predicate HeapBelow<T>(cmp: (T, T) -> int, s: seq<Option<T>>, k: nat) {
    && Filled(s) && 1 <= k < |s|
    && (forall i :: 2 <= i < |s| && i != k ==> Above(cmp, s[i / 2], s[i]))
    && (forall i :: 2 <= i < |s| && i / 2 == k && k >= 2 ==> Above(cmp, s[k / 2], s[i]))
  }

  /** A heap but for the item at k, which may be below its children. */
  ghost predicate HeapAbove<T>(cmp: (T, T) -> int, s: seq<Option<T>>, k: nat) {
    && Filled(s) && 1 <= k < |s|
    && (forall i :: 2 <= i < |s| && i / 2 != k ==> Above(cmp, s[i / 2], s[i]))
    && (forall i :: 2 <= i < |s| && i / 2 == k && k >= 2 ==> Above(cmp, s[k / 2], s[i]))
  }

  function Swapped<T>(s: seq<T>, i: nat, j: nat): seq<T>
    requires i < |s| && j < |s|
  {
    s[i := s[j]][j := s[i]]
  }

  lemma SwapUp<T(!new)>(cmp: (T, T) -> int, s: seq<Option<T>>, k: nat)
    requires TotalPreorder(cmp) && HeapBelow(cmp, s, k) && k >= 2 && Above(cmp, s[k], s[k / 2])
    ensures HeapBelow(cmp, Swapped(s, k, k / 2), k / 2)
  {
    hide TotalPreorder;
    var p := k / 2;
    var t := Swapped(s, k, p);
    forall i | 2 <= i < |t| && i != p
      ensures Above(cmp, t[i / 2], t[i])
    {
      if i != k && i / 2 == p {
        AboveTransitive(cmp, s[k], s[p], s[i]);
      }
    }
    forall i | 2 <= i < |t| && i / 2 == p && p >= 2
      ensures Above(cmp, t[p / 2], t[i])
    {
      if i != k {
        AboveTransitive(cmp, s[p / 2], s[p], s[i]);
      }
    }
  }

  /** One round of upheap: the item is in place, or it changes places with its parent. */
  lemma Ascend<T(!new)>(cmp: (T, T) -> int, s: seq<Option<T>>, k: nat)
    requires TotalPreorder(cmp) && HeapBelow(cmp, s, k)
    ensures s[k].Some? && (s[k / 2].Some? <==> k >= 2)
    ensures if s[k / 2].Some? && cmp(s[k / 2].value, s[k].value) <= 0
            then HeapBelow(cmp, Swapped(s, k, k / 2), k / 2)
            else Heap(cmp, s)
  {
    hide TotalPreorder;
    if k >= 2 {
      AboveTotal(cmp, s[k / 2], s[k]);
      if cmp(s[k / 2].value, s[k].value) <= 0 {
        SwapUp(cmp, s, k);
      }
    }
  }

  lemma SwapDown<T(!new)>(cmp: (T, T) -> int, s: seq<Option<T>>, k: nat, j: nat)
    requires HeapAbove(cmp, s, k) && 2 <= j < |s| && j / 2 == k
    requires Above(cmp, s[j], s[k]) && forall i :: 2 <= i < |s| && i / 2 == k ==> Above(cmp, s[j], s[i])
    ensures HeapAbove(cmp, Swapped(s, k, j), j)
  {
    var t := Swapped(s, k, j);
    forall i | 2 <= i < |t| && i / 2 != j
      ensures Above(cmp, t[i / 2], t[i])
    {
      assert i / 2 == k || i / 2 != k;
    }
  }

  /** The same items in slots 1 and up, each as often. */
  ghost predicate SameItems<T>(s: seq<Option<T>>, t: seq<Option<T>>) {
    s != [] && t != [] && multiset(s[1..]) == multiset(t[1..])
  }

  lemma SwapKeepsItems<T>(s: seq<Option<T>>, i: nat, j: nat, t: seq<Option<T>>)
    requires SameItems(s, t) && 1 <= i < |s| && 1 <= j < |s|
    ensures SameItems(Swapped(s, i, j), t)
  {
    assert Swapped(s, i, j)[1..] == Swapped(s[1..], i - 1, j - 1);
  }

  lemma Leaf<T>(cmp: (T, T) -> int, s: seq<Option<T>>, k: nat)
    requires HeapAbove(cmp, s, k) && |s| < 2 * k
    ensures Heap(cmp, s)
  {
  }

  /** The item in slot 1 is a maximum. */
  lemma {:induction false} RootIsMaximum<T(!new)>(cmp: (T, T) -> int, s: seq<Option<T>>, k: nat)
    requires TotalPreorder(cmp) && Heap(cmp, s) && 1 <= k < |s|
    ensures Above(cmp, s[1], s[k])
    decreases k
  {
    hide TotalPreorder;
    if k == 1 {
      AboveTotal(cmp, s[1], s[1]);
    } else {
      RootIsMaximum(cmp, s, k / 2);
      AboveTransitive(cmp, s[1], s[k / 2], s[k]);
    }
  }

  /** The last slot's item moved to the root, and the last slot given up. */
  ghost function Lifted<T>(s: seq<Option<T>>): seq<Option<T>>
    requires |s| >= 2
  {
    if |s| == 2 then s[..1] else s[..|s| - 1][1 := s[|s| - 1]]
  }

  lemma TopIsMaximum<T(!new)>(cmp: (T, T) -> int, s: seq<Option<T>>)
    requires TotalPreorder(cmp) && Heap(cmp, s) && |s| >= 2
    ensures forall x :: x in multiset(s[1..]) ==> Above(cmp, s[1], x)
  {
    hide TotalPreorder;
    forall x | x in multiset(s[1..])
      ensures Above(cmp, s[1], x)
    {
      var i :| 0 <= i < |s[1..]| && s[1..][i] == x;
      RootIsMaximum(cmp, s, i + 1);
    }
  }

  lemma LiftedItems<T(!new)>(cmp: (T, T) -> int, s: seq<Option<T>>, t: seq<Option<T>>)
    requires TotalPreorder(cmp) && Heap(cmp, s) && |s| >= 2 && SameItems(t, Lifted(s))
    ensures s[1].Some? && s[1] in multiset(s[1..]) && multiset(t[1..]) == multiset(s[1..]) - multiset{s[1]}
    ensures forall x :: x in multiset(s[1..]) ==> Above(cmp, s[1], x)
  {
    hide TotalPreorder;
    TopIsMaximum(cmp, s);
    var n := |s| - 1;
    assert s[1..] == [s[1]] + s[2..];
    if n > 1 {
      assert s[2..] == s[2..n] + [s[n]];
      assert Lifted(s)[1..] == [s[n]] + s[2..n];
    }
  }

  lemma LiftedHeap<T>(cmp: (T, T) -> int, s: seq<Option<T>>)
    requires Heap(cmp, s) && |s| >= 2
    ensures |s| == 2 ==> Heap(cmp, Lifted(s))
    ensures |s| > 2 ==> HeapAbove(cmp, Lifted(s), 1)
  {
  }

  lemma AppendedHeap<T>(cmp: (T, T) -> int, s: seq<Option<T>>, x: Option<T>)
    requires Heap(cmp, s) && x.Some?
    ensures Filled(s + [x]) && HeapBelow(cmp, s + [x], |s|)
  {
  }

  lemma AppendedItems<T>(s: seq<Option<T>>, x: Option<T>, t: seq<Option<T>>)
    requires s != [] && SameItems(t, s + [x])
    ensures multiset(t[1..]) == multiset(s[1..]) + multiset{x}
  {
    assert (s + [x])[1..] == s[1..] + [x];
  }

  /** What downheap reads in slot i: the slot past the heap holds v. */
  ghost function At<T>(s: seq<Option<T>>, v: Option<T>, i: nat): Option<T> { if i < |s| then s[i] else v }

  /** The child that downheap compares with; it may be the slot past the heap. */
  ghost function Child<T>(cmp: (T, T) -> int, s: seq<Option<T>>, k: nat, v: Option<T>): (j: nat)
    requires Filled(s) && v.Some? && 1 <= k && 2 * k <= |s|
    ensures j / 2 == k && 2 <= j <= |s|
  {
    if 2 * k < |s| && cmp(s[2 * k].value, At(s, v, 2 * k + 1).value) < 0 then 2 * k + 1 else 2 * k
  }

  lemma BiggerChild<T(!new)>(cmp: (T, T) -> int, s: seq<Option<T>>, k: nat, v: Option<T>)
    requires TotalPreorder(cmp) && Filled(s) && v.Some? && 1 <= k && 2 * k <= |s|
    ensures forall i :: 2 <= i < |s| && i / 2 == k ==> Above(cmp, At(s, v, Child(cmp, s, k, v)), s[i])
    ensures Above(cmp, v, v)
  {
    hide TotalPreorder;
    AboveTotal(cmp, v, At(s, v, 2 * k));
    if 2 * k < |s| {
      AboveTotal(cmp, s[2 * k], At(s, v, 2 * k + 1));
    }
    forall i | 2 <= i < |s| && i / 2 == k
      ensures Above(cmp, At(s, v, Child(cmp, s, k, v)), s[i])
    {
      assert i == 2 * k || i == 2 * k + 1;
    }
  }

  /** One round of downheap: either the item is in place, or it changes places with a live child. The slot
      past the heap never wins, because it holds the item itself. */
  lemma Descend<T(!new)>(cmp: (T, T) -> int, s: seq<Option<T>>, k: nat, v: Option<T>, j: nat)
    requires TotalPreorder(cmp) && HeapAbove(cmp, s, k) && s[k] == v && 2 * k <= |s|
    requires j == Child(cmp, s, k, v)
    ensures cmp(v.value, At(s, v, j).value) >= 0 ==> Heap(cmp, s)
    ensures cmp(v.value, At(s, v, j).value) < 0 ==> k < j < |s| && HeapAbove(cmp, Swapped(s, k, j), j)
  {
    hide TotalPreorder;
    BiggerChild(cmp, s, k, v);
    var x := At(s, v, j);
    if cmp(v.value, x.value) >= 0 {
      forall i | 2 <= i < |s| && i / 2 == k
        ensures Above(cmp, s[k], s[i])
      {
        AboveTransitive(cmp, s[k], x, s[i]);
      }
    } else {
      AboveTotal(cmp, v, x);
      SwapDown(cmp, s, k, j);
    }
  }

  ghost predicate Descending<T>(cmp: (T, T) -> int, out: seq<Option<T>>) {
    forall i, j :: 0 <= i < j < |out| ==> Above(cmp, out[i], out[j])
  }

  /** Part way through: out has left the bag all, rest is still queued, nothing in rest tops anything in out. */
  ghost predicate Draining<T>(cmp: (T, T) -> int, out: seq<Option<T>>, rest: multiset<Option<T>>, all: multiset<Option<T>>) {
    && multiset(out) + rest == all
    && Descending(cmp, out)
    && forall i, x :: 0 <= i < |out| && x in rest ==> Above(cmp, out[i], x)
  }

  lemma DrainStep<T>(cmp: (T, T) -> int, out: seq<Option<T>>, rest: multiset<Option<T>>, all: multiset<Option<T>>, y: Option<T>)
    requires Draining(cmp, out, rest, all) && y in rest
    requires forall x :: x in rest ==> Above(cmp, y, x)
    ensures Draining(cmp, out + [y], rest - multiset{y}, all)
  {
    hide Above;
    var t, less := out + [y], rest - multiset{y};
    assert forall x :: x in less ==> x in rest;
    assert multiset(t) + less == all;
  }

  lemma DrainEnd<T>(cmp: (T, T) -> int, out: seq<Option<T>>, all: multiset<Option<T>>)
    requires Draining(cmp, out, multiset{}, all)
    ensures multiset(out) == all && Descending(cmp, out)
  {
  }

  class PrioQueue<T(!new)> {
    const cmp: (T, T) -> int
    var tab: array<Option<T>>
    var len: nat

    ghost predicate Valid()
      reads this, tab
    {
      TotalPreorder(cmp) && 1 <= len <= tab.Length && Heap(cmp, tab[..len])
    }

    /** The items queued, as a bag. */
    ghost function Items(): multiset<Option<T>>
      requires 1 <= len <= tab.Length
      reads this, tab
    {
      multiset(tab[..len][1..])
    }

    constructor (compare: (T, T) -> int)
      requires TotalPreorder(compare)
      ensures Valid() && fresh(tab) && cmp == compare && Items() == multiset{}
    {
      cmp := compare;
      tab := new Option<T>[1](_ => None);
      len := 1;
    }

    method MakeBigger(items: nat)
      requires 1 <= len <= tab.Length
      modifies this`tab
      ensures len + items <= tab.Length && tab[..len] == old(tab[..len])
      ensures tab == old(tab) || fresh(tab)
    {
      if tab.Length >= len + items {
        return;
      }
      var previous, n := tab, len;
      var bigger := new Option<T>[len + items](_ => None);
      forall i | 0 <= i < n {
        bigger[i] := previous[i];
      }
      tab := bigger;
    }

    /** s is the table with v in the hole at k. */
    ghost predicate Plugged(s: seq<Option<T>>, k: nat, v: Option<T>)
      reads this, tab
    {
      k < |s| <= tab.Length && forall i :: 0 <= i < |s| ==> s[i] == if i == k then v else tab[i]
    }

    method MoveHole(k: nat, j: nat, v: Option<T>, ghost s: seq<Option<T>>)
      requires Plugged(s, k, v) && k < |s| && j < |s| && k != j
      modifies tab
      ensures |Swapped(s, k, j)| == |s| && Plugged(Swapped(s, k, j), j, v)
      ensures Filled(s) && k >= 1 && j >= 1 ==> Filled(Swapped(s, k, j))
      ensures forall i :: |s| <= i < tab.Length ==> tab[i] == old(tab[i])
    {
      tab[k] := tab[j];
    }

    method Plug(k: nat, v: Option<T>, ghost s: seq<Option<T>>)
      requires Plugged(s, k, v)
      modifies tab
      ensures |s| <= tab.Length && tab[..|s|] == s
    {
      tab[k] := v;
    }

    /** Move the item at index up to its place; n counts the slots in use. */
    method UpHeap(index: nat, ghost n: nat)
      requires TotalPreorder(cmp) && 1 <= index < n <= tab.Length
      requires Filled(tab[..n]) && HeapBelow(cmp, tab[..n], index)
      modifies tab
      ensures Heap(cmp, tab[..n]) && SameItems(tab[..n], old(tab[..n]))
    {
      assert SameItems(tab[..n], tab[..n]);
      hide TotalPreorder, SameItems, Heap, HeapBelow, Swapped;
      var v := tab[index];
      var k := index;
      ghost var s := tab[..n];
      Ascend(cmp, s, k);
      while tab[k / 2].Some? && cmp(tab[k / 2].value, v.value) <= 0
        invariant 1 <= k < n && v.Some? && Filled(s) && HeapBelow(cmp, s, k)
        invariant |s| == n && Plugged(s, k, v)
        invariant if k >= 2 && cmp(s[k / 2].value, v.value) <= 0
                  then HeapBelow(cmp, Swapped(s, k, k / 2), k / 2) else Heap(cmp, s)
        invariant SameItems(s, old(tab[..n]))
        decreases k
      {
        SwapKeepsItems(s, k, k / 2, old(tab[..n]));
        MoveHole(k, k / 2, v, s);
        s := Swapped(s, k, k / 2);
        k := k / 2;
        Ascend(cmp, s, k);
      }
      Plug(k, v, s);
    }

    /** The bigger child of k, looking one slot past the heap if need be. */
    method BiggestChild(k: nat, v: Option<T>, ghost s: seq<Option<T>>) returns (j: nat)
      requires 1 <= k && 2 * k <= len < tab.Length && |s| == len && Filled(s) && v.Some?
      requires Plugged(s, k, v) && tab[len] == v
      ensures j == Child(cmp, s, k, v) && tab[j] == At(s, v, j)
    {
      j := 2 * k;
      assert tab[j] == At(s, v, j) && (j < len ==> tab[j + 1] == At(s, v, j + 1));
      if j < len && cmp(tab[j].value, tab[j + 1].value) < 0 {
        j := j + 1;
      }
    }

    /** Move the item at index down to its place. Slot len lies outside the heap but is compared against:
        it must still hold the item being moved. */
    method DownHeap(index: nat)
      requires TotalPreorder(cmp) && 1 <= index <= len < tab.Length && tab[len] == tab[index]
      requires index < len ==> Filled(tab[..len]) && HeapAbove(cmp, tab[..len], index)
      requires index == len ==> Heap(cmp, tab[..len])
      modifies tab
      ensures Heap(cmp, tab[..len]) && SameItems(tab[..len], old(tab[..len]))
    {
      assert SameItems(tab[..len], tab[..len]);
      hide TotalPreorder, SameItems, Heap, HeapAbove, Child, At, Swapped;
      if index == len {
        return;
      }
      var v := tab[index];
      var k := index;
      ghost var s := tab[..len];
      while k <= len / 2
        invariant 1 <= k < len && v.Some? && Filled(s) && HeapAbove(cmp, s, k) && tab[len] == v
        invariant |s| == len && Plugged(s, k, v)
        invariant SameItems(s, old(tab[..len]))
        decreases len - k
      {
        var j := BiggestChild(k, v, s);
        Descend(cmp, s, k, v, j);
        if cmp(v.value, tab[j].value) >= 0 {
          break;
        }
        SwapKeepsItems(s, k, j, old(tab[..len]));
        MoveHole(k, j, v, s);
        s := Swapped(s, k, j);
        k := j;
      }
      if k > len / 2 {
        Leaf(cmp, s, k);
      }
      Plug(k, v, s);
    }

    method Insert(item: T)
      requires Valid()
      modifies this, tab
      ensures Valid() && Items() == old(Items()) + multiset{Some(item)}
      ensures tab == old(tab) || fresh(tab)
    {
      hide TotalPreorder, Heap, SameItems, HeapBelow;
      ghost var s := tab[..len];
      AppendedHeap(cmp, s, Some(item));
      MakeBigger(1);
      tab[len] := Some(item);
      assert tab[..len + 1] == s + [Some(item)];
      UpHeap(len, len + 1);
      len := len + 1;
      AppendedItems(s, Some(item), tab[..len]);
    }

    /** NULL if empty; otherwise a maximum leaves the queue. */
    method Remove() returns (ret: Option<T>)
      requires Valid()
      modifies this`len, tab
      ensures Valid()
      ensures ret.None? <==> old(Items()) == multiset{}
      ensures ret.None? ==> Items() == old(Items()) && len == old(len)
      ensures ret.Some? ==> ret in old(Items()) && Items() == old(Items()) - multiset{ret} && len == old(len) - 1
      ensures ret.Some? ==> forall x :: x in old(Items()) ==> Above(cmp, ret, x)
    {
      hide TotalPreorder, Heap, HeapAbove, SameItems;
      if len <= 1 {
        return None;
      }
      ret := tab[1];
      ghost var s := tab[..len];
      LiftedHeap(cmp, s);
      len := len - 1;
      tab[1] := tab[len];
      assert tab[..len] == Lifted(s);
      DownHeap(1);
      LiftedItems(cmp, s, tab[..len]);
    }

    /** Emptying the queue gives every item once, in non-increasing order. */
    method Drain() returns (out: seq<Option<T>>)
      requires Valid()
      modifies this`len, tab
      ensures Valid() && Items() == multiset{} && multiset(out) == old(Items())
      ensures Descending(cmp, out)
    {
      out := [];
      assert Draining(cmp, out, Items(), Items());
      hide TotalPreorder, Heap, Above, Draining;
      while true
        invariant Valid() && Draining(cmp, out, Items(), old(Items()))
        decreases len
      {
        ghost var rest := Items();
        var item := Remove();
        if item.None? {
          break;
        }
        DrainStep(cmp, out, rest, old(Items()), item);
        out := out + [item];
      }
      DrainEnd(cmp, out, old(Items()));
    }
  }
}
