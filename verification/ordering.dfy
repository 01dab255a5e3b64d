/**
 Drag-and-drop reordering of a list of positioned items (tasks or
 categories), as done by `reorderWithPosition` in src/lib/ordering.ts.

 The dragged item (`activeId`) is removed from the list and re-inserted at
 the index the drop target (`overId`) occupied, with array-splice semantics.
 The moved item then gets a new numeric position computed from its new
 neighbours, and the persistence callback is told about it. Positions are
 modelled as `real`, so midpoints are exact.
 */
module Ordering {
  import opened Wrappers

  /** Spacing used when there is no second neighbour to extrapolate from. */
  const DefaultSpacing: real := 1000.0

  datatype Item = Item(id: string, position: real)

  /** The arguments of the single call to the persistence callback. */
  datatype Update = Update(id: string, position: real)

  /** The returned list, and the callback call made (None: not called). */
  datatype Reordered = Reordered(items: seq<Item>, update: Option<Update>)

  function Abs(x: real): real {
    if x < 0.0 then -x else x
  }

  /** The ids of a list, in order. */
  function Ids(s: seq<Item>): (r: seq<string>)
    ensures |r| == |s|
    ensures forall k :: 0 <= k < |s| ==> r[k] == s[k].id
  {
    seq(|s|, k requires 0 <= k < |s| => s[k].id)
  }

  /** `i` is the index `Array.prototype.findIndex` returns for `id`. */
  ghost predicate FirstIndexOf(s: seq<Item>, id: string, i: nat) {
    i < |s| && s[i].id == id && forall k :: 0 <= k < i ==> s[k].id != id
  }

  /** `findIndex` by id; None stands for -1. */
  function FindIndex(s: seq<Item>, id: string): (r: Option<nat>)
    ensures r.None? <==> forall k :: 0 <= k < |s| ==> s[k].id != id
    ensures r.Some? ==> FirstIndexOf(s, id, r.value)
  {
    if |s| == 0 then None
    else if s[0].id == id then Some(0)
    else
      match FindIndex(s[1..], id)
      case None => None
      case Some(k) =>
        assert forall m :: 1 <= m < k + 1 ==> s[m].id == s[1..][m - 1].id;
        Some(k + 1)
  }

  /** `s.splice(i, 1)`: the list without its element at `i`. */
  function Remove<T>(s: seq<T>, i: nat): (r: seq<T>)
    requires i < |s|
    ensures |r| == |s| - 1
    ensures forall k :: 0 <= k < i ==> r[k] == s[k]
    ensures forall k :: i <= k < |r| ==> r[k] == s[k + 1]
  {
    s[..i] + s[i + 1..]
  }

  /** `s.splice(j, 0, x)`: the list with `x` inserted before index `j`. */
  function Insert<T>(s: seq<T>, j: nat, x: T): (r: seq<T>)
    requires j <= |s|
    ensures |r| == |s| + 1
    ensures r[j] == x
    ensures forall k :: 0 <= k < j ==> r[k] == s[k]
    ensures forall k :: j < k < |r| ==> r[k] == s[k - 1]
  {
    s[..j] + [x] + s[j..]
  }

  /** Lines 23-25: relocate the element at `i` to index `j`. */
  function Move<T>(s: seq<T>, i: nat, j: nat): (r: seq<T>)
    requires i < |s| && j < |s|
    ensures |r| == |s| && r[j] == s[i]
  {
    Insert(Remove(s, i), j, s[i])
  }

  /**
   The index in the original list of the element that a single-item
   relocation from `i` to `j` puts at index `k`: the moved element lands
   at `j`, the elements strictly between the two indices shift by one
   slot towards `i`, and all others stay where they were.
   */
  function Source(i: nat, j: nat, k: nat): nat {
    if k == j then i
    else if i <= k < j then k + 1
    else if j < k <= i then k - 1
    else k
  }

  /** Splicing out and back in is exactly the relocation `Source` describes. */
  lemma MoveIsRelocation<T>(s: seq<T>, i: nat, j: nat)
    requires i < |s| && j < |s|
    ensures |Move(s, i, j)| == |s|
    ensures forall k :: 0 <= k < |s| ==> Source(i, j, k) < |s| && Move(s, i, j)[k] == s[Source(i, j, k)]
  {
    var m := Move(s, i, j);
    forall k | 0 <= k < |s|
      ensures Source(i, j, k) < |s| && m[k] == s[Source(i, j, k)]
    {
      if k == j {
      } else if k < j {
        assert m[k] == Remove(s, i)[k];
      } else {
        assert m[k] == Remove(s, i)[k - 1];
      }
    }
  }

  /** Relocation keeps every element: the result is a permutation. */
  lemma MoveIsPermutation<T>(s: seq<T>, i: nat, j: nat)
    requires i < |s| && j < |s|
    ensures multiset(Move(s, i, j)) == multiset(s)
  {
    var rest := Remove(s, i);
    assert rest == s[..i] + s[i + 1..];
    assert s == s[..i] + [s[i]] + s[i + 1..];
    assert multiset(s) == multiset(rest) + multiset{s[i]};
    assert Move(s, i, j) == rest[..j] + [s[i]] + rest[j..];
    assert rest == rest[..j] + rest[j..];
  }

  /** Relocation keeps the relative order of all other elements. */
  lemma MoveKeepsOthersInOrder<T>(s: seq<T>, i: nat, j: nat)
    requires i < |s| && j < |s|
    ensures Remove(Move(s, i, j), j) == Remove(s, i)
  {
    var m := Move(s, i, j);
    var rest := Remove(s, i);
    assert |Remove(m, j)| == |rest|;
    forall k | 0 <= k < |rest|
      ensures Remove(m, j)[k] == rest[k]
    {
      if k < j {
        assert Remove(m, j)[k] == m[k];
      } else {
        assert Remove(m, j)[k] == m[k + 1];
      }
    }
  }

  /**
   Lines 28-44: the position the item now at index `j` of `s` receives,
   from its new neighbours `s[j-1]` ("before") and `s[j+1]` ("after").
   */
  function NewPosition(s: seq<Item>, j: nat): (p: real)
    requires j < |s|
    ensures 0 < j < |s| - 1 ==>
              (s[j - 1].position <= s[j + 1].position ==> s[j - 1].position <= p <= s[j + 1].position) &&
              (s[j + 1].position <= s[j - 1].position ==> s[j + 1].position <= p <= s[j - 1].position)
    ensures j == 0 && |s| > 1 ==> p >= s[1].position
    ensures j == 0 && |s| == 2 ==> p == s[1].position + DefaultSpacing
    ensures j > 0 && j == |s| - 1 ==> p <= s[j - 1].position
    ensures j == 1 && |s| == 2 ==> p == s[0].position - DefaultSpacing
    ensures |s| == 1 ==> p == s[0].position
  {
    var hasBefore := j > 0;
    var hasAfter := j + 1 < |s|;
    if hasBefore && hasAfter then
      (s[j - 1].position + s[j + 1].position) / 2.0
    else if !hasBefore && hasAfter then
      var diff := if j + 2 < |s| then Abs(s[j + 1].position - s[j + 2].position) else DefaultSpacing;
      s[j + 1].position + diff
    else if hasBefore && !hasAfter then
      var diff := if j >= 2 then Abs(s[j - 1].position - s[j - 2].position) else DefaultSpacing;
      s[j - 1].position - diff
    else
      s[j].position
  }

  /** `reorderWithPosition(items, activeId, overId, updateFn)` (lines 13-48). */
  function Reorder(items: seq<Item>, activeId: string, overId: string): (r: Reordered)
    ensures |r.items| == |items|
    ensures r.update.None? <==>
              (forall k :: 0 <= k < |items| ==> items[k].id != activeId) ||
              (forall k :: 0 <= k < |items| ==> items[k].id != overId)
    ensures r.update.None? ==> r.items == items
    ensures r.update.Some? ==> r.update.value.id == activeId
  {
    var oldIndex := FindIndex(items, activeId);
    var newIndex := FindIndex(items, overId);
    if oldIndex.None? || newIndex.None? then
      Reordered(items, None)
    else
      var j := newIndex.value;
      var moved := Move(items, oldIndex.value, j);
      var p := NewPosition(moved, j);
      Reordered(moved[j := moved[j].(position := p)], Some(Update(moved[j].id, p)))
  }

  /** Positions strictly decrease along the list. */
  ghost predicate StrictlyDecreasing(s: seq<Item>) {
    forall a, b :: 0 <= a < b < |s| ==> s[a].position > s[b].position
  }

  /** Unfolds `Reorder` once both ids have been found at `i` and `j`. */
  lemma ReorderFound(items: seq<Item>, activeId: string, overId: string, i: nat, j: nat)
    requires FirstIndexOf(items, activeId, i) && FirstIndexOf(items, overId, j)
    ensures Reorder(items, activeId, overId).items ==
              Move(items, i, j)[j := items[i].(position := NewPosition(Move(items, i, j), j))]
    ensures Reorder(items, activeId, overId).update ==
              Some(Update(activeId, NewPosition(Move(items, i, j), j)))
  {
    assert FindIndex(items, activeId) == Some(i);
    assert FindIndex(items, overId) == Some(j);
  }

  /**
   When both ids are present, the dragged item lands at the drop target's
   old index with its new position, every other item is the item
   single-item relocation puts there (position included), and the callback
   is called once, with the dragged id and the moved item's new position.
   */
  lemma ReorderIsRelocation(items: seq<Item>, activeId: string, overId: string, i: nat, j: nat)
    requires FirstIndexOf(items, activeId, i) && FirstIndexOf(items, overId, j)
    ensures var r := Reorder(items, activeId, overId);
      && |r.items| == |items|
      && r.items[j].id == activeId
      && r.items[j] == items[i].(position := r.items[j].position)
      && (forall k :: 0 <= k < |items| && k != j ==> Source(i, j, k) < |items| && r.items[k] == items[Source(i, j, k)])
      && r.update == Some(Update(activeId, r.items[j].position))
  {
    ReorderFound(items, activeId, overId, i, j);
    MoveIsRelocation(items, i, j);
  }

  /** The items other than the dragged one keep their relative order and positions. */
  lemma ReorderKeepsOthersInOrder(items: seq<Item>, activeId: string, overId: string, i: nat, j: nat)
    requires FirstIndexOf(items, activeId, i) && FirstIndexOf(items, overId, j)
    ensures var r := Reorder(items, activeId, overId);
      j < |r.items| && Remove(r.items, j) == Remove(items, i)
  {
    ReorderFound(items, activeId, overId, i, j);
    var m := Move(items, i, j);
    var r := Reorder(items, activeId, overId);
    MoveKeepsOthersInOrder(items, i, j);
    assert Remove(r.items, j) == Remove(m, j);
  }

  /** The returned list holds the same ids, with the same multiplicities. */
  lemma ReorderKeepsIds(items: seq<Item>, activeId: string, overId: string)
    ensures multiset(Ids(Reorder(items, activeId, overId).items)) == multiset(Ids(items))
  {
    var r := Reorder(items, activeId, overId);
    if r.update.Some? {
      var i := FindIndex(items, activeId).value;
      var j := FindIndex(items, overId).value;
      ReorderIsRelocation(items, activeId, overId, i, j);
      MoveIsRelocation(Ids(items), i, j);
      assert Ids(r.items) == Move(Ids(items), i, j);
      MoveIsPermutation(Ids(items), i, j);
    }
  }

  /** Interior drop: the new position is the midpoint of the new neighbours. */
  lemma ReorderInteriorPosition(items: seq<Item>, activeId: string, overId: string, i: nat, j: nat)
    requires FirstIndexOf(items, activeId, i) && FirstIndexOf(items, overId, j)
    requires 0 < j < |items| - 1
    ensures var s := Reorder(items, activeId, overId).items;
      var before := s[j - 1].position;
      var after := s[j + 1].position;
      && s[j].position == (before + after) / 2.0
      && (before <= after ==> before <= s[j].position <= after)
      && (after <= before ==> after <= s[j].position <= before)
      && (before != after ==> s[j].position != before && s[j].position != after)
  {
    ReorderFound(items, activeId, overId, i, j);
  }

  /** Drop at the head: extrapolate upward from the first two remaining items. */
  lemma ReorderHeadPosition(items: seq<Item>, activeId: string, overId: string, i: nat)
    requires FirstIndexOf(items, activeId, i) && FirstIndexOf(items, overId, 0)
    requires |items| >= 2
    ensures var s := Reorder(items, activeId, overId).items;
      var diff := if |s| > 2 then Abs(s[1].position - s[2].position) else DefaultSpacing;
      && s[0].position == s[1].position + diff
      && s[0].position >= s[1].position
      && (|s| == 2 ==> s[0].position > s[1].position)
  {
    ReorderFound(items, activeId, overId, i, 0);
  }

  /** Drop at the tail: extrapolate downward from the last two remaining items. */
  lemma ReorderTailPosition(items: seq<Item>, activeId: string, overId: string, i: nat)
    requires |items| >= 2
    requires FirstIndexOf(items, activeId, i) && FirstIndexOf(items, overId, |items| - 1)
    ensures var s := Reorder(items, activeId, overId).items;
      var n := |s|;
      var diff := if n > 2 then Abs(s[n - 2].position - s[n - 3].position) else DefaultSpacing;
      && s[n - 1].position == s[n - 2].position - diff
      && s[n - 1].position <= s[n - 2].position
      && (n == 2 ==> s[n - 1].position < s[n - 2].position)
  {
    ReorderFound(items, activeId, overId, i, |items| - 1);
  }

  /** A one-item list comes back unchanged, yet the callback still fires. */
  lemma ReorderSingleItem(item: Item)
    ensures Reorder([item], item.id, item.id) == Reordered([item], Some(Update(item.id, item.position)))
  {
    ReorderFound([item], item.id, item.id, 0, 0);
  }

  /**
   Dropping an item onto itself keeps the order (and every other item), but
   the moved item's position is still recomputed and the callback fires.
   */
  lemma ReorderOntoItself(items: seq<Item>, id: string, i: nat)
    requires FirstIndexOf(items, id, i)
    ensures var r := Reorder(items, id, id);
      && Ids(r.items) == Ids(items)
      && (forall k :: 0 <= k < |items| && k != i ==> r.items[k] == items[k])
      && r.update == Some(Update(id, r.items[i].position))
  {
    ReorderIsRelocation(items, id, id, i, i);
  }

  /** The new position of the moved item fits strictly between its decreasing neighbours. */
  lemma NewPositionFits(s: seq<Item>, j: nat)
    requires j < |s|
    requires StrictlyDecreasing(Remove(s, j))
    ensures j > 0 ==> s[j - 1].position > NewPosition(s, j)
    ensures j + 1 < |s| ==> NewPosition(s, j) > s[j + 1].position
  {
    var rest := Remove(s, j);
    if j > 0 && j + 1 < |s| {
      assert rest[j - 1] == s[j - 1] && rest[j] == s[j + 1];
    } else if j == 0 && 2 < |s| {
      assert rest[0] == s[1] && rest[1] == s[2];
    } else if j > 0 && j + 1 == |s| && j >= 2 {
      assert rest[j - 2] == s[j - 2] && rest[j - 1] == s[j - 1];
    }
  }

  /** Dropping one item keeps a strictly decreasing list strictly decreasing. */
  lemma RemoveKeepsDecreasing(s: seq<Item>, i: nat)
    requires i < |s| && StrictlyDecreasing(s)
    ensures StrictlyDecreasing(Remove(s, i))
  {
    var rest := Remove(s, i);
    forall a, b | 0 <= a < b < |rest|
      ensures rest[a].position > rest[b].position
    {
      var a', b' := if a < i then a else a + 1, if b < i then b else b + 1;
      assert rest[a] == s[a'] && rest[b] == s[b'];
    }
  }

  /** An item that fits between its neighbours keeps the list strictly decreasing. */
  lemma FittingItemKeepsDecreasing(s: seq<Item>, j: nat)
    requires j < |s| && StrictlyDecreasing(Remove(s, j))
    requires j > 0 ==> s[j - 1].position > s[j].position
    requires j + 1 < |s| ==> s[j].position > s[j + 1].position
    ensures StrictlyDecreasing(s)
  {
    var rest := Remove(s, j);
    forall a, b | 0 <= a < b < |s|
      ensures s[a].position > s[b].position
    {
      if a == j {
        if b > j + 1 {
          assert s[j + 1] == rest[j] && s[b] == rest[b - 1];
        }
      } else if b == j {
        if a < j - 1 {
          assert s[a] == rest[a] && s[j - 1] == rest[j - 1];
        }
      } else {
        var a', b' := if a < j then a else a - 1, if b < j then b else b - 1;
        assert s[a] == rest[a'] && s[b] == rest[b'];
      }
    }
  }

  /**
   Order invariant: if positions strictly decrease along the input list,
   they strictly decrease along the returned list.
   */
  lemma ReorderKeepsDecreasing(items: seq<Item>, activeId: string, overId: string)
    requires StrictlyDecreasing(items)
    ensures StrictlyDecreasing(Reorder(items, activeId, overId).items)
  {
    var r := Reorder(items, activeId, overId);
    if r.update.Some? {
      var i := FindIndex(items, activeId).value;
      var j := FindIndex(items, overId).value;
      var m := Move(items, i, j);
      ReorderFound(items, activeId, overId, i, j);
      MoveKeepsOthersInOrder(items, i, j);
      RemoveKeepsDecreasing(items, i);
      NewPositionFits(m, j);
      ReorderKeepsOthersInOrder(items, activeId, overId, i, j);
      assert j > 0 ==> r.items[j - 1] == m[j - 1];
      assert j + 1 < |m| ==> r.items[j + 1] == m[j + 1];
      FittingItemKeepsDecreasing(r.items, j);
    }
  }

  /** Moving A onto C in [A:1000, B:2000, C:3000] gives [B, C, A] with A at 3000 - 1000. */
  lemma ExampleMoveHeadToTail()
    ensures Reorder([Item("A", 1000.0), Item("B", 2000.0), Item("C", 3000.0)], "A", "C") ==
              Reordered([Item("B", 2000.0), Item("C", 3000.0), Item("A", 2000.0)], Some(Update("A", 2000.0)))
  {
    var items := [Item("A", 1000.0), Item("B", 2000.0), Item("C", 3000.0)];
    ReorderFound(items, "A", "C", 0, 2);
    assert Move(items, 0, 2) == [Item("B", 2000.0), Item("C", 3000.0), Item("A", 1000.0)];
  }

  /** Moving C onto A in [A:1000, B:2000, C:3000] gives [C, A, B] with C at 1000 + 1000. */
  lemma ExampleMoveTailToHead()
    ensures Reorder([Item("A", 1000.0), Item("B", 2000.0), Item("C", 3000.0)], "C", "A") ==
              Reordered([Item("C", 2000.0), Item("A", 1000.0), Item("B", 2000.0)], Some(Update("C", 2000.0)))
  {
    var items := [Item("A", 1000.0), Item("B", 2000.0), Item("C", 3000.0)];
    ReorderFound(items, "C", "A", 2, 0);
    assert Move(items, 2, 0) == [Item("C", 3000.0), Item("A", 1000.0), Item("B", 2000.0)];
  }

  /** Splice, not swap: moving A onto C in [A, B, C, D] gives [B, C, A, D], A at the C/D midpoint. */
  lemma ExampleSpliceNotSwap()
    ensures Reorder([Item("A", 1000.0), Item("B", 2000.0), Item("C", 3000.0), Item("D", 4000.0)], "A", "C") ==
              Reordered([Item("B", 2000.0), Item("C", 3000.0), Item("A", 3500.0), Item("D", 4000.0)], Some(Update("A", 3500.0)))
  {
    var items := [Item("A", 1000.0), Item("B", 2000.0), Item("C", 3000.0), Item("D", 4000.0)];
    ReorderFound(items, "A", "C", 0, 2);
    assert Move(items, 0, 2) == [Item("B", 2000.0), Item("C", 3000.0), Item("A", 1000.0), Item("D", 4000.0)];
  }
}
