/** The checkbox list of the frontend: the selection starts empty and every change of a
    checkbox toggles its item, removing it when present and appending it otherwise. */
module Selector {
  import opened Seqs

  /** `foodItems`: the checkboxes, in display order. */
  const FoodItems: seq<string> := ["Paneer Toast", "Grilled Sandwich", "Aloo Samosa"]

  /** `useState([])`. */
  const InitialSelection: seq<string> := []

  /** `s.filter((i) => i !== item)`: the other elements, in their order. */
  function Without(s: seq<string>, item: string): (r: seq<string>)
    ensures forall v :: v in r <==> v in s && v != item
  {
    if s == [] then []
    else
      var p, l := s[..|s| - 1], s[|s| - 1];
      assert s == p + [l];
      if l == item then Without(p, item) else Without(p, item) + [l]
  }

  /** The updater passed to `setSelectedItems`: the item leaves the selection when it is
      in it and joins it at the end otherwise; no other name changes membership. */
  function Toggle(prev: seq<string>, item: string): (r: seq<string>)
    ensures item in r <==> item !in prev
    ensures forall v :: v != item ==> (v in r <==> v in prev)
  {
    if item in prev then Without(prev, item) else prev + [item]
  }

  /** The selection after the checkboxes have changed in the order `clicks`, each change
      applied to the state the previous one left. */
  function SelectionAfter(clicks: seq<string>): seq<string>
  {
    if clicks == [] then InitialSelection
    else Toggle(SelectionAfter(clicks[..|clicks| - 1]), clicks[|clicks| - 1])
  }

  /** Filtering removes every occurrence of the item and keeps every other occurrence. */
  lemma {:induction false} WithoutCount(s: seq<string>, item: string, v: string)
    ensures Count(Without(s, item), v) == if v == item then 0 else Count(s, v)
  {
    if s != [] {
      var p, l := s[..|s| - 1], s[|s| - 1];
      WithoutCount(p, item, v);
      if l != item {
        var w := Without(p, item) + [l];
        assert w[..|w| - 1] == Without(p, item);
      }
    }
  }

  /** Filtering out an absent item changes nothing. */
  lemma {:induction false} WithoutAbsent(s: seq<string>, item: string)
    requires item !in s
    ensures Without(s, item) == s
  {
    if s != [] {
      var p, l := s[..|s| - 1], s[|s| - 1];
      assert s == p + [l];
      WithoutAbsent(p, item);
    }
  }

  /** Filtering keeps a sequence without duplicates free of them. */
  lemma {:induction false} WithoutDistinct(s: seq<string>, item: string)
    requires NoDuplicates(s)
    ensures NoDuplicates(Without(s, item))
  {
    if s != [] {
      var p, l := s[..|s| - 1], s[|s| - 1];
      assert s == p + [l];
      assert NoDuplicates(p);
      WithoutDistinct(p, item);
      if l != item {
        assert l !in p;
        var w := Without(p, item);
        assert forall k :: 0 <= k < |w| ==> w[k] in w;
      }
    }
  }

  /** Toggling never introduces a duplicate. */
  lemma TogglePreservesNoDuplicates(prev: seq<string>, item: string)
    requires NoDuplicates(prev)
    ensures NoDuplicates(Toggle(prev, item))
  {
    if item in prev {
      WithoutDistinct(prev, item);
    }
  }

  /** Toggling leaves the other selected names, and their order, as they were. */
  lemma ToggleKeepsOthersInOrder(prev: seq<string>, item: string)
    ensures Without(Toggle(prev, item), item) == Without(prev, item)
  {
    if item in prev {
      WithoutAbsent(Without(prev, item), item);
    } else {
      var s := prev + [item];
      assert s[..|s| - 1] == prev;
    }
  }

  /** Toggling an unselected item twice restores the selection; toggling a selected one
      twice moves it to the end. */
  lemma ToggleTwice(prev: seq<string>, item: string)
    ensures item !in prev ==> Toggle(Toggle(prev, item), item) == prev
    ensures item in prev ==> Toggle(Toggle(prev, item), item) == Without(prev, item) + [item]
  {
    if item !in prev {
      var s := prev + [item];
      assert s[..|s| - 1] == prev;
      WithoutAbsent(prev, item);
    }
  }

  /** No sequence of changes puts a name in the selection twice. */
  lemma {:induction false} SelectionAfterNoDuplicates(clicks: seq<string>)
    ensures NoDuplicates(SelectionAfter(clicks))
  {
    if clicks != [] {
      SelectionAfterNoDuplicates(clicks[..|clicks| - 1]);
      TogglePreservesNoDuplicates(SelectionAfter(clicks[..|clicks| - 1]), clicks[|clicks| - 1]);
    }
  }

  /** A name is selected exactly when its checkbox has changed an odd number of times. */
  lemma {:induction false} SelectedIffOddClicks(clicks: seq<string>, v: string)
    ensures v in SelectionAfter(clicks) <==> Count(clicks, v) % 2 == 1
  {
    if clicks != [] {
      SelectedIffOddClicks(clicks[..|clicks| - 1], v);
    }
  }

  /** Only names that were clicked can be selected; with the checkboxes of `foodItems`
      the selection stays within them. */
  lemma SelectionAfterWithinFoodItems(clicks: seq<string>)
    requires forall c :: c in clicks ==> c in FoodItems
    ensures forall v :: v in SelectionAfter(clicks) ==> v in FoodItems
  {
    forall v | v in SelectionAfter(clicks)
      ensures v in FoodItems
    {
      SelectedIffOddClicks(clicks, v);
      CountPositive(clicks, v);
    }
  }
}
