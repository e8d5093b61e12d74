/** The FAQ accordion (src/components/shared/FAQ.tsx): the list of open question
    indices, which each click on a question toggles. */
module Faq {

  /** `list.filter(i => i !== x)`. */
  function RemoveAll(s: seq<int>, x: int): (r: seq<int>)
    ensures |r| <= |s|
    ensures forall j :: j in r <==> j in s && j != x
  {
    if s == [] then []
    else (if s[0] != x then [s[0]] else []) + RemoveAll(s[1..], x)
  }

  /** Removal works piece by piece, so the kept indices keep their relative order. */
  lemma {:induction false} RemoveAllAppend(a: seq<int>, b: seq<int>, x: int)
    ensures RemoveAll(a + b, x) == RemoveAll(a, x) + RemoveAll(b, x)
  {
    if a == [] {
      assert a + b == b;
    } else {
      assert (a + b)[0] == a[0];
      assert (a + b)[1..] == a[1..] + b;
      RemoveAllAppend(a[1..], b, x);
    }
  }

  /** Removing an index that is not there changes nothing. */
  lemma {:induction false} RemoveAbsent(s: seq<int>, x: int)
    requires x !in s
    ensures RemoveAll(s, x) == s
  {
    if s != [] {
      assert x !in s[1..];
      RemoveAbsent(s[1..], x);
      assert s == [s[0]] + s[1..];
    }
  }

  predicate NoDuplicates(s: seq<int>) {
    forall j, k :: 0 <= j < k < |s| ==> s[j] != s[k]
  }

  lemma {:induction false} RemoveAllDistinct(s: seq<int>, x: int)
    requires NoDuplicates(s)
    ensures NoDuplicates(RemoveAll(s, x))
  {
    if s != [] {
      var t := s[1..];
      assert NoDuplicates(t) by {
        forall j, k | 0 <= j < k < |t| ensures t[j] != t[k] {
          assert t[j] == s[j + 1] && t[k] == s[k + 1];
        }
      }
      RemoveAllDistinct(t, x);
      assert s[0] !in t by {
        forall k | 0 <= k < |t| ensures t[k] != s[0] {
          assert t[k] == s[k + 1];
        }
      }
      var head: seq<int> := if s[0] != x then [s[0]] else [];
      var rest := RemoveAll(t, x);
      assert forall k :: 0 <= k < |rest| ==> rest[k] in rest;
      assert RemoveAll(s, x) == head + rest;
    }
  }

  /** The new list of open items after a click on question `index`. */
  function Toggled(openItems: seq<int>, index: int): (r: seq<int>)
    ensures forall j :: j in r <==> (j in openItems) != (j == index)
    ensures index !in openItems ==> r == openItems + [index]
  {
    if index in openItems then RemoveAll(openItems, index) else openItems + [index]
  }

  /** Opening a closed question and clicking it again restores the list exactly. */
  lemma ToggleTwice(openItems: seq<int>, index: int)
    requires index !in openItems
    ensures Toggled(Toggled(openItems, index), index) == openItems
  {
    RemoveAllAppend(openItems, [index], index);
    RemoveAbsent(openItems, index);
    assert RemoveAll([index], index) == [];
  }

  /** Closing a question removes it and keeps the others in their order: removal
      commutes with splitting the list anywhere. */
  lemma ToggleRemovesInOrder(a: seq<int>, b: seq<int>, index: int)
    requires index in a + b
    ensures Toggled(a + b, index) == RemoveAll(a, index) + RemoveAll(b, index)
  {
    RemoveAllAppend(a, b, index);
  }

  /** A click keeps the list free of duplicates. */
  lemma ToggleKeepsDistinct(openItems: seq<int>, index: int)
    requires NoDuplicates(openItems)
    ensures NoDuplicates(Toggled(openItems, index))
  {
    if index in openItems {
      RemoveAllDistinct(openItems, index);
    } else {
      var r := openItems + [index];
      forall j, k | 0 <= j < k < |r| ensures r[j] != r[k] {
        if k == |openItems| {
          assert r[j] == openItems[j];
        } else {
          assert r[j] == openItems[j] && r[k] == openItems[k];
        }
      }
    }
  }

  /** The open list after a sequence of clicks, starting from `openItems`. */
  function ApplyToggles(openItems: seq<int>, clicks: seq<int>): seq<int>
    decreases |clicks|
  {
    if clicks == [] then openItems else ApplyToggles(Toggled(openItems, clicks[0]), clicks[1..])
  }

  /** From the initial empty list, no sequence of clicks produces a duplicate. */
  lemma {:induction false} ClicksKeepDistinct(openItems: seq<int>, clicks: seq<int>)
    requires NoDuplicates(openItems)
    ensures NoDuplicates(ApplyToggles(openItems, clicks))
    decreases |clicks|
  {
    if clicks != [] {
      ToggleKeepsDistinct(openItems, clicks[0]);
      ClicksKeepDistinct(Toggled(openItems, clicks[0]), clicks[1..]);
    }
  }

  lemma NeverDuplicated(clicks: seq<int>)
    ensures NoDuplicates(ApplyToggles([], clicks))
  {
    ClicksKeepDistinct([], clicks);
  }

  /** The accordion's state. */
  class Accordion {
    var openItems: seq<int>

    /** Initially no question is open. */
    constructor ()
      ensures openItems == []
      ensures forall i :: !IsOpen(i)
    {
      openItems := [];
    }

    /** Question `index` shows its answer, and its chevron is rotated, iff it is open. */
    predicate IsOpen(index: int)
      reads this
    {
      index in openItems
    }

    /** `toggleItem(index)`. */
    method Toggle(index: int)
      modifies this
      ensures openItems == Toggled(old(openItems), index)
      ensures IsOpen(index) <==> !old(IsOpen(index))
      ensures forall j :: j != index ==> (IsOpen(j) <==> old(IsOpen(j)))
      ensures NoDuplicates(old(openItems)) ==> NoDuplicates(openItems)
    {
      if NoDuplicates(openItems) {
        ToggleKeepsDistinct(openItems, index);
      }
      if index in openItems {
        openItems := RemoveAll(openItems, index);
      } else {
        openItems := openItems + [index];
      }
    }
  }
}
