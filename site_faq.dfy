/** The FAQ accordion of site.js (`initFaqUi`, `setFaqItemState`): within one
    category opening a question closes the others, and the first question
    starts open. The height and opacity transition is not modelled. */
module Faq {

  /** The questions of one `.faq-category`, in page order. `hasToggle[k]` says
      whether item `k` has both a question and an answer, and so received a
      toggle button; `expanded[k]` is that toggle's `aria-expanded` (with the
      answer's `aria-hidden` and the item's `is-open` class following it). */
  class FaqCategory {
    const hasToggle: seq<bool>
    const expanded: array<bool>

    /** The toggles are the items', an item without one is never open, and
        at most one item is open. */
    predicate Valid()
      reads this, expanded
    {
      && expanded.Length == |hasToggle|
      && (forall k :: 0 <= k < expanded.Length && !hasToggle[k] ==> !expanded[k])
      && (forall a, b :: 0 <= a < b < expanded.Length ==> !(expanded[a] && expanded[b]))
    }

    /** Set-up: each item with a toggle is set to open exactly when it is the
        category's first item. */
    constructor (hasToggle: seq<bool>)
      ensures Valid() && this.hasToggle == hasToggle && fresh(expanded)
      ensures forall k :: 0 <= k < expanded.Length ==> expanded[k] == (k == 0 && hasToggle[k])
    {
      this.hasToggle := hasToggle;
      expanded := new bool[|hasToggle|](k requires 0 <= k < |hasToggle| => k == 0 && hasToggle[k]);
    }

    /** A click on the toggle of item `i`: if it was closed, every other item
        is closed first; then item `i` flips. */
    method Click(i: nat)
      requires Valid() && i < expanded.Length && hasToggle[i]
      modifies expanded
      ensures Valid()
      ensures expanded[i] == !old(expanded[i])
      ensures forall k :: 0 <= k < expanded.Length && k != i ==>
                expanded[k] == (old(expanded[k]) && old(expanded[i]))
    {
      var willExpand := !expanded[i];
      if willExpand {
        var k := 0;
        while k < expanded.Length
          invariant 0 <= k <= expanded.Length
          invariant forall m :: 0 <= m < k && m != i ==> !expanded[m]
          invariant forall m :: k <= m < expanded.Length || m == i ==> 0 <= m < expanded.Length ==> expanded[m] == old(expanded[m])
        {
          if k != i && hasToggle[k] {
            expanded[k] := false;
          }
          k := k + 1;
        }
      }
      expanded[i] := willExpand;
    }
  }

  /** From a state with at most one item open, a click leaves exactly the
      clicked item open when it opens it, and no item open when it closes it. */
  lemma ClickLeavesClickedOrNone(before: seq<bool>, after: seq<bool>, i: nat)
    requires |before| == |after| && i < |before|
    requires forall a, b :: 0 <= a < b < |before| ==> !(before[a] && before[b])
    requires after[i] == !before[i]
    requires forall k :: 0 <= k < |after| && k != i ==> after[k] == (before[k] && before[i])
    ensures forall k :: 0 <= k < |after| ==> after[k] == (k == i && !before[i])
  {
    forall k | 0 <= k < |after| && k != i
      ensures !after[k]
    {
      if k < i {
        assert !(before[k] && before[i]);
      } else {
        assert !(before[i] && before[k]);
      }
    }
  }
}
