/**
 * The "More"/"Hide" rule of the section views: with an optional
 * `maxItemCount`, a collapsed section shows only the first `maxItemCount`
 * items, and a toggle button appears exactly when some items are hidden from
 * the collapsed view.
 */
module Collapse {
  import opened Wrappers

  /** `moreItemsAvailable`: a limit is set and the items exceed it. */
  predicate MoreItemsAvailable(count: nat, maxItemCount: Option<nat>) {
    maxItemCount.Some? && count > maxItemCount.value
  }

  /**
   * `newSubviews`: collapsed with more items available, the first
   * `maxItemCount` items in their original order; otherwise all of them.
   */
  function VisibleItems<T>(items: seq<T>, maxItemCount: Option<nat>, isExpanded: bool): (r: seq<T>)
    ensures |r| <= |items| && r == items[..|r|]
    ensures MoreItemsAvailable(|items|, maxItemCount) && !isExpanded ==> |r| == maxItemCount.value
    ensures !MoreItemsAvailable(|items|, maxItemCount) || isExpanded ==> r == items
  {
    if maxItemCount.Some? && MoreItemsAvailable(|items|, maxItemCount) && !isExpanded then
      items[..maxItemCount.value]
    else
      items
  }

  /** The two labels the toggle button shows. */
  datatype ToggleLabel = MoreLabel | HideLabel

  /** The toggle button, if it is shown, by the label it carries. */
  function ToggleButton(count: nat, maxItemCount: Option<nat>, isExpanded: bool): Option<ToggleLabel>
  {
    if MoreItemsAvailable(count, maxItemCount) then
      Some(if isExpanded then HideLabel else MoreLabel)
    else
      None
  }

  /** More items are available exactly when the collapsed view leaves some out. */
  lemma MoreItemsIffSomethingHidden<T>(items: seq<T>, maxItemCount: Option<nat>)
    ensures MoreItemsAvailable(|items|, maxItemCount) <==> |VisibleItems(items, maxItemCount, false)| < |items|
  {
  }

  /**
   * Expanding shows the collapsed view followed by exactly the hidden items:
   * the collapsed view is a prefix of the expanded one.
   */
  lemma ExpandRevealsHiddenTail<T>(items: seq<T>, maxItemCount: Option<nat>)
    ensures var shown := VisibleItems(items, maxItemCount, false);
      shown + items[|shown|..] == VisibleItems(items, maxItemCount, true)
  {
    var shown := VisibleItems(items, maxItemCount, false);
    assert shown == items[..|shown|];
  }

  /** Without a limit a section never truncates and never shows the toggle button. */
  lemma NoLimitShowsAll<T>(items: seq<T>, isExpanded: bool)
    ensures VisibleItems(items, None, isExpanded) == items
    ensures ToggleButton(|items|, None, isExpanded) == None
  {
  }

  /**
   * The collapse state of a section view: its subviews, its limit and the
   * `isExpanded` state, which starts out false.
   */
  class CollapsibleSection<T> {
    const subviews: seq<T>
    const maxItemCount: Option<nat>
    var isExpanded: bool

    constructor (subviews: seq<T>, maxItemCount: Option<nat>)
      ensures this.subviews == subviews && this.maxItemCount == maxItemCount
      ensures !isExpanded
    {
      this.subviews := subviews;
      this.maxItemCount := maxItemCount;
      isExpanded := false;
    }

    /** The subviews that get a card, in order. */
    function Visible(): seq<T>
      reads this
    {
      VisibleItems(subviews, maxItemCount, isExpanded)
    }

    /** The toggle button, if it is shown. */
    function Button(): Option<ToggleLabel>
      reads this
    {
      ToggleButton(|subviews|, maxItemCount, isExpanded)
    }

    /**
     * Pressing the button (it exists only when more items are available) flips
     * `isExpanded`; the label then reads "Hide" when expanded and "More"
     * otherwise. Flipping is an involution, so two presses restore the state.
     */
    method Toggle()
      requires Button().Some?
      modifies this
      ensures MoreItemsAvailable(|subviews|, maxItemCount)
      ensures isExpanded == !old(isExpanded)
      ensures Button() == Some(if isExpanded then HideLabel else MoreLabel)
      ensures Visible() == VisibleItems(subviews, maxItemCount, !old(isExpanded))
    {
      isExpanded := !isExpanded;
    }
  }
}
