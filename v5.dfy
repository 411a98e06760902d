/** `BoardViewV5`: sections read their limit from a container value. */
module V5 {
  import opened Wrappers
  import opened Collapse

  /** `SectionViewV5.defaultMaxItemCount`, the default of the `maxItemCount` entry. */
  const DefaultMaxItemCount: Option<nat> := None

  /** The `maxItemCount` a section sees: the value it set with `.maxItemCount(_:)`, else the default. */
  function MaxItemCountValue(setValue: Option<Option<nat>>): Option<nat> {
    if setValue.Some? then setValue.value else DefaultMaxItemCount
  }

  /** A section that never sets the value shows all items and no toggle button. */
  lemma UnsetLimitShowsAll<T>(items: seq<T>, isExpanded: bool)
    ensures VisibleItems(items, MaxItemCountValue(None), isExpanded) == items
    ensures ToggleButton(|items|, MaxItemCountValue(None), isExpanded) == None
  {
    NoLimitShowsAll(items, isExpanded);
  }

  /** A section that sets a limit gets it: collapsed, it shows exactly that many leading items. */
  lemma SetLimitTruncates<T>(items: seq<T>, limit: nat)
    requires |items| > limit
    ensures VisibleItems(items, MaxItemCountValue(Some(Some(limit))), false) == items[..limit]
    ensures ToggleButton(|items|, MaxItemCountValue(Some(Some(limit))), false) == Some(MoreLabel)
  {
  }
}
