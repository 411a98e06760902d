/** `BoardViewV4`: every section it builds gets the same fixed settings. */
module V4 {
  import opened Wrappers
  import opened Collapse

  /** The limit the board hands each section: always nil, whatever the section declares. */
  const BoardMaxItemCount: Option<nat> := None

  /** So a V4 board section shows all its items and never offers the toggle button. */
  lemma BoardSectionsShowAll<T>(section: seq<T>, isExpanded: bool)
    ensures VisibleItems(section, BoardMaxItemCount, isExpanded) == section
    ensures ToggleButton(|section|, BoardMaxItemCount, isExpanded) == None
  {
    NoLimitShowsAll(section, isExpanded);
  }
}
