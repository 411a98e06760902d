/**
 * The state machine of one section of the editable board (`SectionViewV10`,
 * of which the earlier drag-and-drop sections are restrictions): its content,
 * the board's handlers, the collapse state, the recorded dragged id and the
 * handler calls made so far.
 */
module Section {
  import opened Wrappers
  import opened Offsets
  import opened Collapse
  import opened Editing

  /** The visible prefix of a content list consists of its first elements. */
  lemma VisibleIsLeading(content: seq<Subview>, maxItemCount: Option<nat>, isExpanded: bool, k: nat)
    requires k < |VisibleItems(content, maxItemCount, isExpanded)|
    ensures k < |content| && VisibleItems(content, maxItemCount, isExpanded)[k] == content[k]
    ensures Ids(content)[k] == content[k].id
  {
    var v := VisibleItems(content, maxItemCount, isExpanded);
    assert v == content[..|v|];
  }

  class SectionView {
    /** The section's subviews, which the board re-supplies after its data changes. */
    var content: seq<Subview>
    const board: Handlers
    const maxItemCount: Option<nat>
    var isExpanded: bool
    var draggedView: Option<Id>
    /** The handlers invoked so far, oldest first. */
    var calls: seq<Call>

    constructor (content: seq<Subview>, board: Handlers, maxItemCount: Option<nat>)
      ensures this.content == content && this.board == board && this.maxItemCount == maxItemCount
      ensures !isExpanded && draggedView == None && calls == []
    {
      this.content := content;
      this.board := board;
      this.maxItemCount := maxItemCount;
      isExpanded := false;
      draggedView := None;
      calls := [];
    }

    /** The subviews that get a card, in order. */
    function Visible(): seq<Subview>
      reads this
    {
      VisibleItems(content, maxItemCount, isExpanded)
    }

    /** The toggle button, if shown. */
    function Button(): Option<ToggleLabel>
      reads this
    {
      ToggleButton(|content|, maxItemCount, isExpanded)
    }

    /** Pressing the toggle button flips `isExpanded` and nothing else. */
    method Toggle()
      requires Button().Some?
      modifies this
      ensures MoreItemsAvailable(|content|, maxItemCount)
      ensures isExpanded == !old(isExpanded)
      ensures Button() == Some(if isExpanded then HideLabel else MoreLabel)
      ensures content == old(content) && draggedView == old(draggedView) && calls == old(calls)
    {
      isExpanded := !isExpanded;
    }

    /** Starting a drag on the `k`-th card records that subview's id and nothing else. */
    method BeginDrag(k: nat)
      requires k < |Visible()| && DragDropAttached(Visible()[k].values, board)
      modifies this
      ensures draggedView == Some(old(Visible())[k].id)
      ensures content == old(content) && isExpanded == old(isExpanded) && calls == old(calls)
    {
      draggedView := Some(Visible()[k].id);
    }

    /**
     * A drop onto the `k`-th card. It is refused (false, no handler runs)
     * exactly when no dragged id is recorded or it is no longer in the
     * content. Otherwise exactly one handler runs, with the first offsets of
     * the dragged and target ids in the full, untruncated content, and the
     * drop reports true.
     */
    method Drop(k: nat) returns (ok: bool)
      requires k < |Visible()| && DragDropAttached(Visible()[k].values, board)
      modifies this
      ensures !ok <==> old(draggedView).None? || old(draggedView).value !in Ids(content)
      ensures var target := old(Visible())[k];
        var r := Resolve(Ids(content), draggedView, target.id);
        ok == r.Some? &&
        calls == old(calls) + (if ok then [Dispatch(target, board, r.value.0, r.value.1)] else [])
      ensures content == old(content) && isExpanded == old(isExpanded) && draggedView == old(draggedView)
    {
      var target := Visible()[k];
      VisibleIsLeading(content, maxItemCount, isExpanded, k);
      DropFailsOnlyOnDragged(Ids(content), draggedView, k);
      var r := Resolve(Ids(content), draggedView, target.id);
      if r.None? {
        ok := false;
      } else {
        var (from, to) := r.value;
        calls := calls + [Dispatch(target, board, from, to)];
        ok := true;
      }
    }

    /** Deleting the `k`-th card runs its delete closure, and only that. */
    method Delete(k: nat)
      requires k < |Visible()| && DeleteAction(content, Visible()[k], board).Some?
      modifies this
      ensures content == old(content) && isExpanded == old(isExpanded) && draggedView == old(draggedView)
      ensures calls == old(calls) + [DeleteAction(content, old(Visible())[k], board).value]
    {
      calls := calls + [DeleteAction(content, Visible()[k], board).value];
    }

    /**
     * The board re-renders the section with new content (its data changed);
     * the section's own state, including a stale dragged id, survives.
     */
    method Refresh(newContent: seq<Subview>)
      modifies this
      ensures content == newContent
      ensures isExpanded == old(isExpanded) && draggedView == old(draggedView) && calls == old(calls)
    {
      content := newContent;
    }
  }
}
