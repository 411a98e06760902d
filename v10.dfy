/**
 * `BoardViewV10` built from a binding: the edit actions gate both board
 * handlers, and the section's drop and delete closures reach the bound
 * collection through them.
 */
module V10 {
  import opened Wrappers
  import opened Offsets
  import opened Collapse
  import opened Editing
  import opened Section
  import opened Binding

  /** The binding initialiser's handlers: `onDelete` iff `.delete`, `onDrop` iff `.move`. */
  function BindingHandlers(editActions: set<EditAction>): Handlers
  {
    Handlers(Move in editActions, Delete in editActions)
  }

  /**
   * For rows that set no container values, a card is draggable exactly when
   * the edit actions contain `.move` and has a delete closure exactly when
   * they contain `.delete` (and its id is found); `.all` enables both.
   */
  lemma EditActionGating(editActions: set<EditAction>, content: seq<Subview>, id: Id)
    ensures DragDropAttached(DefaultValues, BindingHandlers(editActions)) <==> Move in editActions
    ensures DeleteAction(content, Subview(id, DefaultValues), BindingHandlers(editActions)).Some?
      <==> Delete in editActions && id in Ids(content)
    ensures BindingHandlers(AllEditActions) == Handlers(true, true)
  {
    DefaultsDeferToBoard(content, id, BindingHandlers(editActions), 0, 0);
  }

  /**
   * The recorded dragged id is never cleared: once its row is deleted, every
   * later drop is refused until a new drag starts.
   */
  lemma {:induction false} StaleDragRefused(data: seq<Id>, i: nat, target: Id)
    requires Distinct(data) && i < |data|
    ensures Resolve(RemoveAt(data, i), Some(data[i]), target) == None
  {
    RemoveFromDistinct(data, i);
  }

  /** A board built from a binding, with the one section that shows its rows. */
  class EditableBoard {
    const bound: BoundCollection
    const section: SectionView
    const rowValues: Id -> ItemValues
    const editActions: set<EditAction>

    ghost predicate Valid()
      reads this, bound, section
    {
      && bound.Valid()
      && section.content == Rows(bound.data, rowValues)
      && section.board == BindingHandlers(editActions)
    }

    constructor (data: seq<Id>, rowValues: Id -> ItemValues, editActions: set<EditAction>, maxItemCount: Option<nat>)
      requires Distinct(data)
      ensures Valid() && fresh(bound) && fresh(section)
      ensures this.rowValues == rowValues && this.editActions == editActions
      ensures bound.data == data && section.maxItemCount == maxItemCount
      ensures !section.isExpanded && section.draggedView == None && section.calls == []
    {
      this.rowValues := rowValues;
      this.editActions := editActions;
      bound := new BoundCollection(data);
      section := new SectionView(Rows(data, rowValues), BindingHandlers(editActions), maxItemCount);
    }

    /**
     * A drop onto the `k`-th card. It succeeds exactly when the recorded
     * dragged id is still a row. When the target has no `movable` of its own
     * the board's `onDrop` moves the dragged row to offset `k`, keeping the
     * others in order; with `movable` the call is only recorded and the board
     * leaves its data alone. The section then shows the new rows.
     */
    method DropOnto(k: nat) returns (ok: bool)
      requires Valid()
      requires k < |section.Visible()| && DragDropAttached(section.Visible()[k].values, section.board)
      modifies bound, section
      ensures Valid()
      ensures ok <==> old(section.draggedView).Some? && old(section.draggedView).value in old(bound.data)
      ensures !ok ==> section.calls == old(section.calls)
      ensures ok ==>
        var target := old(section.Visible())[k];
        var from := FirstIndex(old(bound.data), old(section.draggedView).value).value;
        section.calls == old(section.calls) +
          [if target.values.movable then ItemMovable(target.id, from, k) else BoardDrop(from, k)]
      ensures |bound.data| == |old(bound.data)|
      ensures !ok ==> bound.data == old(bound.data)
      ensures ok && !old(section.Visible())[k].values.movable ==>
        && bound.data[k] == old(section.draggedView).value
        && multiset(bound.data) == multiset(old(bound.data))
        && RemoveAt(bound.data, k) == RemoveAt(old(bound.data), FirstIndex(old(bound.data), old(section.draggedView).value).value)
      ensures ok && old(section.Visible())[k].values.movable ==> bound.data == old(bound.data)
      ensures section.draggedView == old(section.draggedView) && section.isExpanded == old(section.isExpanded)
    {
      VisibleIsLeading(section.content, section.maxItemCount, section.isExpanded, k);
      FirstIndexOfDistinct(bound.data, k);
      ok := section.Drop(k);
      if ok {
        var c := section.calls[|section.calls| - 1];
        if c.BoardDrop? {
          bound.Move(c.from, c.to);
        }
        section.Refresh(Rows(bound.data, rowValues));
      }
    }

    /**
     * Deleting the `k`-th card. Without a `deletable` of its own the board's
     * `onDelete` removes exactly that row; with one the call is only recorded.
     */
    method DeleteCard(k: nat)
      requires Valid()
      requires k < |section.Visible()| && DeleteAction(section.content, section.Visible()[k], section.board).Some?
      modifies bound, section
      ensures Valid()
      ensures section.calls == old(section.calls) +
        [if old(section.Visible())[k].values.deletable then ItemDeletable(old(bound.data)[k], k) else BoardDelete(k)]
      ensures !old(section.Visible())[k].values.deletable ==>
        && bound.data == RemoveAt(old(bound.data), k)
        && old(bound.data)[k] !in bound.data
      ensures old(section.Visible())[k].values.deletable ==> bound.data == old(bound.data)
      ensures section.draggedView == old(section.draggedView) && section.isExpanded == old(section.isExpanded)
    {
      VisibleIsLeading(section.content, section.maxItemCount, section.isExpanded, k);
      FirstIndexOfDistinct(bound.data, k);
      section.Delete(k);
      var c := section.calls[|section.calls| - 1];
      if c.BoardDelete? {
        bound.Remove(c.index);
      }
      section.Refresh(Rows(bound.data, rowValues));
    }
  }
}
