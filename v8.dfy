/**
 * `BoardViewV8` and its sections: drag and drop with a per-item `movable`
 * and `itemMoveDisabled`, the collapse rule, and no deletion. A V8 section is
 * `Section.SectionView` whose items leave the delete entries at their
 * defaults and whose board supplies no `onDelete`.
 */
module V8 {
  import opened Wrappers
  import opened Editing

  /** The V8 container values: only the move entries are ever set. */
  predicate MoveOnlyValues(values: ItemValues) {
    !values.deleteDisabled && !values.deletable
  }

  /** The binding initialiser always supplies `onDrop`, and V8 has no `onDelete`. */
  function BindingHandlers(): Handlers
  {
    Handlers(true, false)
  }

  /** The non-binding initialisers supply no handler at all. */
  function PlainHandlers(): Handlers
  {
    NoHandlers
  }

  /** No V8 card ever has a delete closure. */
  lemma NoDeleteAffordance(content: seq<Subview>, sub: Subview, board: Handlers)
    requires MoveOnlyValues(sub.values) && !board.onDelete
    ensures DeleteAction(content, sub, board) == None
  {
  }

  /**
   * On a board built from a binding a card is draggable exactly when it is not
   * move-disabled; on the other boards exactly when it also has `movable`.
   */
  lemma DraggableOnBoards(values: ItemValues)
    ensures DragDropAttached(values, BindingHandlers()) <==> !values.moveDisabled
    ensures DragDropAttached(values, PlainHandlers()) <==> values.movable && !values.moveDisabled
  {
  }
}
