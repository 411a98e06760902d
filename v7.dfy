/**
 * `SectionViewV7`: drag and drop through an optional `onDrop`. It is the
 * section of `Section.SectionView` with default item values, no limit and no
 * `onDelete`.
 */
module V7 {
  import opened Wrappers
  import opened Offsets
  import opened Collapse
  import opened Editing

  /** The handlers an initialiser supplies: only the binding one gives an `onDrop`. */
  function InitialiserHandlers(fromBinding: bool): Handlers
  {
    Handlers(fromBinding, false)
  }

  /**
   * Under the V7 configuration every card gets drag and drop exactly when an
   * `onDrop` was supplied, all cards are shown, and a drop calls `onDrop`.
   */
  lemma CardsDraggableIffBinding(content: seq<Subview>, fromBinding: bool, id: Id, from: nat, to: nat)
    ensures DragDropAttached(DefaultValues, InitialiserHandlers(fromBinding)) <==> fromBinding
    ensures VisibleItems(content, None, false) == content
    ensures fromBinding ==> Dispatch(Subview(id, DefaultValues), InitialiserHandlers(fromBinding), from, to) == BoardDrop(from, to)
  {
    DefaultsDeferToBoard(content, id, InitialiserHandlers(fromBinding), from, to);
    NoLimitShowsAll(content, false);
  }

  /**
   * The binding `onDrop` after a successful drop onto the `k`-th row of a
   * collection with unique ids: the dragged element lands at offset `k`, the
   * others keep their order, and the ids stay unique.
   */
  lemma {:induction false} BindingDropLandsOnTarget(data: seq<Id>, dragged: Id, k: nat)
    requires Distinct(data) && k < |data| && dragged in data
    ensures var r := Resolve(data, Some(dragged), data[k]);
      && r.Some? && r.value.1 == k
      && var moved := MoveOne(data, r.value.0, DropDestination(r.value.0, k));
      && moved[k] == dragged
      && RemoveAt(moved, k) == RemoveAt(data, r.value.0)
      && Distinct(moved)
  {
    var r := Resolve(data, Some(dragged), data[k]);
    assert data[k] in data;
    FirstIndexOfDistinct(data, k);
    var from := r.value.0;
    DropLandsOnTarget(data, from, k);
    MoveKeepsDistinct(data, from, DropDestination(from, k));
  }
}
