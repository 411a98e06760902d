/**
 * `SectionViewV9`: drag and drop through `onDrop`, deletion through
 * `onDelete`. It is `Section.SectionView` with default item values and no
 * limit.
 */
module V9 {
  import opened Wrappers
  import opened Offsets
  import opened Collapse
  import opened Editing

  /**
   * The handlers of the binding initialiser, as written: `onDelete` only when
   * the edit actions contain `.delete`, but `onDrop` always.
   */
  function BindingHandlers(editActions: set<EditAction>): Handlers
  {
    Handlers(true, Delete in editActions)
  }

  /** A V9 card's delete closure: present when its id is found and `onDelete` exists. */
  function CardDelete(ids: seq<Id>, id: Id, onDelete: bool): (r: Option<Call>)
    ensures r.Some? <==> onDelete && id in ids
    ensures r.Some? ==>
      && r.value.BoardDelete?
      && r.value.index < |ids| && ids[r.value.index] == id
    ensures r.Some? ==> forall j :: 0 <= j < r.value.index ==> ids[j] != id
  {
    match FirstIndex(ids, id)
    case Some(index) => if onDelete then Some(BoardDelete(index)) else None
    case None => None
  }

  /** The general delete rule, at the default container values, is V9's rule. */
  lemma {:induction false} DeleteRuleAtDefaults(content: seq<Subview>, id: Id, board: Handlers)
    ensures DeleteAction(content, Subview(id, DefaultValues), board) == CardDelete(Ids(content), id, board.onDelete)
  {
  }

  /**
   * With edit actions `.delete` only (the set `{Delete}`, which holds no
   * `Move`), every card is still draggable and a drop still calls the moving
   * `onDrop`.
   */
  lemma DeleteOnlyStillDraggable(from: nat, to: nat, id: Id)
    ensures DragDropAttached(DefaultValues, BindingHandlers({Delete}))
    ensures Dispatch(Subview(id, DefaultValues), BindingHandlers({Delete}), from, to) == BoardDrop(from, to)
  {
  }

  /**
   * Deleting the `k`-th row of a collection with unique ids removes exactly
   * that row's id and nothing else.
   */
  lemma {:induction false} BindingDeleteRemovesRow(data: seq<Id>, k: nat)
    requires Distinct(data) && k < |data|
    ensures CardDelete(data, data[k], true) == Some(BoardDelete(k))
    ensures |RemoveAt(data, k)| == |data| - 1 && data[k] !in RemoveAt(data, k)
    ensures multiset(RemoveAt(data, k)) == multiset(data) - multiset{data[k]}
  {
    FirstIndexOfDistinct(data, k);
    RemoveFromDistinct(data, k);
    assert data == data[..k] + [data[k]] + data[k + 1..];
  }
}
