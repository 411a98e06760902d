/**
 * The editing rules shared by the drag-and-drop and delete section views:
 * the per-item container values, the board's optional handlers, the drop
 * resolution by first-index lookup, handler precedence and the delete
 * affordance of a card.
 *
 * User closures are opaque: a `Call` records which handler ran with which
 * offsets, never its effect.
 */
module Editing {
  import opened Wrappers
  import opened Offsets

  /** A subview id (the demo identifies items by their `Int` value). */
  type Id = int

  /**
   * The per-item container values a card consults: `itemMoveDisabled`,
   * whether a `movable` closure is set, `itemDeleteDisable`, whether a
   * `deletable` closure is set.
   */
  datatype ItemValues = ItemValues(moveDisabled: bool, movable: bool, deleteDisabled: bool, deletable: bool)

  /** The entries' defaults: nothing disabled, no per-item closure. */
  const DefaultValues := ItemValues(false, false, false, false)

  datatype Subview = Subview(id: Id, values: ItemValues)

  /** Whether the board supplied its `onDrop` and `onDelete` closures. */
  datatype Handlers = Handlers(onDrop: bool, onDelete: bool)

  /** What the non-binding initialisers supply: neither closure. */
  const NoHandlers := Handlers(false, false)

  /** The members of `EditActions`. */
  datatype EditAction = Move | Delete

  /** `.all`, the default of the binding initialisers. */
  const AllEditActions: set<EditAction> := {Move, Delete}

  /** A handler invocation, with the offsets it was given. */
  datatype Call =
    | BoardDrop(from: nat, to: nat)
    | ItemMovable(item: Id, from: nat, to: nat)
    | BoardDelete(index: nat)
    | ItemDeletable(item: Id, index: nat)

  /** The ids of a subview collection, in order. */
  function Ids(content: seq<Subview>): seq<Id>
  {
    seq(|content|, i requires 0 <= i < |content| => content[i].id)
  }

  /**
   * The guard of every drop closure: `from` is the first offset of the dragged
   * id and `to` the first offset of the target id, both in the full list of
   * ids; a missing dragged id (including none recorded) or target id refuses
   * the drop.
   */
  function Resolve(ids: seq<Id>, dragged: Option<Id>, target: Id): (r: Option<(nat, nat)>)
    ensures r.Some? <==> dragged.Some? && dragged.value in ids && target in ids
    ensures r.Some? ==>
      && r.value.0 < |ids| && ids[r.value.0] == dragged.value
      && r.value.1 < |ids| && ids[r.value.1] == target
    ensures r.Some? ==> forall j :: 0 <= j < r.value.0 ==> ids[j] != dragged.value
    ensures r.Some? ==> forall j :: 0 <= j < r.value.1 ==> ids[j] != target
  {
    match dragged
    case None => None
    case Some(d) =>
      match (FirstIndex(ids, d), FirstIndex(ids, target))
      case (Some(from), Some(to)) => Some((from, to))
      case _ => None
  }

  /** A card gets drag and drop when some move handler exists and it is not move-disabled. */
  predicate DragDropAttached(values: ItemValues, board: Handlers) {
    (board.onDrop || values.movable) && !values.moveDisabled
  }

  /**
   * The handler a successful drop onto `target` runs: the target card's own
   * `movable` when set, otherwise the board's `onDrop`; exactly one of them.
   */
  function Dispatch(target: Subview, board: Handlers, from: nat, to: nat): Call
    requires target.values.movable || board.onDrop
  {
    if target.values.movable then ItemMovable(target.id, from, to) else BoardDrop(from, to)
  }

  /**
   * The delete closure a card gets, as the call it makes: none when the card
   * is delete-disabled, no delete handler exists or its id is not found;
   * otherwise the call with the card's first offset in the full list,
   * preferring the card's own `deletable` over the board's `onDelete`.
   */
  function DeleteAction(content: seq<Subview>, sub: Subview, board: Handlers): (r: Option<Call>)
    ensures r.Some? <==>
      !sub.values.deleteDisabled && (sub.values.deletable || board.onDelete) && sub.id in Ids(content)
    ensures r.Some? ==>
      && (r.value.ItemDeletable? || r.value.BoardDelete?)
      && (r.value.ItemDeletable? <==> sub.values.deletable)
      && (r.value.ItemDeletable? ==> r.value.item == sub.id)
      && r.value.index < |content| && content[r.value.index].id == sub.id
    ensures r.Some? ==> forall j :: 0 <= j < r.value.index ==> content[j].id != sub.id
  {
    if (board.onDelete || sub.values.deletable) && !sub.values.deleteDisabled then
      match FirstIndex(Ids(content), sub.id)
      case Some(index) =>
        assert forall j :: 0 <= j < index ==> Ids(content)[j] == content[j].id;
        if sub.values.deletable then Some(ItemDeletable(sub.id, index))
        else if board.onDelete then Some(BoardDelete(index))
        else None
      case None => None
    else
      None
  }

  /**
   * With the default container values every decision defers to the board:
   * drag and drop is attached iff `onDrop` exists, a drop runs `onDrop`, and
   * a delete closure exists iff `onDelete` does and the id is found.
   */
  lemma DefaultsDeferToBoard(content: seq<Subview>, id: Id, board: Handlers, from: nat, to: nat)
    ensures DragDropAttached(DefaultValues, board) <==> board.onDrop
    ensures board.onDrop ==> Dispatch(Subview(id, DefaultValues), board, from, to) == BoardDrop(from, to)
    ensures DeleteAction(content, Subview(id, DefaultValues), board).Some? <==> board.onDelete && id in Ids(content)
  {
  }

  /**
   * Exactly one handler runs on a successful drop. A card's own `movable`
   * overrides the board: the call is the same whatever the board supplies.
   * Only a card without one falls back to the board's `onDrop`.
   */
  lemma CustomActionFirst(target: Subview, board: Handlers, other: Handlers, from: nat, to: nat)
    requires target.values.movable || board.onDrop
    ensures target.values.movable ==>
      Dispatch(target, board, from, to) == Dispatch(target, other, from, to) == ItemMovable(target.id, from, to)
    ensures !target.values.movable ==> board.onDrop && Dispatch(target, board, from, to) == BoardDrop(from, to)
  {
  }

  /** A move-disabled card never gets drag and drop, whatever handlers exist. */
  lemma MoveDisabledNeverAttached(values: ItemValues, board: Handlers)
    requires values.moveDisabled
    ensures !DragDropAttached(values, board)
  {
  }

  /**
   * A drop whose target is in the list fails only because of the dragged id:
   * it succeeds exactly when a dragged id is recorded and still in the list.
   */
  lemma {:induction false} DropFailsOnlyOnDragged(ids: seq<Id>, dragged: Option<Id>, k: nat)
    requires k < |ids|
    ensures Resolve(ids, dragged, ids[k]).None? <==> dragged.None? || dragged.value !in ids
  {
    assert ids[k] in ids;
  }
}
