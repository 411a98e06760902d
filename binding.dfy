/**
 * The collection a board built from a binding edits: its `onDrop` closure
 * moves one element, its `onDelete` closure removes one. Rows are identified
 * by their own value (`id: \.self`), so the section's content ids are the
 * elements of `data`, and `Rows` is that `ForEach`.
 */
module Binding {
  import opened Offsets
  import opened Editing

  /**
   * `ForEach(data, id: \.self) { rowContent($item) }`: one subview per element,
   * in order, whose container values are those its row sets.
   */
  function Rows(data: seq<Id>, rowValues: Id -> ItemValues): (content: seq<Subview>)
    ensures |content| == |data| && Ids(content) == data
    ensures forall i :: 0 <= i < |data| ==> content[i] == Subview(data[i], rowValues(data[i]))
  {
    seq(|data|, i requires 0 <= i < |data| => Subview(data[i], rowValues(data[i])))
  }

  class BoundCollection {
    var data: seq<Id>

    /** The rows' ids stay unique. */
    ghost predicate Valid()
      reads this
    {
      Distinct(data)
    }

    constructor (data: seq<Id>)
      requires Distinct(data)
      ensures Valid() && this.data == data
    {
      this.data := data;
    }

    /**
     * The binding `onDrop`: `move(fromOffsets: [from], toOffset: to > from ? to + 1 : to)`.
     * The element taken from `from` ends at `to`, the others keep their order,
     * nothing is lost or duplicated.
     */
    method Move(from: nat, to: nat)
      requires Valid() && from < |data| && to < |data|
      modifies this
      ensures Valid()
      ensures data == MoveOne(old(data), from, DropDestination(from, to))
      ensures |data| == |old(data)| && multiset(data) == multiset(old(data))
      ensures data[to] == old(data)[from]
      ensures RemoveAt(data, to) == RemoveAt(old(data), from)
    {
      DropLandsOnTarget(data, from, to);
      MoveKeepsDistinct(data, from, DropDestination(from, to));
      data := MoveOne(data, from, DropDestination(from, to));
    }

    /** The binding `onDelete`: `remove(atOffsets: [index])`, exactly that element. */
    method Remove(index: nat)
      requires Valid() && index < |data|
      modifies this
      ensures Valid()
      ensures data == RemoveAt(old(data), index)
      ensures old(data)[index] !in data
    {
      RemoveFromDistinct(data, index);
      data := RemoveAt(data, index);
    }
  }
}
