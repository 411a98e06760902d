/**
 * `SectionViewV6`: every card is draggable and a drop reorders the bound
 * collection itself. Built from a binding with `id: \.self`, the subviews are
 * the elements of `data`, in order.
 */
module V6 {
  import opened Wrappers
  import opened Offsets
  import opened Editing

  class SectionViewV6 {
    var data: seq<Id>
    var draggedId: Option<Id>

    constructor (data: seq<Id>)
      ensures this.data == data && draggedId == None
    {
      this.data := data;
      draggedId := None;
    }

    /** Starting a drag on the `k`-th card records its id; the data is untouched. */
    method BeginDrag(k: nat)
      requires k < |data|
      modifies this
      ensures draggedId == Some(old(data)[k]) && data == old(data)
    {
      draggedId := Some(data[k]);
    }

    /**
     * A drop onto the `k`-th card: refused, leaving `data` alone, when the
     * dragged or target id is not found; otherwise `data` is moved in place so
     * that the dragged element lands at the target's first offset, and the
     * drop reports true. With unique ids that offset is `k` itself.
     */
    method Drop(k: nat) returns (ok: bool)
      requires k < |data|
      modifies this
      ensures draggedId == old(draggedId)
      ensures var r := Resolve(old(data), old(draggedId), old(data)[k]);
        && ok == r.Some?
        && data == (if ok then MoveOne(old(data), r.value.0, DropDestination(r.value.0, r.value.1)) else old(data))
        && (ok ==> data[r.value.1] == old(data)[r.value.0])
      ensures ok && Distinct(old(data)) ==> data[k] == old(draggedId).value
    {
      var r := Resolve(data, draggedId, data[k]);
      if r.None? {
        ok := false;
      } else {
        var (from, to) := r.value;
        DropLandsOnTarget(data, from, to);
        if Distinct(data) {
          FirstIndexOfDistinct(data, k);
        }
        data := MoveOne(data, from, DropDestination(from, to));
        ok := true;
      }
    }
  }
}
