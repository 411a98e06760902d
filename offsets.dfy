/**
 * Single-offset collection operations used by the section views and the
 * board's binding closures: first-index lookup, `remove(atOffsets:)` and
 * `move(fromOffsets:toOffset:)` with a one-element offset set, following the
 * framework's documented semantics (the moved element is inserted before the
 * element that was originally at the destination offset).
 */
module Offsets {
  import opened Wrappers

  /** No element occurs twice (the ids of a `ForEach` are meant to be unique). */
  predicate Distinct<T(==)>(s: seq<T>) {
    forall i, j :: 0 <= i < j < |s| ==> s[i] != s[j]
  }

  /** `firstIndex(where: { $0 == x })`: the offset of the first element equal to `x`. */
  function FirstIndex<T(==)>(s: seq<T>, x: T): (r: Option<nat>)
    ensures r.None? <==> x !in s
    ensures r.Some? ==> r.value < |s| && s[r.value] == x
    ensures r.Some? ==> forall j :: 0 <= j < r.value ==> s[j] != x
  {
    if s == [] then None
    else if s[0] == x then Some(0)
    else
      assert s == [s[0]] + s[1..];
      match FirstIndex(s[1..], x)
      case None => None
      case Some(i) =>
        Some(i + 1)
  }

  /** `remove(atOffsets: IndexSet(integer: i))`. */
  function RemoveAt<T>(s: seq<T>, i: nat): (r: seq<T>)
    requires i < |s|
    ensures |r| == |s| - 1
    ensures forall j :: 0 <= j < i ==> r[j] == s[j]
    ensures forall j :: i <= j < |r| ==> r[j] == s[j + 1]
  {
    s[..i] + s[i + 1..]
  }

  /** Inserting `x` so that it ends up at offset `i`. */
  function InsertAt<T>(s: seq<T>, i: nat, x: T): (r: seq<T>)
    requires i <= |s|
    ensures |r| == |s| + 1 && r[i] == x
    ensures forall j :: 0 <= j < i ==> r[j] == s[j]
    ensures forall j :: i < j < |r| ==> r[j] == s[j - 1]
  {
    s[..i] + [x] + s[i..]
  }

  /** The offset at which `move` leaves the element taken from `from`. */
  function Landing(from: nat, dest: nat): nat {
    if dest > from then dest - 1 else dest
  }

  /**
   * `move(fromOffsets: IndexSet(integer: from), toOffset: dest)`: the element at
   * `from` is inserted before the element originally at `dest` (`dest == |s|`
   * appends it).
   */
  function MoveOne<T>(s: seq<T>, from: nat, dest: nat): (r: seq<T>)
    requires from < |s| && dest <= |s|
    ensures |r| == |s|
    ensures r[Landing(from, dest)] == s[from]
    ensures multiset(r) == multiset(s)
  {
    if dest > from then
      assert s == s[..from] + [s[from]] + s[from + 1..dest] + s[dest..];
      s[..from] + s[from + 1..dest] + [s[from]] + s[dest..]
    else
      assert s == s[..dest] + s[dest..from] + [s[from]] + s[from + 1..];
      s[..dest] + [s[from]] + s[dest..from] + s[from + 1..]
  }

  /** The destination offset the binding closures pass to `move` for a drop from `from` onto `to`. */
  function DropDestination(from: nat, to: nat): nat {
    if to > from then to + 1 else to
  }

  /** Removing what was just inserted gives back the original sequence. */
  lemma RemoveInsertRoundTrip<T>(s: seq<T>, i: nat, x: T)
    requires i <= |s|
    ensures RemoveAt(InsertAt(s, i, x), i) == s
  {
    var r := RemoveAt(InsertAt(s, i, x), i);
    assert |r| == |s|;
    forall j | 0 <= j < |s| ensures r[j] == s[j] {
      if j >= i {
        assert r[j] == InsertAt(s, i, x)[j + 1];
      }
    }
  }

  /** Re-inserting a removed element where it was gives back the original sequence. */
  lemma InsertRemoveRoundTrip<T>(s: seq<T>, i: nat)
    requires i < |s|
    ensures InsertAt(RemoveAt(s, i), i, s[i]) == s
  {
    var r := InsertAt(RemoveAt(s, i), i, s[i]);
    assert |r| == |s|;
    forall j | 0 <= j < |s| ensures r[j] == s[j] {
      if j > i {
        assert r[j] == RemoveAt(s, i)[j - 1];
      }
    }
  }

  /**
   * The reference reading of `move`: take the element out, then insert it at its
   * landing offset.
   */
  lemma MoveIsRemoveThenInsert<T>(s: seq<T>, from: nat, dest: nat)
    requires from < |s| && dest <= |s|
    ensures Landing(from, dest) <= |s| - 1
    ensures MoveOne(s, from, dest) == InsertAt(RemoveAt(s, from), Landing(from, dest), s[from])
  {
    var m := MoveOne(s, from, dest);
    var l := Landing(from, dest);
    var q := InsertAt(RemoveAt(s, from), l, s[from]);
    assert |m| == |q|;
    forall j | 0 <= j < |s| ensures m[j] == q[j] {
      if dest > from {
        if j < from {
        } else if j < l {
          assert m[j] == s[j + 1];
        } else if j == l {
        } else {
          assert m[j] == s[j];
        }
      } else {
        if j < l {
        } else if j == l {
        } else if j <= from {
          assert m[j] == s[j - 1];
        } else {
          assert m[j] == s[j];
        }
      }
    }
  }

  /** Every element other than the moved one keeps its relative order. */
  lemma MoveKeepsOthersInOrder<T>(s: seq<T>, from: nat, dest: nat)
    requires from < |s| && dest <= |s|
    ensures Landing(from, dest) < |s|
    ensures RemoveAt(MoveOne(s, from, dest), Landing(from, dest)) == RemoveAt(s, from)
  {
    MoveIsRemoveThenInsert(s, from, dest);
    RemoveInsertRoundTrip(RemoveAt(s, from), Landing(from, dest), s[from]);
  }

  /** Moving onto its own offset, or just after it, changes nothing. */
  lemma MoveInPlace<T>(s: seq<T>, from: nat, dest: nat)
    requires from < |s| && (dest == from || dest == from + 1)
    ensures MoveOne(s, from, dest) == s
  {
    MoveIsRemoveThenInsert(s, from, dest);
    InsertRemoveRoundTrip(s, from);
  }

  /**
   * The binding closures' destination makes the dragged element land exactly on
   * the target offset, keeps the other elements in order, and a drop onto itself
   * is the identity.
   */
  lemma {:induction false} DropLandsOnTarget<T>(s: seq<T>, from: nat, to: nat)
    requires from < |s| && to < |s|
    ensures DropDestination(from, to) <= |s|
    ensures Landing(from, DropDestination(from, to)) == to
    ensures MoveOne(s, from, DropDestination(from, to))[to] == s[from]
    ensures RemoveAt(MoveOne(s, from, DropDestination(from, to)), to) == RemoveAt(s, from)
    ensures from == to ==> MoveOne(s, from, DropDestination(from, to)) == s
  {
    MoveKeepsOthersInOrder(s, from, DropDestination(from, to));
    if from == to {
      MoveInPlace(s, from, to);
    }
  }

  /** In a sequence without duplicates the lookup of an element finds its own offset. */
  lemma FirstIndexOfDistinct<T>(s: seq<T>, k: nat)
    requires Distinct(s) && k < |s|
    ensures FirstIndex(s, s[k]) == Some(k)
  {
    var r := FirstIndex(s, s[k]);
    assert s[r.value] == s[k];
  }

  /** Removal keeps a sequence duplicate-free and drops the removed element entirely. */
  lemma RemoveFromDistinct<T>(s: seq<T>, i: nat)
    requires Distinct(s) && i < |s|
    ensures Distinct(RemoveAt(s, i))
    ensures s[i] !in RemoveAt(s, i)
  {
    var r := RemoveAt(s, i);
    forall a, b | 0 <= a < b < |r| ensures r[a] != r[b] {
      var a' := if a < i then a else a + 1;
      var b' := if b < i then b else b + 1;
      assert r[a] == s[a'] && r[b] == s[b'] && a' < b';
    }
  }

  /** Inserting a fresh element keeps a sequence duplicate-free. */
  lemma InsertIntoDistinct<T>(s: seq<T>, i: nat, x: T)
    requires Distinct(s) && i <= |s| && x !in s
    ensures Distinct(InsertAt(s, i, x))
  {
    var r := InsertAt(s, i, x);
    forall a, b | 0 <= a < b < |r| ensures r[a] != r[b] {
      if a == i {
        assert r[b] == s[b - 1];
      } else if b == i {
        assert r[a] == s[a];
      } else {
        var a' := if a < i then a else a - 1;
        var b' := if b < i then b else b - 1;
        assert r[a] == s[a'] && r[b] == s[b'] && a' < b';
      }
    }
  }

  /** A move keeps a sequence duplicate-free. */
  lemma MoveKeepsDistinct<T>(s: seq<T>, from: nat, dest: nat)
    requires Distinct(s) && from < |s| && dest <= |s|
    ensures Distinct(MoveOne(s, from, dest))
  {
    MoveIsRemoveThenInsert(s, from, dest);
    RemoveFromDistinct(s, from);
    InsertIntoDistinct(RemoveAt(s, from), Landing(from, dest), s[from]);
  }
}
