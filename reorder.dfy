/** Drag-and-drop reordering. `handleDrop` copies the list and applies two
    `splice` calls to the copy: one removes the dragged card, the other
    inserts it at the target's original index. `Moved` is that splice-move
    on a sequence; `MoveInPlace` does the same on an array, in place. */
module Reorder {
  import opened Cards
  import opened Collection

  /** `s.splice(i, 1)`: `s` without its element at `i`. */
  function Remove<T>(s: seq<T>, i: nat): (r: seq<T>)
    requires i < |s|
    ensures |r| == |s| - 1
  {
    s[..i] + s[i + 1..]
  }

  /** `s.splice(i, 0, x)`: `x` inserted so that it ends at index `i`. */
  function Insert<T>(s: seq<T>, i: nat, x: T): (r: seq<T>)
    requires i <= |s|
    ensures |r| == |s| + 1 && r[i] == x
  {
    s[..i] + [x] + s[i..]
  }

  /** The two splices of `handleDrop`: take the element at `from` out, then
      put it back in at index `to` of the shortened list. */
  function Moved<T>(s: seq<T>, from: nat, to: nat): (r: seq<T>)
    requires from < |s| && to < |s|
    ensures |r| == |s| && r[to] == s[from]
  {
    Insert(Remove(s, from), to, s[from])
  }

  /** The index of `s` that ends up at index `i` after the move. */
  function MovedSource(from: nat, to: nat, i: nat): nat {
    if i == to then from
    else if i < to then (if i < from then i else i + 1)
    else (if i <= from then i - 1 else i)
  }

  /** Element by element: the moved element lands at `to`; the elements
      between the two positions shift by one towards `from`; the rest stay. */
  lemma MovedAt<T>(s: seq<T>, from: nat, to: nat, i: nat)
    requires from < |s| && to < |s| && i < |s|
    ensures |Moved(s, from, to)| == |s|
    ensures MovedSource(from, to, i) < |s|
    ensures Moved(s, from, to)[i] == s[MovedSource(from, to, i)]
  {
    var r := Remove(s, from);
    assert forall j :: 0 <= j < |r| ==> r[j] == (if j < from then s[j] else s[j + 1]);
    var m := Insert(r, to, s[from]);
    assert forall j :: 0 <= j < |m| ==>
      m[j] == (if j < to then r[j] else if j == to then s[from] else r[j - 1]);
  }

  /** The move is a permutation: same length, same multiset of elements. */
  lemma MovedIsPermutation<T>(s: seq<T>, from: nat, to: nat)
    requires from < |s| && to < |s|
    ensures |Moved(s, from, to)| == |s|
    ensures multiset(Moved(s, from, to)) == multiset(s)
  {
    var r := Remove(s, from);
    assert s == s[..from] + [s[from]] + s[from + 1..];
    assert multiset(s) == multiset(r) + multiset{s[from]};
    assert r == r[..to] + r[to..];
    assert multiset(Moved(s, from, to)) == multiset(r[..to]) + multiset{s[from]} + multiset(r[to..]);
  }

  /** Taking the moved element back out of the result gives the original
      list without it: every other element keeps its relative order. */
  lemma MovedKeepsOthersInOrder<T>(s: seq<T>, from: nat, to: nat)
    requires from < |s| && to < |s|
    ensures Moved(s, from, to)[to] == s[from]
    ensures Remove(Moved(s, from, to), to) == Remove(s, from)
  {
    var r := Remove(s, from);
    var m := Moved(s, from, to);
    assert m[..to] == r[..to];
    assert m[to + 1..] == r[to..];
    assert r == r[..to] + r[to..];
  }

  /** `MoveInPlace` on an array does what the two splices do on a copy: it
      shifts the elements between the two positions by one and writes the
      moved element at `to`. */
  method MoveInPlace<T>(a: array<T>, from: nat, to: nat)
    requires from < a.Length && to < a.Length
    modifies a
    ensures a[..] == Moved(old(a[..]), from, to)
  {
    ghost var orig := a[..];
    var moved := a[from];
    if from < to {
      var k := from;
      while k < to
        invariant from <= k <= to
        invariant forall i :: 0 <= i < from ==> a[i] == orig[i]
        invariant forall i :: from <= i < k ==> a[i] == orig[i + 1]
        invariant forall i :: k <= i < a.Length ==> a[i] == orig[i]
      {
        a[k] := a[k + 1];
        k := k + 1;
      }
    } else {
      var k := from;
      while k > to
        invariant to <= k <= from
        invariant forall i :: 0 <= i <= k ==> a[i] == orig[i]
        invariant forall i :: k < i <= from ==> a[i] == orig[i - 1]
        invariant forall i :: from < i < a.Length ==> a[i] == orig[i]
      {
        a[k] := a[k - 1];
        k := k - 1;
      }
    }
    a[to] := moved;
    forall i | 0 <= i < a.Length ensures a[..][i] == Moved(orig, from, to)[i] {
      MovedAt(orig, from, to, i);
    }
  }

  /** How `Array.prototype.splice` turns its start argument into an index
      (section 23.1.3.31 of ECMA-262): a negative start counts from the end
      and is clamped at 0, a start past the end is clamped at the length. */
  function SpliceStart(start: int, len: nat): (k: nat)
    ensures k <= len
    ensures 0 <= start <= len ==> k == start
    ensures start < 0 && len + start >= 0 ==> k == len + start
  {
    if start < 0 then (if len + start < 0 then 0 else len + start)
    else if start > len then len
    else start
  }

  /** The list `handleDrop` stores. With nothing dragged, or when a card is
      dropped onto itself, the list is unchanged; otherwise both indices come
      from `findIndex` and go through `splice`'s start normalisation, so a
      missing id (-1) stands for the last position. */
  function DropResult(cs: seq<Card>, dragged: Option<Card>, target: Card): (r: seq<Card>)
    requires |cs| > 0
    ensures |r| == |cs| && multiset(r) == multiset(cs)
    ensures dragged.None? || dragged.value.id == target.id ==> r == cs
  {
    if dragged.None? || dragged.value.id == target.id then cs
    else
      var from := SpliceStart(FindIndex(cs, dragged.value.id), |cs|);
      var to := SpliceStart(FindIndex(cs, target.id), |cs| - 1);
      MovedIsPermutation(cs, from, to);
      Moved(cs, from, to)
  }

  /** A drop of one present card onto another: the dragged card ends at the
      target's original index, and the other cards keep their relative
      order. */
  lemma DropMovesCardToTarget(cs: seq<Card>, dragged: Card, target: Card)
    requires |cs| > 0 && dragged.id != target.id
    requires dragged.id in IdSet(cs) && target.id in IdSet(cs)
    ensures var di := FindIndex(cs, dragged.id);
            var ti := FindIndex(cs, target.id);
            var r := DropResult(cs, Some(dragged), target);
            0 <= di < |cs| && 0 <= ti < |cs| &&
            r[ti] == cs[di] && r[ti].id == dragged.id &&
            Remove(r, ti) == Remove(cs, di)
  {
    FindIndexFindsIds(cs, dragged.id);
    FindIndexFindsIds(cs, target.id);
    var di := FindIndex(cs, dragged.id);
    var ti := FindIndex(cs, target.id);
    assert DropResult(cs, Some(dragged), target) == Moved(cs, di, ti);
    MovedKeepsOthersInOrder(cs, di, ti);
  }

  /** When the dragged card's id is no longer in the list, `findIndex`
      gives -1 and `splice(-1, 1)` takes out the LAST card, which is then
      inserted at the target's index. */
  lemma DropStaleDraggedMovesLast(cs: seq<Card>, dragged: Card, target: Card)
    requires |cs| > 0 && dragged.id != target.id
    requires dragged.id !in IdSet(cs) && target.id in IdSet(cs)
    ensures var ti := FindIndex(cs, target.id);
            0 <= ti < |cs| &&
            DropResult(cs, Some(dragged), target) == Moved(cs, |cs| - 1, ti)
  {
    FindIndexFindsIds(cs, dragged.id);
    FindIndexFindsIds(cs, target.id);
    var ti := FindIndex(cs, target.id);
    assert FindIndex(cs, dragged.id) == -1;
    assert SpliceStart(-1, |cs|) == |cs| - 1;
    assert SpliceStart(ti, |cs| - 1) == ti;
  }
}
