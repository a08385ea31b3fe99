/** The stage reorder of the configuration screen: copy the list, `splice` one
    element out at the source index, `splice` it back in at the destination
    index. Indices are those the drag library reports for one list, so both lie
    inside the list. */
module Reorder {
  import opened Seqs

  /** `a.splice(i, 1)` on a copy: the list without its element at `i`. */
  function RemoveAt<T>(s: seq<T>, i: nat): (r: seq<T>)
    requires i < |s|
    ensures |r| == |s| - 1
    ensures forall k :: 0 <= k < i ==> r[k] == s[k]
    ensures forall k :: i <= k < |r| ==> r[k] == s[k + 1]
    ensures multiset(r) + multiset{s[i]} == multiset(s)
  {
    assert s == s[..i] + [s[i]] + s[i + 1..];
    s[..i] + s[i + 1..]
  }

  /** `a.splice(i, 0, x)`: the list with `x` placed at position `i`. */
  function InsertAt<T>(s: seq<T>, i: nat, x: T): (r: seq<T>)
    requires i <= |s|
    ensures |r| == |s| + 1
    ensures r[i] == x
    ensures forall k :: 0 <= k < i ==> r[k] == s[k]
    ensures forall k :: i < k < |r| ==> r[k] == s[k - 1]
    ensures multiset(r) == multiset(s) + multiset{x}
  {
    assert s == s[..i] + s[i..];
    s[..i] + [x] + s[i..]
  }

  /** The reorder of StageConfig.jsx: remove at `src`, reinsert at `dst`. */
  function Move<T>(s: seq<T>, src: nat, dst: nat): (r: seq<T>)
    requires src < |s| && dst < |s|
    ensures |r| == |s|
    ensures r[dst] == s[src]
    ensures multiset(r) == multiset(s)
  {
    InsertAt(RemoveAt(s, src), dst, s[src])
  }

  /** Where the element at position `k` of the moved list came from. This is an
      independent description of the move: the moved element lands on `dst`
      and the elements between the two positions shift by one towards `src`. */
  function MoveOrigin(src: nat, dst: nat, k: nat): nat {
    if k == dst then src
    else if src <= k < dst then k + 1
    else if dst < k <= src then k - 1
    else k
  }

  /** The positions of the moved list come from pairwise different positions. */
  lemma MoveOriginInjective(src: nat, dst: nat, i: nat, j: nat)
    requires MoveOrigin(src, dst, i) == MoveOrigin(src, dst, j)
    ensures i == j
  {
  }

  /** The move agrees with its index description at every position. */
  lemma MoveElements<T>(s: seq<T>, src: nat, dst: nat)
    requires src < |s| && dst < |s|
    ensures forall k :: 0 <= k < |s| ==> MoveOrigin(src, dst, k) < |s| && Move(s, src, dst)[k] == s[MoveOrigin(src, dst, k)]
  {
    var r := Move(s, src, dst);
    var t := RemoveAt(s, src);
    forall k | 0 <= k < |s|
      ensures MoveOrigin(src, dst, k) < |s| && r[k] == s[MoveOrigin(src, dst, k)]
    {
      if k < dst {
        assert r[k] == t[k];
      } else if k > dst {
        assert r[k] == t[k - 1];
      }
    }
  }

  /** Moving an element onto its own position changes nothing. */
  lemma MoveSamePosition<T>(s: seq<T>, i: nat)
    requires i < |s|
    ensures Move(s, i, i) == s
  {
    MoveElements(s, i, i);
  }

  /** Moving back from the destination to the source undoes a move. */
  lemma MoveInverse<T>(s: seq<T>, src: nat, dst: nat)
    requires src < |s| && dst < |s|
    ensures Move(Move(s, src, dst), dst, src) == s
  {
    var r := Move(s, src, dst);
    MoveElements(s, src, dst);
    MoveElements(r, dst, src);
    forall k | 0 <= k < |s|
      ensures Move(r, dst, src)[k] == s[k]
    {
      var j := MoveOrigin(dst, src, k);
      assert MoveOrigin(src, dst, j) == k;
    }
  }

  /** A move never introduces a duplicate. */
  lemma MoveDistinct<T>(s: seq<T>, src: nat, dst: nat)
    requires src < |s| && dst < |s|
    requires Distinct(s)
    ensures Distinct(Move(s, src, dst))
  {
    var r := Move(s, src, dst);
    MoveElements(s, src, dst);
    forall i, j | 0 <= i < j < |r|
      ensures r[i] != r[j]
    {
      var a, b := MoveOrigin(src, dst, i), MoveOrigin(src, dst, j);
      if a == b {
        MoveOriginInjective(src, dst, i, j);
      } else if a < b {
        assert s[a] != s[b];
      } else {
        assert s[b] != s[a];
      }
    }
  }

  /** Projecting every element through `f` commutes with the move. */
  lemma MoveMap<T, U>(s: seq<T>, f: T -> U, src: nat, dst: nat)
    requires src < |s| && dst < |s|
    ensures MapSeq(Move(s, src, dst), f) == Move(MapSeq(s, f), src, dst)
  {
    MoveElements(s, src, dst);
    MoveElements(MapSeq(s, f), src, dst);
  }
}
