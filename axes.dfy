/** Axis bookkeeping for reductions: sorting the requested axes, shifting
    them so that each one still names the right axis after the earlier
    ones have been removed, and removing axes from a shape. */
module Axes {

  /** `s` with the entry at position `k` taken out. */
  function RemoveAt(s: seq<nat>, k: nat): (r: seq<nat>)
    requires k < |s|
    ensures |r| == |s| - 1
    ensures forall j :: 0 <= j < k ==> r[j] == s[j]
    ensures forall j :: k <= j < |r| ==> r[j] == s[j + 1]
  {
    s[..k] + s[k + 1..]
  }

  /** `s` with `x` placed at position `k` (appended when `k` is past the end). */
  function InsertAt(s: seq<nat>, k: nat, x: nat): seq<nat>
  {
    if k <= |s| then s[..k] + [x] + s[k..] else s + [x]
  }

  /** Where each entry of `InsertAt(s, k, x)` comes from. */
  lemma InsertAtFacts(s: seq<nat>, k: nat, x: nat)
    requires k <= |s|
    ensures |InsertAt(s, k, x)| == |s| + 1 && InsertAt(s, k, x)[k] == x
    ensures forall j :: 0 <= j < k ==> InsertAt(s, k, x)[j] == s[j]
    ensures forall j :: k < j <= |s| ==> InsertAt(s, k, x)[j] == s[j - 1]
  {
  }

  predicate Sorted(s: seq<nat>)
  {
    forall i, j :: 0 <= i < j < |s| ==> s[i] <= s[j]
  }

  predicate StrictlySorted(s: seq<nat>)
  {
    forall i, j :: 0 <= i < j < |s| ==> s[i] < s[j]
  }

  /** No axis is listed twice. */
  predicate Distinct(s: seq<nat>)
  {
    forall i, j :: 0 <= i < j < |s| ==> s[i] != s[j]
  }

  /** Every listed axis names a dimension of an array of rank `rank`. */
  predicate AllBelow(s: seq<nat>, rank: nat)
  {
    forall i :: 0 <= i < |s| ==> s[i] < rank
  }

  /** Inserts `x` before the first entry of `s` that is not below it. */
  function Insert(x: nat, s: seq<nat>): (r: seq<nat>)
    ensures |r| == |s| + 1
    ensures multiset(r) == multiset{x} + multiset(s)
    ensures forall y :: y in r <==> y == x || y in s
  {
    if s == [] || x <= s[0] then
      [x] + s
    else
      assert s == [s[0]] + s[1..];
      [s[0]] + Insert(x, s[1..])
  }

  /** A sorted sequence stays sorted behind a head no larger than any entry. */
  lemma SortedCons(h: nat, u: seq<nat>)
    requires Sorted(u) && forall k :: 0 <= k < |u| ==> h <= u[k]
    ensures Sorted([h] + u)
  {
  }

  /** A strictly sorted sequence stays so behind a head below every entry. */
  lemma StrictlySortedCons(h: nat, u: seq<nat>)
    requires StrictlySorted(u) && forall k :: 0 <= k < |u| ==> h < u[k]
    ensures StrictlySorted([h] + u)
  {
  }

  /** Inserting into a sorted sequence keeps it sorted. */
  lemma {:induction false} InsertSorted(x: nat, s: seq<nat>)
    requires Sorted(s)
    ensures Sorted(Insert(x, s))
  {
    if s != [] && x > s[0] {
      var t := s[1..];
      InsertSorted(x, t);
      var u := Insert(x, t);
      forall k | 0 <= k < |u| ensures s[0] <= u[k] {
        assert u[k] in u;
        if u[k] != x {
          var j :| 0 <= j < |t| && t[j] == u[k];
          assert s[j + 1] == t[j];
        }
      }
      SortedCons(s[0], u);
    }
  }

  /** Inserting a new entry into a strictly sorted sequence keeps it
      strictly sorted. */
  lemma {:induction false} InsertStrictlySorted(x: nat, s: seq<nat>)
    requires StrictlySorted(s) && x !in s
    ensures StrictlySorted(Insert(x, s))
  {
    if s != [] && x > s[0] {
      var t := s[1..];
      assert x !in t;
      InsertStrictlySorted(x, t);
      var u := Insert(x, t);
      forall k | 0 <= k < |u| ensures s[0] < u[k] {
        assert u[k] in u;
        if u[k] != x {
          var j :| 0 <= j < |t| && t[j] == u[k];
          assert s[j + 1] == t[j];
        }
      }
      StrictlySortedCons(s[0], u);
    } else if s != [] {
      assert x != s[0];
      StrictlySortedCons(x, s);
    }
  }

  /** Sorts the axes ascending, as `Vec::sort` does for `usize` values:
      the result is sorted and a permutation of the input. */
  function SortAxes(s: seq<nat>): (r: seq<nat>)
    ensures |r| == |s| && Sorted(r)
    ensures multiset(r) == multiset(s)
    ensures forall y :: y in r <==> y in s
    ensures Distinct(s) ==> StrictlySorted(r)
  {
    if s == [] then
      []
    else
      assert s == [s[0]] + s[1..];
      var t := SortAxes(s[1..]);
      InsertSorted(s[0], t);
      if Distinct(s) then
        assert Distinct(s[1..]) && s[0] !in t;
        InsertStrictlySorted(s[0], t);
        Insert(s[0], t)
      else
        Insert(s[0], t)
  }

  /** `a.saturating_sub(b)` on `usize`. */
  function SaturatingSub(a: nat, b: nat): (r: nat)
    ensures r <= a
    ensures b <= a ==> r + b == a
    ensures a <= b ==> r == 0
  {
    if a >= b then a - b else 0
  }

  /** The i-th sorted axis, saturating-decremented by i. */
  function ShiftAxes(axes: seq<nat>): (r: seq<nat>)
    ensures |r| == |axes|
    ensures forall i :: 0 <= i < |r| ==> r[i] == SaturatingSub(axes[i], i)
  {
    seq(|axes|, i requires 0 <= i < |axes| => SaturatingSub(axes[i], i))
  }

  /** Removing `shifted[0]`, then `shifted[1]`, ... one at a time never
      addresses an axis beyond the rank of the partially reduced shape. */
  predicate AxesFit(rank: nat, shifted: seq<nat>)
  {
    forall i :: 0 <= i < |shifted| ==> shifted[i] + i < rank
  }

  /** A prefix of axes that fit still fits. */
  lemma AxesFitPrefix(rank: nat, shifted: seq<nat>, i: nat)
    requires AxesFit(rank, shifted) && i <= |shifted|
    ensures AxesFit(rank, shifted[..i])
  {
  }

  /** The shape left after removing the axes `shifted` one at a time, in order. */
  function RemoveEach(shape: seq<nat>, shifted: seq<nat>): (r: seq<nat>)
    requires AxesFit(|shape|, shifted)
    ensures |r| == |shape| - |shifted|
    decreases |shifted|
  {
    if shifted == [] then
      shape
    else
      var m := |shifted| - 1;
      assert AxesFit(|shape|, shifted[..m]);
      RemoveAt(RemoveEach(shape, shifted[..m]), shifted[m])
  }

  /** The entries of `s` whose positions are not listed in `axes`, in order:
      the shape left when exactly the listed axes are deleted. */
  function DeleteAxes(s: seq<nat>, axes: seq<nat>): (r: seq<nat>)
  {
    if s == [] then
      []
    else
      var m := |s| - 1;
      DeleteAxes(s[..m], axes) + (if m in axes then [] else [s[m]])
  }

  /** Deleting depends only on which positions below |s| are listed. */
  lemma {:induction false} DeleteSameMembers(s: seq<nat>, a: seq<nat>, b: seq<nat>)
    requires forall k :: 0 <= k < |s| ==> (k in a <==> k in b)
    ensures DeleteAxes(s, a) == DeleteAxes(s, b)
  {
    if s != [] {
      DeleteSameMembers(s[..|s| - 1], a, b);
    }
  }

  /** When no listed axis lies at or above `j`, the tail from `j` is kept whole. */
  lemma {:induction false} DeleteKeepsTail(s: seq<nat>, axes: seq<nat>, j: nat)
    requires j <= |s|
    requires forall i :: 0 <= i < |axes| ==> axes[i] < j
    ensures DeleteAxes(s, axes) == DeleteAxes(s[..j], axes) + s[j..]
    decreases |s| - j
  {
    if j < |s| {
      var m := |s| - 1;
      DeleteKeepsTail(s[..m], axes, j);
      assert s[..m][..j] == s[..j];
      assert m !in axes;
      assert s[..m][j..] + [s[m]] == s[j..];
    } else {
      assert s[..j] == s;
    }
  }

  /** Each element of a strictly increasing sequence of naturals is at least
      its position, so subtracting the position never saturates. */
  lemma {:induction false} StrictlySortedAbovePosition(a: seq<nat>, i: nat)
    requires StrictlySorted(a) && i < |a|
    ensures a[i] >= i
  {
    if i > 0 {
      StrictlySortedAbovePosition(a, i - 1);
    }
  }

  /** At most `rank` distinct axes fit below `rank`. */
  lemma StrictlySortedLength(a: seq<nat>, rank: nat)
    requires StrictlySorted(a) && AllBelow(a, rank)
    ensures |a| <= rank
  {
    if a != [] {
      StrictlySortedAbovePosition(a, |a| - 1);
    }
  }

  /** A strictly increasing list of in-range axes deletes exactly |axes| entries. */
  lemma {:induction false} DeleteCount(s: seq<nat>, axes: seq<nat>)
    requires StrictlySorted(axes) && AllBelow(axes, |s|)
    ensures |DeleteAxes(s, axes)| == |s| - |axes|
  {
    StrictlySortedLength(axes, |s|);
    if s != [] {
      var m := |s| - 1;
      if m in axes {
        var last := |axes| - 1;
        var p :| 0 <= p < |axes| && axes[p] == m;
        assert axes[p] <= axes[last];
        var front := axes[..last];
        assert AllBelow(front, m);
        DeleteSameMembers(s[..m], axes, front);
        DeleteCount(s[..m], front);
      } else {
        forall i | 0 <= i < |axes| ensures axes[i] < m {
          assert axes[i] in axes;
        }
        DeleteCount(s[..m], axes);
      }
    }
  }

  /** Deleting one more axis `x`, above all axes already deleted, removes the
      entry at position x - |front| of the partially deleted shape. */
  lemma DeleteLast(s: seq<nat>, front: seq<nat>, x: nat)
    requires StrictlySorted(front) && AllBelow(front, x) && x < |s|
    ensures |front| <= x && x - |front| < |DeleteAxes(s, front)|
    ensures RemoveAt(DeleteAxes(s, front), x - |front|) == DeleteAxes(s, front + [x])
  {
    StrictlySortedLength(front, x);
    var kept := DeleteAxes(s[..x], front);
    DeleteBefore(s, front, x);
    DeleteAfter(s, front, x);
    assert |kept| == x - |front|;
    assert RemoveAt(kept + s[x..], |kept|) == kept + s[x + 1..];
  }

  /** The front axes, all below `x`, delete within s[..x] and keep the rest. */
  lemma DeleteBefore(s: seq<nat>, front: seq<nat>, x: nat)
    requires StrictlySorted(front) && AllBelow(front, x) && x < |s|
    ensures DeleteAxes(s, front) == DeleteAxes(s[..x], front) + s[x..]
    ensures |DeleteAxes(s[..x], front)| == x - |front|
  {
    DeleteKeepsTail(s, front, x);
    DeleteCount(s[..x], front);
  }

  /** Adding `x` to the front axes also deletes the entry at `x`. */
  lemma DeleteAfter(s: seq<nat>, front: seq<nat>, x: nat)
    requires AllBelow(front, x) && x < |s|
    ensures DeleteAxes(s, front + [x]) == DeleteAxes(s[..x], front) + s[x + 1..]
  {
    var a := front + [x];
    assert forall i :: 0 <= i < |a| ==> a[i] < x + 1;
    DeleteKeepsTail(s, a, x + 1);
    var head := s[..x + 1];
    assert |head| == x + 1 && head[..x] == s[..x];
    assert x in a;
    assert DeleteAxes(head, a) == DeleteAxes(s[..x], a);
    forall k | 0 <= k < x ensures k in a <==> k in front {
      assert k in a <==> k in front || k == x;
    }
    DeleteSameMembers(s[..x], a, front);
  }

  /** Removing the shifted strictly increasing axes one at a time is the same
      as deleting those axes from the shape. */
  lemma {:induction false} RemoveEachDeletes(shape: seq<nat>, a: seq<nat>)
    requires StrictlySorted(a) && AllBelow(a, |shape|)
    ensures AxesFit(|shape|, ShiftAxes(a))
    ensures RemoveEach(shape, ShiftAxes(a)) == DeleteAxes(shape, a)
    decreases |a|
  {
    var sh := ShiftAxes(a);
    forall i | 0 <= i < |a| ensures sh[i] == a[i] - i {
      StrictlySortedAbovePosition(a, i);
    }
    if a == [] {
      DeleteKeepsTail(shape, a, 0);
    } else {
      var m := |a| - 1;
      var front := a[..m];
      var x := a[m];
      assert a == front + [x];
      assert ShiftAxes(front) == sh[..m];
      RemoveEachDeletes(shape, front);
      assert AllBelow(front, x);
      DeleteLast(shape, front, x);
    }
  }

  /** The reduction's axis arithmetic: for distinct in-range axes given in any
      order, sorting them and subtracting each one's position (saturating)
      never saturates, stays within the rank of the partially reduced shape,
      and the removals together delete exactly the listed axes. */
  lemma ShiftedRemovalDeletes(shape: seq<nat>, dims: seq<nat>)
    requires Distinct(dims) && AllBelow(dims, |shape|)
    ensures forall i :: 0 <= i < |dims| ==> SortAxes(dims)[i] >= i
    ensures AxesFit(|shape|, ShiftAxes(SortAxes(dims)))
    ensures RemoveEach(shape, ShiftAxes(SortAxes(dims))) == DeleteAxes(shape, dims)
  {
    var a := SortAxes(dims);
    assert |a| == |dims| by {
      assert |multiset(a)| == |multiset(dims)|;
    }
    forall i | 0 <= i < |a| ensures a[i] < |shape| {
      assert a[i] in a;
      var j :| 0 <= j < |dims| && dims[j] == a[i];
    }
    forall i | 0 <= i < |a| ensures a[i] >= i {
      StrictlySortedAbovePosition(a, i);
    }
    RemoveEachDeletes(shape, a);
    DeleteSameMembers(shape, a, dims);
  }
}
