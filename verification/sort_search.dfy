/**
  Go's `sort.Search(n, f)`: a bisection over [0, n) that assumes `f` is
  false on a prefix and true on the rest, and returns the boundary.
  Nothing here assumes that `f` really has that shape; what the bisection
  guarantees for an arbitrary `f` is stated separately from what it
  guarantees for a monotone one.
 */
module SortSearch {

  /** `f` is monotone on [0, n): once true, it stays true. */
  ghost predicate MonotoneUpTo(n: int, f: int -> bool) {
    forall a, b :: 0 <= a <= b < n && f(a) ==> f(b)
  }

  /**
    The bisection on the window [i, j). The invariant of Go's loop,
    f(i - 1) == false and f(j) == true (with f(-1) false and f(n) true by
    convention), becomes the precondition.
   */
  function SearchRange(n: int, f: int -> bool, i: int, j: int): (r: int)
    requires 0 <= i <= j <= n
    requires i == 0 || !f(i - 1)
    requires j == n || f(j)
    ensures i <= r <= j
    decreases j - i
  {
    if i < j then
      var h := (i + j) / 2;
      if !f(h) then SearchRange(n, f, h + 1, j) else SearchRange(n, f, i, h)
    else
      i
  }

  /** Each step keeps the loop invariant, so the window closes on a false-to-true boundary. */
  lemma {:induction false} SearchRangeIsBoundary(n: int, f: int -> bool, i: int, j: int)
    requires 0 <= i <= j <= n
    requires i == 0 || !f(i - 1)
    requires j == n || f(j)
    ensures SearchRange(n, f, i, j) == 0 || !f(SearchRange(n, f, i, j) - 1)
    ensures SearchRange(n, f, i, j) == n || f(SearchRange(n, f, i, j))
    decreases j - i
  {
    if i < j {
      var h := (i + j) / 2;
      if !f(h) {
        SearchRangeIsBoundary(n, f, h + 1, j);
      } else {
        SearchRangeIsBoundary(n, f, i, h);
      }
    }
  }

  /**
    The index `sort.Search` returns. For ANY `f` it is a boundary: the
    entry just before it is false and the entry at it is true (or it is n).
   */
  function Search(n: nat, f: int -> bool): (r: nat)
    ensures r <= n
    ensures r == 0 || !f(r - 1)
    ensures r == n || f(r)
  {
    SearchRangeIsBoundary(n, f, 0, n);
    SearchRange(n, f, 0, n)
  }

  /** For a monotone `f`, the boundary is the first index where `f` holds. */
  lemma SearchFindsFirst(n: nat, f: int -> bool)
    requires MonotoneUpTo(n, f)
    ensures forall k :: 0 <= k < Search(n, f) ==> !f(k)
    ensures forall k :: Search(n, f) <= k < n ==> f(k)
  {
    var r: int := Search(n, f);
    forall k | 0 <= k < r
      ensures !f(k)
    {
      assert f(k) ==> f(r - 1);
    }
  }

  /** Go's loop, as written: `i, j := 0, n`, halve until the window is empty. */
  method SearchLoop(n: nat, f: int -> bool) returns (i: nat)
    ensures i == Search(n, f)
  {
    i := 0;
    var j := n;
    while i < j
      invariant 0 <= i <= j <= n
      invariant i == 0 || !f(i - 1)
      invariant j == n || f(j)
      invariant SearchRange(n, f, i, j) == SearchRange(n, f, 0, n)
      decreases j - i
    {
      var h := (i + j) / 2;
      if !f(h) {
        i := h + 1;
      } else {
        j := h;
      }
    }
  }
}
