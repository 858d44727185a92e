/**
 * Python's slice `s[start:stop]` with step 1 (CPython's PySlice_AdjustIndices):
 * a negative bound counts from the end, the bound is then clamped to [0, len],
 * `None` is open-ended, and a start at or past the stop gives the empty slice.
 */
module PySlice {
  import opened Wrappers

  /** A bound read in the list's coordinates: negative values count from the end. */
  function Offset(i: int, n: nat): int {
    if i < 0 then i + n else i
  }

  /** The bound after normalisation and clamping, always a valid cut point. */
  function Bound(i: int, n: nat): (j: nat)
    ensures j <= n
    ensures 0 <= Offset(i, n) <= n ==> j == Offset(i, n)
  {
    if i < 0 then (if i + n < 0 then 0 else i + n)
    else if i > n then n
    else i
  }

  function Lower(start: Option<int>, n: nat): nat {
    if start.None? then 0 else Bound(start.value, n)
  }

  function Upper(stop: Option<int>, n: nat): nat {
    if stop.None? then n else Bound(stop.value, n)
  }

  /** `s[start:stop]` */
  function Slice<T>(s: seq<T>, start: Option<int>, stop: Option<int>): (r: seq<T>)
    ensures |r| <= |s|
    ensures Lower(start, |s|) < Upper(stop, |s|) ==> |r| == Upper(stop, |s|) - Lower(start, |s|)
    ensures Upper(stop, |s|) <= Lower(start, |s|) ==> r == []
  {
    var lo, hi := Lower(start, |s|), Upper(stop, |s|);
    if lo >= hi then [] else s[lo..hi]
  }

  /**
   * Reference reading of a slice, position by position: index i is kept when it
   * lies at or after `start` and before `stop`, each bound read with negative
   * values counted from the end and with no clamping at all.
   */
  predicate Selected(i: int, n: nat, start: Option<int>, stop: Option<int>) {
    (start.None? || i >= Offset(start.value, n)) && (stop.None? || i < Offset(stop.value, n))
  }

  /** The elements of `s` from index `i` on whose positions are selected, in order. */
  function Picked<T>(s: seq<T>, start: Option<int>, stop: Option<int>, i: nat): seq<T>
    decreases |s| - i
  {
    if i >= |s| then []
    else (if Selected(i, |s|, start, stop) then [s[i]] else []) + Picked(s, start, stop, i + 1)
  }

  /** Inside the list, the unclamped reading agrees with the clamped bounds. */
  lemma SelectedWithinBounds(i: int, n: nat, start: Option<int>, stop: Option<int>)
    requires 0 <= i < n
    ensures Selected(i, n, start, stop) <==> Lower(start, n) <= i < Upper(stop, n)
  {
  }

  lemma {:induction false} PickedFrom<T>(s: seq<T>, start: Option<int>, stop: Option<int>, i: nat)
    requires i <= |s|
    ensures var lo, hi := if Lower(start, |s|) < i then i else Lower(start, |s|), Upper(stop, |s|);
            Picked(s, start, stop, i) == if lo >= hi then [] else s[lo..hi]
    decreases |s| - i
  {
    var n := |s|;
    var lo, hi := Lower(start, n), Upper(stop, n);
    if i < n {
      PickedFrom(s, start, stop, i + 1);
      SelectedWithinBounds(i, n, start, stop);
      var rest := Picked(s, start, stop, i + 1);
      if lo <= i < hi {
        assert rest == if i + 1 >= hi then [] else s[i + 1..hi];
        assert Picked(s, start, stop, i) == [s[i]] + rest;
        assert [s[i]] + rest == s[i..hi];
      } else {
        assert Picked(s, start, stop, i) == rest;
      }
    }
  }

  /** The clamped slice keeps exactly the positions the unclamped reading selects, in order. */
  lemma SliceIsSelection<T>(s: seq<T>, start: Option<int>, stop: Option<int>)
    ensures Slice(s, start, stop) == Picked(s, start, stop, 0)
  {
    PickedFrom(s, start, stop, 0);
  }
}
