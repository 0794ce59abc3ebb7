/**
 * The branch-free lower-bound binary search of Yoakke.Collections. The list
 * is a sequence, each element is projected to a key by `sel`, and a search
 * key of a possibly different type is compared with it by `cmp`, which
 * answers with the sign convention of IComparable: negative when the search
 * key is smaller, zero when equal, positive when greater.
 *
 * The search only ever looks at those comparisons, so its specification is
 * stated over `Signs`: the comparison of the search key with each element.
 */
module BinarySearchExtension {
  import opened Wrappers

  /** The failure of the list's indexer on an index outside the list. */
  const IndexOutOfRange := "Index was out of range"

  /** The comparison of the search key with the key of each element. */
  function Signs<V, KS, K>(list: seq<V>, key: KS, sel: V -> K, cmp: (KS, K) -> int): (s: seq<int>)
    ensures |s| == |list|
    ensures forall i | 0 <= i < |list| :: s[i] == cmp(key, sel(list[i]))
  {
    seq(|list|, i requires 0 <= i < |list| => cmp(key, sel(list[i])))
  }

  /**
   * The comparer is consistent with an ascending slice `[lo, hi)` for this
   * search key: the elements the key is greater than form a prefix.
   */
  ghost predicate LessPrefix(s: seq<int>, lo: int, hi: int)
    requires 0 <= lo <= hi <= |s|
  {
    forall i, j :: lo <= i <= j < hi && s[j] > 0 ==> s[i] > 0
  }

  /**
   * The slice is sorted with respect to this search key: the elements it is
   * greater than form a prefix, and those it is smaller than form a suffix.
   */
  ghost predicate SortedFor(s: seq<int>, lo: int, hi: int)
    requires 0 <= lo <= hi <= |s|
  {
    && LessPrefix(s, lo, hi)
    && forall i, j :: lo <= i <= j < hi && s[i] < 0 ==> s[j] < 0
  }

  /**
   * `index` is the insertion point of the key in `[lo, hi)`: every element
   * before it compares less than the key, every element from it on does not.
   */
  ghost predicate InsertionPoint(s: seq<int>, lo: int, hi: int, index: int)
    requires 0 <= lo <= hi <= |s|
  {
    && lo <= index <= hi
    && (forall i :: lo <= i < index ==> s[i] > 0)
    && (forall i :: index <= i < hi ==> s[i] <= 0)
  }

  /**
   * The `while (size > 1)` loop read as a tail-recursive function of its two
   * variables: the element the window `[from, from + size)` is narrowed to.
   */
  function Halve(s: seq<int>, from: int, size: int): (r: int)
    requires 0 <= from && 1 <= size && from + size <= |s|
    ensures from <= r < from + size
    decreases size
  {
    if size > 1 then
      var mid := from + size / 2;
      Halve(s, if s[mid] > 0 then mid else from, size - size / 2)
    else from
  }

  /**
   * When the key is greater than a prefix of the window, it is greater than
   * everything before the element the loop narrows to.
   */
  lemma {:induction false} HalveAfterGreater(s: seq<int>, from: int, size: int)
    requires 0 <= from && 1 <= size && from + size <= |s|
    ensures LessPrefix(s, from, from + size) ==> forall i :: from <= i < Halve(s, from, size) ==> s[i] > 0
    decreases size
  {
    if size > 1 && LessPrefix(s, from, from + size) {
      var mid := from + size / 2;
      if s[mid] > 0 {
        HalveAfterGreater(s, mid, size - size / 2);
      } else {
        HalveAfterGreater(s, from, size - size / 2);
      }
    }
  }

  /**
   * When the key is greater than a prefix of the window, it is not greater
   * than anything after the element the loop narrows to.
   */
  lemma {:induction false} HalveBeforeNotGreater(s: seq<int>, from: int, size: int)
    requires 0 <= from && 1 <= size && from + size <= |s|
    ensures LessPrefix(s, from, from + size) ==> forall i :: Halve(s, from, size) < i < from + size ==> s[i] <= 0
    decreases size
  {
    if size > 1 && LessPrefix(s, from, from + size) {
      var mid := from + size / 2;
      if s[mid] > 0 {
        HalveBeforeNotGreater(s, mid, size - size / 2);
      } else {
        HalveBeforeNotGreater(s, from, size - size / 2);
      }
    }
  }

  /**
   * The loop as the code runs it on any window, with the list's indexer
   * checking each index it reads: `None` when one lies outside the list.
   * A window of size 1 or less is not entered.
   */
  function HalveChecked(s: seq<int>, from: int, size: int): (r: Option<int>)
    decreases size
  {
    if size > 1 then
      var mid := from + size / 2;
      if 0 <= mid < |s| then HalveChecked(s, if s[mid] > 0 then mid else from, size - size / 2)
      else None
    else Some(from)
  }

  /** One turn of the loop, when the index it reads lies in the list. */
  lemma HalveCheckedStep(s: seq<int>, from: int, size: int, next: int)
    requires size > 1 && 0 <= from + size / 2 < |s|
    requires next == if s[from + size / 2] > 0 then from + size / 2 else from
    ensures HalveChecked(s, from, size) == HalveChecked(s, next, size - size / 2)
  {
  }

  /** On a window inside the list, no read fails and the loop ends where `Halve` does. */
  lemma {:induction false} HalveCheckedInRange(s: seq<int>, from: int, size: int)
    requires 0 <= from && 1 <= size && from + size <= |s|
    ensures HalveChecked(s, from, size) == Some(Halve(s, from, size))
    decreases size
  {
    if size > 1 {
      var mid := from + size / 2;
      HalveCheckedInRange(s, if s[mid] > 0 then mid else from, size - size / 2);
    }
  }

  /** The loop and the final probe of the element it narrows to. */
  function SearchLoop(s: seq<int>, from: int, size: int): (r: (int, bool))
    requires 0 <= from && 1 <= size && from + size <= |s|
    ensures from <= r.0 <= from + size
    ensures r.1 ==> r.0 < from + size && s[r.0] == 0
    ensures LessPrefix(s, from, from + size) ==> InsertionPoint(s, from, from + size, r.0)
  {
    var at := Halve(s, from, size);
    HalveAfterGreater(s, from, size);
    HalveBeforeNotGreater(s, from, size);
    Probe(s, at)
  }

  /** The probe after the loop: an exact match, or the place before or after the element. */
  function Probe(s: seq<int>, at: int): (r: (int, bool))
    requires 0 <= at < |s|
    ensures r.1 <==> s[at] == 0
    ensures r.0 == if s[at] > 0 then at + 1 else at
  {
    if s[at] == 0 then (at, true) else (at + (if s[at] > 0 then 1 else 0), false)
  }

  /** What the `(start, length)` overload returns. */
  function Search<V, KS, K>(list: seq<V>, start: int, length: int, key: KS, sel: V -> K, cmp: (KS, K) -> int): (r: (int, bool))
    requires 0 <= start && 0 <= length && start + length <= |list|
    ensures start <= r.0 <= start + length
    ensures r.1 ==> r.0 < start + length && cmp(key, sel(list[r.0])) == 0
    ensures length == 0 ==> r == (start, false)
    ensures LessPrefix(Signs(list, key, sel, cmp), start, start + length) ==>
      InsertionPoint(Signs(list, key, sel, cmp), start, start + length, r.0)
  {
    if length == 0 then (start, false) else SearchLoop(Signs(list, key, sel, cmp), start, length)
  }

  /**
   * `BinarySearch(list, start, length, ...)` on any arguments: an empty
   * range gives `(start, false)` without reading the list; otherwise the
   * loop runs (not at all for a negative length) and the element it ends
   * on is probed, and a read outside the list fails.
   */
  function SearchChecked<V, KS, K>(list: seq<V>, start: int, length: int, key: KS, sel: V -> K, cmp: (KS, K) -> int): (r: Result<(int, bool)>)
    ensures length == 0 ==> r == Ok((start, false))
    ensures length < 0 ==>
      r == if 0 <= start < |list| then Ok(Probe(Signs(list, key, sel, cmp), start)) else Err(IndexOutOfRange)
    ensures r.Ok? && r.value.1 ==> 0 <= r.value.0 < |list| && cmp(key, sel(list[r.value.0])) == 0
  {
    if length == 0 then Ok((start, false))
    else
      var s := Signs(list, key, sel, cmp);
      match HalveChecked(s, start, length)
      case None => Err(IndexOutOfRange)
      case Some(at) => if 0 <= at < |s| then Ok(Probe(s, at)) else Err(IndexOutOfRange)
  }

  /** On a range inside the list the search never fails, and it gives `Search`. */
  lemma SearchCheckedInRange<V, KS, K>(list: seq<V>, start: int, length: int, key: KS, sel: V -> K, cmp: (KS, K) -> int)
    requires 0 <= start && 0 <= length && start + length <= |list|
    ensures SearchChecked(list, start, length, key, sel, cmp) == Ok(Search(list, start, length, key, sel, cmp))
  {
    if length > 0 {
      HalveCheckedInRange(Signs(list, key, sel, cmp), start, length);
    }
  }

  /**
   * `BinarySearch(list, start, length, searchedKey, keySelector, keyComparer)`.
   * `probed` records every index the search reads.
   */
  method BinarySearchRange<V, KS, K>(list: seq<V>, start: int, length: int, key: KS, sel: V -> K, cmp: (KS, K) -> int)
    returns (r: Result<(int, bool)>, ghost probed: set<int>)
    ensures r == SearchChecked(list, start, length, key, sel, cmp)
    ensures 0 < length ==> forall i :: i in probed ==> start <= i < start + length
  {
    probed := {};
    if length == 0 {
      return Ok((start, false)), probed;
    }
    var at;
    at, probed := Narrow(list, start, length, key, sel, cmp);
    if at.None? || !(0 <= at.value < |list|) {
      return Err(IndexOutOfRange), probed;
    }
    var from := at.value;
    var resultCmp := Compare(list, from, key, sel, cmp);
    probed := probed + {from};
    if resultCmp == 0 {
      r := Ok((from, true));
    } else {
      r := Ok((from + (if resultCmp > 0 then 1 else 0), false));
    }
  }

  /** `keyComparer(searchedKey, keySelector(list[at]))`: the sign recorded for `at`. */
  method Compare<V, KS, K>(list: seq<V>, at: int, key: KS, sel: V -> K, cmp: (KS, K) -> int) returns (c: int)
    requires 0 <= at < |list|
    ensures c == Signs(list, key, sel, cmp)[at]
  {
    var k := sel(list[at]);
    c := cmp(key, k);
  }

  /**
   * The `while (size > 1)` loop: it halves the window `[from, from + size)`
   * until one element is left, or stops where the indexer fails.
   */
  method Narrow<V, KS, K>(list: seq<V>, start: int, length: int, key: KS, sel: V -> K, cmp: (KS, K) -> int)
    returns (r: Option<int>, ghost probed: set<int>)
    ensures r == HalveChecked(Signs(list, key, sel, cmp), start, length)
    ensures 0 < length && r.Some? ==> start <= r.value < start + length
    ensures forall i :: i in probed ==> start <= i < start + length
  {
    ghost var s := Signs(list, key, sel, cmp);
    probed := {};
    var size := length;
    var from := start;
    while size > 1
      invariant start <= from && from + size <= start + length
      invariant 0 < length ==> 1 <= size
      invariant HalveChecked(s, from, size) == HalveChecked(s, start, length)
      invariant forall i :: i in probed ==> start <= i < start + length
      decreases size
    {
      var half := size / 2;
      var mid := from + half;
      if !(0 <= mid < |list|) {
        return None, probed;
      }
      var c := Compare(list, mid, key, sel, cmp);
      var next := if c > 0 then mid else from;
      HalveCheckedStep(s, from, size, next);
      probed := probed + {mid};
      from, size := next, size - half;
    }
    r := Some(from);
  }

  /** `BinarySearch(list, start, searchedKey, keySelector, keyComparer)`: searches `[start, Count)`. */
  method BinarySearchFrom<V, KS, K>(list: seq<V>, start: int, key: KS, sel: V -> K, cmp: (KS, K) -> int)
    returns (r: Result<(int, bool)>)
    ensures r == SearchChecked(list, start, |list| - start, key, sel, cmp)
    ensures 0 <= start <= |list| ==> r == Ok(Search(list, start, |list| - start, key, sel, cmp))
  {
    ghost var probed;
    r, probed := BinarySearchRange(list, start, |list| - start, key, sel, cmp);
    if 0 <= start <= |list| {
      SearchCheckedInRange(list, start, |list| - start, key, sel, cmp);
    }
  }

  /** `BinarySearch(list, searchedKey, keySelector, keyComparer)`: searches the whole list. */
  method BinarySearchWith<V, KS, K>(list: seq<V>, key: KS, sel: V -> K, cmp: (KS, K) -> int)
    returns (index: int, exact: bool)
    ensures (index, exact) == Search(list, 0, |list|, key, sel, cmp)
  {
    ghost var probed;
    var r;
    r, probed := BinarySearchRange(list, 0, |list|, key, sel, cmp);
    SearchCheckedInRange(list, 0, |list|, key, sel, cmp);
    index, exact := r.value.0, r.value.1;
  }

  /**
   * `BinarySearch(list, searchedKey, keySelector)` for an IComparable search
   * key: `compareTo` is its CompareTo; it searches from index 0.
   */
  method BinarySearch<V, KS, K>(list: seq<V>, key: KS, sel: V -> K, compareTo: (KS, K) -> int)
    returns (index: int, exact: bool)
    ensures (index, exact) == Search(list, 0, |list|, key, sel, (k1: KS, k2: K) => compareTo(k1, k2))
  {
    var r := BinarySearchFrom(list, 0, key, sel, (k1: KS, k2: K) => compareTo(k1, k2));
    index, exact := r.value.0, r.value.1;
  }

  /**
   * `Exact` looks only at the last probe: searching 2 in [1, 2] yields index 1
   * (correct), but `Exact == false` although the element there is 2.
   */
  lemma ExactMissesMatchAfterLastProbe()
    ensures Search([1, 2], 0, 2, 2, (v: int) => v, (k: int, v: int) => k - v) == (1, false)
    ensures [1, 2][1] == 2
  {
    var s := Signs([1, 2], 2, (v: int) => v, (k: int, v: int) => k - v);
    assert s[1] == 0;
  }

  /** The search with the evident intent of `Exact`: the element at `Index` is checked. */
  function SearchExact<V, KS, K>(list: seq<V>, start: int, length: int, key: KS, sel: V -> K, cmp: (KS, K) -> int): (r: (int, bool))
    requires 0 <= start && 0 <= length && start + length <= |list|
    ensures r.0 == Search(list, start, length, key, sel, cmp).0
    ensures SortedFor(Signs(list, key, sel, cmp), start, start + length) ==>
      (r.1 <==> exists j :: start <= j < start + length && cmp(key, sel(list[j])) == 0)
  {
    var (index, exact) := Search(list, start, length, key, sel, cmp);
    if exact || index == start + length then (index, exact)
    else (index, cmp(key, sel(list[index])) == 0)
  }
}
