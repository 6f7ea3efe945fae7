/**
 * `HP.Utils`: the integer helpers, the in-place sorts and shuffles, the layer
 * mask test and the pair check the game uses.
 */
module HPUtils {
  import opened Wrappers

  // ---------------------------------------------------------------------
  // Integer arithmetic

  const IntMin: int := -0x8000_0000
  const IntMax: int := 0x7fff_ffff

  /** The range of C#'s `int`. */
  predicate IsInt32(x: int) {
    IntMin <= x <= IntMax
  }

  function Abs(x: int): nat {
    if x < 0 then -x else x
  }

  /** C#'s integer `/`: the quotient truncated toward zero. */
  function TruncDiv(a: int, b: int): int
    requires b != 0
  {
    if (a < 0) == (b < 0) then Abs(a) / Abs(b) else -(Abs(a) / Abs(b))
  }

  /**
   * The integer `ConvertToMultipleOfNumber(num1, num2)`: `num1` rounded
   * toward zero to a multiple of `num2`. `None` stands for the exceptions C#
   * throws: division by zero, and the one overflowing quotient
   * `int.MinValue / -1`.
   */
  function ConvertToMultipleOfNumber(num1: int, num2: int): (r: Option<int>)
    requires IsInt32(num1) && IsInt32(num2)
    ensures r.None? <==> num2 == 0 || (num1 == IntMin && num2 == -1)
    ensures r.Some? ==> r.value % num2 == 0 && IsInt32(r.value)
    ensures r.Some? ==> Abs(num1 - r.value) < Abs(num2)
    ensures r.Some? && num1 >= 0 ==> 0 <= r.value <= num1
    ensures r.Some? && num1 <= 0 ==> num1 <= r.value <= 0
  {
    if num2 == 0 || (num1 == IntMin && num2 == -1) then None
    else
      var a := TruncDiv(num1, num2);
      TruncDivRoundsTowardZero(num1, num2);
      Some(a * num2)
  }

  /** `TruncDiv(a, b) * b` keeps the sign of `a`, is no larger than `a` in size, and misses it by less than `b`. */
  lemma TruncDivRoundsTowardZero(a: int, b: int)
    requires b != 0
    ensures (TruncDiv(a, b) * b) % b == 0
    ensures a >= 0 ==> 0 <= a - TruncDiv(a, b) * b < Abs(b) && TruncDiv(a, b) * b >= 0
    ensures a <= 0 ==> 0 <= TruncDiv(a, b) * b - a < Abs(b) && TruncDiv(a, b) * b <= 0
  {
    var q := Abs(a) / Abs(b);
    var m := Abs(a) % Abs(b);
    assert Abs(a) == q * Abs(b) + m && 0 <= m < Abs(b);
    TruncProduct(a, b);
    MultipleMod(TruncDiv(a, b), b);
  }

  /** `TruncDiv(a, b) * b` is the truncated multiple of `|b|` below `|a|`, with the sign of `a`. */
  lemma TruncProduct(a: int, b: int)
    requires b != 0
    ensures TruncDiv(a, b) * b == if a >= 0 then (Abs(a) / Abs(b)) * Abs(b) else -((Abs(a) / Abs(b)) * Abs(b))
  {
    var q := Abs(a) / Abs(b);
    if a >= 0 && b < 0 {
      assert a == 0 ==> q == 0;
      assert TruncDiv(a, b) == -q;
      assert (-q) * b == q * (-b);
    } else if a < 0 && b < 0 {
      assert TruncDiv(a, b) == q;
      assert q * b == -(q * (-b));
    } else if a < 0 {
      assert TruncDiv(a, b) == -q;
      assert (-q) * b == -(q * b);
    }
  }

  /** A multiple of `b` leaves remainder 0. */
  lemma MultipleMod(q: int, b: int)
    requires b != 0
    ensures (q * b) % b == 0
  {
    var x := q * b;
    var d := x / b;
    var m := x % b;
    var c := q - d;
    assert m == c * b by {
      assert x == d * b + m;
      assert q * b - d * b == (q - d) * b;
    }
    if c != 0 {
      ProductAtLeastFactor(c, b);
    }
  }

  /** A product with a non-zero integer is at least as large in size as the other factor. */
  lemma ProductAtLeastFactor(c: int, b: int)
    requires c != 0
    ensures Abs(c * b) >= Abs(b)
  {
    assert Abs(c * b) == Abs(c) * Abs(b) by {
      if c < 0 && b < 0 {
        assert c * b == (-c) * (-b);
      } else if c < 0 {
        assert -(c * b) == (-c) * b;
      } else if b < 0 {
        assert -(c * b) == c * (-b);
      }
    }
    MulAtLeast(Abs(c), Abs(b));
  }

  /** `c * b >= b` for a positive `c` and a natural `b`. */
  lemma {:induction false} MulAtLeast(c: nat, b: nat)
    requires c >= 1
    ensures c * b >= b
  {
    if c > 1 {
      MulAtLeast(c - 1, b);
      assert c * b == (c - 1) * b + b;
    }
  }

  // ---------------------------------------------------------------------
  // Swapping and permutations

  /** The `Swap` extension: positions `i` and `j` exchange their values; nothing else changes. */
  method Swap<T>(a: array<T>, i: int, j: int)
    requires 0 <= i < a.Length && 0 <= j < a.Length
    modifies a
    ensures a[..] == old(a[..])[i := old(a[j])][j := old(a[i])]
    ensures multiset(a[..]) == multiset(old(a[..]))
  {
    var temp := a[i];
    a[i] := a[j];
    a[j] := temp;
  }

  /** Exchanging two positions of a sequence permutes it. */
  lemma SwapPermutes<T>(s: seq<T>, i: int, j: int)
    requires 0 <= i < |s| && 0 <= j < |s|
    ensures multiset(s[i := s[j]][j := s[i]]) == multiset(s)
  {
  }

  /** Exchanging two positions inside `[lo, hi)` permutes that slice and leaves everything outside it alone. */
  lemma SwapInSlice<T>(s: seq<T>, t: seq<T>, i: int, j: int, lo: int, hi: int)
    requires 0 <= lo <= i < hi <= |s| && lo <= j < hi && t == s[i := s[j]][j := s[i]]
    ensures multiset(t[lo..hi]) == multiset(s[lo..hi])
    ensures |t| == |s| && forall k :: 0 <= k < |s| && !(lo <= k < hi) ==> t[k] == s[k]
  {
    var u := s[lo..hi];
    SliceOfSwap(s, t, i, j, lo, hi);
    SwapPermutes(u, i - lo, j - lo);
  }

  /** The slice `[lo, hi)` of a sequence with two positions exchanged inside it is the slice with them exchanged. */
  lemma SliceOfSwap<T>(s: seq<T>, t: seq<T>, i: int, j: int, lo: int, hi: int)
    requires 0 <= lo <= i < hi <= |s| && lo <= j < hi && t == s[i := s[j]][j := s[i]]
    ensures t[lo..hi] == s[lo..hi][i - lo := s[j]][j - lo := s[i]]
  {
    var v := s[lo..hi][i - lo := s[j]][j - lo := s[i]];
    forall k | 0 <= k < hi - lo
      ensures t[lo..hi][k] == v[k]
    {
      assert t[lo..hi][k] == t[lo + k];
    }
  }

  // ---------------------------------------------------------------------
  // Sorting

  predicate Sorted(s: seq<int>) {
    forall k, m :: 0 <= k < m < |s| ==> s[k] <= s[m]
  }

  /**
   * Lomuto's `Partition` of `a[low..high]` around the pivot `a[high]`: the
   * pivot ends at the returned index, smaller elements to its left, the others
   * to its right, all within `[low, high]`.
   */
  method Partition(a: array<int>, low: int, high: int) returns (p: int)
    requires 0 <= low <= high < a.Length
    modifies a
    ensures low <= p <= high && a[p] == old(a[high])
    ensures forall k :: low <= k < p ==> a[k] < a[p]
    ensures forall k :: p < k <= high ==> a[p] <= a[k]
    ensures multiset(a[low..high + 1]) == multiset(old(a[low..high + 1]))
    ensures forall k :: 0 <= k < a.Length && !(low <= k <= high) ==> a[k] == old(a[k])
  {
    var pivot := a[high];
    var i := low - 1;
    for j := low to high
      invariant low - 1 <= i < j && a[high] == pivot
      invariant forall k :: low <= k <= i ==> a[k] < pivot
      invariant forall k :: i < k < j ==> pivot <= a[k]
      invariant multiset(a[low..high + 1]) == multiset(old(a[low..high + 1]))
      invariant forall k :: 0 <= k < a.Length && !(low <= k <= high) ==> a[k] == old(a[k])
    {
      i := PartitionStep(a, low, high, pivot, i, j);
    }
    p := PlacePivot(a, low, high, pivot, i);
  }

  /** The end of `Partition`: the pivot moves from `high` to just after the smaller elements. */
  method PlacePivot(a: array<int>, low: int, high: int, pivot: int, i: int) returns (p: int)
    requires 0 <= low <= high < a.Length && low - 1 <= i < high && a[high] == pivot
    requires forall k :: low <= k <= i ==> a[k] < pivot
    requires forall k :: i < k < high ==> pivot <= a[k]
    modifies a
    ensures p == i + 1 && a[p] == pivot
    ensures forall k :: low <= k < p ==> a[k] < pivot
    ensures forall k :: p < k <= high ==> pivot <= a[k]
    ensures multiset(a[low..high + 1]) == multiset(old(a[low..high + 1]))
    ensures forall k :: 0 <= k < a.Length && !(low <= k <= high) ==> a[k] == old(a[k])
  {
    ghost var before := a[..];
    Swap(a, i + 1, high);
    SwapInSlice(before, a[..], i + 1, high, low, high + 1);
    p := i + 1;
  }

  /** One pass of `Partition`'s loop: an element below the pivot at `j` joins the smaller ones. */
  method PartitionStep(a: array<int>, low: int, high: int, pivot: int, i: int, j: int) returns (i': int)
    requires 0 <= low <= j < high < a.Length && low - 1 <= i < j && a[high] == pivot
    requires forall k :: low <= k <= i ==> a[k] < pivot
    requires forall k :: i < k < j ==> pivot <= a[k]
    modifies a
    ensures low - 1 <= i' < j + 1 && a[high] == pivot
    ensures forall k :: low <= k <= i' ==> a[k] < pivot
    ensures forall k :: i' < k < j + 1 ==> pivot <= a[k]
    ensures multiset(a[low..high + 1]) == multiset(old(a[low..high + 1]))
    ensures forall k :: 0 <= k < a.Length && !(low <= k <= high) ==> a[k] == old(a[k])
  {
    i' := i;
    if a[j] < pivot {
      i' := i + 1;
      ghost var before := a[..];
      Swap(a, i', j);
      SwapInSlice(before, a[..], i', j, low, high + 1);
    }
  }

  /**
   * `QuickSort(arr, low, high)`: `arr[low..high]` (both ends included) ends
   * ascending and a permutation of what it held; the rest of the array is
   * untouched. Nothing happens unless `low < high`.
   */
  method QuickSort(a: array<int>, low: int, high: int)
    requires low < high ==> 0 <= low && high < a.Length
    modifies a
    ensures forall k :: 0 <= k < a.Length && !(low <= k <= high) ==> a[k] == old(a[k])
    ensures 0 <= low <= high + 1 <= a.Length ==>
      Sorted(a[low..high + 1]) && multiset(a[low..high + 1]) == multiset(old(a[low..high + 1]))
    decreases high - low
  {
    if low < high {
      ghost var start := a[..];
      var pivot := Partition(a, low, high);
      ghost var parted := a[..];
      assert multiset(parted[low..high + 1]) == multiset(start[low..high + 1]);
      QuickSort(a, low, pivot - 1);
      ghost var left := a[..];
      QuickSort(a, pivot + 1, high);
      ghost var sorted := a[..];
      SortedPartsJoin(parted, left, sorted, low, pivot, high + 1);
      assert a[low..high + 1] == sorted[low..high + 1];
      assert forall k :: 0 <= k < a.Length && !(low <= k <= high) ==> sorted[k] == start[k];
    }
  }

  /** Two sorted halves on either side of a partition's pivot make a sorted permutation of the partitioned slice. */
  lemma SortedPartsJoin(parted: seq<int>, left: seq<int>, sorted: seq<int>, lo: int, p: int, hi: int)
    requires 0 <= lo <= p < hi <= |parted| == |left| == |sorted|
    requires forall k :: lo <= k < p ==> parted[k] < parted[p]
    requires forall k :: p < k < hi ==> parted[p] <= parted[k]
    requires Sorted(left[lo..p]) && multiset(left[lo..p]) == multiset(parted[lo..p])
    requires forall k :: 0 <= k < |parted| && !(lo <= k < p) ==> left[k] == parted[k]
    requires Sorted(sorted[p + 1..hi]) && multiset(sorted[p + 1..hi]) == multiset(left[p + 1..hi])
    requires forall k :: 0 <= k < |left| && !(p + 1 <= k < hi) ==> sorted[k] == left[k]
    ensures Sorted(sorted[lo..hi])
    ensures multiset(sorted[lo..hi]) == multiset(parted[lo..hi])
  {
    var pv := parted[p];
    assert sorted[lo..p] == left[lo..p];
    assert left[p + 1..hi] == parted[p + 1..hi];
    AllBelow(sorted[lo..p], parted[lo..p], pv);
    AllAtLeast(sorted[p + 1..hi], parted[p + 1..hi], pv);
    assert sorted[p] == pv;
    assert sorted[lo..hi] == sorted[lo..p] + [pv] + sorted[p + 1..hi];
    assert parted[lo..hi] == parted[lo..p] + [pv] + parted[p + 1..hi];
    JoinSorted(sorted[lo..p], pv, sorted[p + 1..hi]);
  }

  /** A permutation of elements below `v` has only elements below `v`. */
  lemma AllBelow(s: seq<int>, t: seq<int>, v: int)
    requires multiset(s) == multiset(t) && forall k :: 0 <= k < |t| ==> t[k] < v
    ensures forall k :: 0 <= k < |s| ==> s[k] < v
  {
    forall k | 0 <= k < |s|
      ensures s[k] < v
    {
      assert s[k] in multiset(t);
    }
  }

  /** A permutation of elements at least `v` has only elements at least `v`. */
  lemma AllAtLeast(s: seq<int>, t: seq<int>, v: int)
    requires multiset(s) == multiset(t) && forall k :: 0 <= k < |t| ==> v <= t[k]
    ensures forall k :: 0 <= k < |s| ==> v <= s[k]
  {
    forall k | 0 <= k < |s|
      ensures v <= s[k]
    {
      assert s[k] in multiset(t);
    }
  }

  /** Sorted elements below `v`, then `v`, then sorted elements at least `v`, are sorted. */
  lemma JoinSorted(l: seq<int>, v: int, r: seq<int>)
    requires Sorted(l) && Sorted(r)
    requires forall k :: 0 <= k < |l| ==> l[k] < v
    requires forall k :: 0 <= k < |r| ==> v <= r[k]
    ensures Sorted(l + [v] + r)
  {
    var s := l + [v] + r;
    forall k, m | 0 <= k < m < |s|
      ensures s[k] <= s[m]
    {
      if m < |l| {
      } else if k < |l| {
        assert s[k] < v;
        assert m == |l| || s[m] == r[m - |l| - 1];
      } else if k == |l| {
        assert s[m] == r[m - |l| - 1];
      } else {
        assert s[k] == r[k - |l| - 1] && s[m] == r[m - |l| - 1];
      }
    }
  }

  /** `InsertionSort`: the array ends ascending and a permutation of what it held. */
  method InsertionSort(a: array<int>)
    modifies a
    ensures Sorted(a[..])
    ensures multiset(a[..]) == multiset(old(a[..]))
  {
    var i := 1;
    while i < a.Length
      invariant 1 <= i && (a.Length > 0 ==> i <= a.Length && Sorted(a[..i]))
      invariant multiset(a[..]) == multiset(old(a[..]))
    {
      InsertKey(a, i);
      i := i + 1;
    }
    assert a.Length == 0 || a[..] == a[..i];
  }

  /**
   * One pass of `InsertionSort`'s outer loop: `a[i]` is moved left past the
   * larger elements of the sorted prefix `a[..i]`.
   */
  method InsertKey(a: array<int>, i: int)
    requires 1 <= i < a.Length && Sorted(a[..i])
    modifies a
    ensures Sorted(a[..i + 1])
    ensures multiset(a[..]) == multiset(old(a[..]))
  {
    var key := a[i];
    var j := i - 1;
    while j >= 0 && a[j] > key
      invariant -1 <= j <= i - 1
      invariant multiset(a[..][j + 1 := key]) == multiset(old(a[..]))
      invariant forall k, m :: 0 <= k < m <= i && k != j + 1 && m != j + 1 ==> a[k] <= a[m]
      invariant forall k :: j + 1 < k <= i ==> key < a[k]
    {
      ShiftStep(a, i, j, key);
      j := j - 1;
    }
    a[j + 1] := key;
  }

  /** One pass of `InsertKey`'s loop: the larger element at `j` moves into the gap at `j + 1`, and the gap moves to `j`. */
  method ShiftStep(a: array<int>, i: int, j: int, key: int)
    requires 0 <= j < i < a.Length && a[j] > key
    requires forall k, m :: 0 <= k < m <= i && k != j + 1 && m != j + 1 ==> a[k] <= a[m]
    requires forall k :: j + 1 < k <= i ==> key < a[k]
    modifies a
    ensures multiset(a[..][j := key]) == multiset(old(a[..][j + 1 := key]))
    ensures forall k, m :: 0 <= k < m <= i && k != j && m != j ==> a[k] <= a[m]
    ensures forall k :: j < k <= i ==> key < a[k]
  {
    ghost var before := a[..];
    a[j + 1] := a[j];
    ghost var gap := before[j + 1 := key];
    assert a[..][j := key] == gap[j := gap[j + 1]][j + 1 := gap[j]];
    SwapPermutes(gap, j, j + 1);
  }

  // ---------------------------------------------------------------------
  // Shuffling

  /** The rejection bound of `Shuffle` for `n` remaining elements: the largest multiple of `n` up to 255. */
  function ByteThreshold(n: int): int
    requires n > 0
  {
    n * (255 / n)
  }

  /** The byte the random provider yields at draw `t`. */
  function ByteAt(bytes: nat -> nat, t: nat): int {
    bytes(t) % 256
  }

  /** Some draw from `from` on yields a byte `Shuffle` accepts for `n` remaining elements. */
  ghost predicate AcceptableAfter(bytes: nat -> nat, from: nat, n: int)
    requires n > 0
  {
    exists t: nat :: from <= t && ByteAt(bytes, t) < ByteThreshold(n)
  }

  /**
   * The `do … while` of `Shuffle`: draws bytes from position `from` until
   * one is below the rejection bound, and reduces it modulo `n`.
   */
  method DrawIndex(n: int, bytes: nat -> nat, from: nat) returns (k: int, next: nat)
    requires n > 0 && AcceptableAfter(bytes, from, n)
    ensures from < next && ByteAt(bytes, next - 1) < ByteThreshold(n)
    ensures forall t :: from <= t < next - 1 ==> ByteAt(bytes, t) >= ByteThreshold(n)
    ensures 0 <= k < n && k == ByteAt(bytes, next - 1) % n
  {
    ghost var w: nat :| from <= w && ByteAt(bytes, w) < ByteThreshold(n);
    var box := ByteAt(bytes, from);
    next := from + 1;
    while !(box < ByteThreshold(n))
      invariant from < next <= w + 1 && box == ByteAt(bytes, next - 1)
      invariant forall t :: from <= t < next - 1 ==> ByteAt(bytes, t) >= ByteThreshold(n)
      decreases w + 1 - next
    {
      box := ByteAt(bytes, next);
      next := next + 1;
    }
    k := box % n;
  }

  /**
   * `Shuffle` with the cryptographic provider's bytes `bytes`: for each
   * `n` from the length down to 2, an accepted draw picks `k < n` and
   * positions `k` and `n - 1` exchange. The array ends a permutation of what
   * it held. The provider must eventually yield an acceptable byte at every
   * step, which no provider can do once more than 255 elements remain.
   */
  method Shuffle<T>(a: array<T>, bytes: nat -> nat)
    requires forall from: nat, n :: 1 < n <= a.Length ==> AcceptableAfter(bytes, from, n)
    modifies a
    ensures multiset(a[..]) == multiset(old(a[..]))
  {
    var n := a.Length;
    var cursor: nat := 0;
    while n > 1
      invariant 0 <= n <= a.Length
      invariant multiset(a[..]) == multiset(old(a[..]))
    {
      var k;
      k, cursor := DrawIndex(n, bytes, cursor);
      n := n - 1;
      Swap(a, k, n);
    }
  }

  /** With more than 255 elements left no byte is ever accepted, so `Shuffle` never finishes on such a list. */
  lemma LongListNeverAccepted(bytes: nat -> nat, from: nat, n: int)
    requires n > 255
    ensures ByteThreshold(n) == 0
    ensures !AcceptableAfter(bytes, from, n)
  {
  }

  /**
   * `QuickShuffle` with `rng.Next(m)` for draw `t` taken as `draws(t) % m`:
   * for each `n` from the length down to 2, positions `draws(t) % n` and
   * `n - 1` exchange. The array ends a permutation of what it held.
   */
  method QuickShuffle<T>(a: array<T>, draws: nat -> nat)
    modifies a
    ensures multiset(a[..]) == multiset(old(a[..]))
    ensures a.Length <= 1 ==> a[..] == old(a[..])
  {
    var n := a.Length;
    var t := 0;
    while n > 1
      invariant 0 <= n <= a.Length
      invariant multiset(a[..]) == multiset(old(a[..]))
      invariant a.Length <= 1 ==> a[..] == old(a[..])
    {
      n := n - 1;
      var k := draws(t) % (n + 1);
      t := t + 1;
      Swap(a, k, n);
    }
  }

  // ---------------------------------------------------------------------
  // Layer masks

  /** `CompareLayer`: the mask already contains the bit of the object's layer, which Unity keeps in `[0, 32)`. */
  function CompareLayer(layerMask: bv32, layer: nat): (r: bool)
    requires layer < 32
    ensures r <==> (layerMask >> layer) & 1 == 1
  {
    layerMask == layerMask | (1 << layer)
  }

  // ---------------------------------------------------------------------
  // Pair check

  /** Every value occurs an even number of times. */
  ghost predicate AllEven(s: seq<int>) {
    forall x: int :: multiset(s)[x] % 2 == 0
  }

  /**
   * `CheckIfListContainFullOfPair` on a copy of `list`: the head is paired
   * with the first equal element after it and both are removed; a head
   * without a partner gives false. `None` stands for the index-out-of-range
   * exception raised when a single element is left. The answer is true
   * exactly when every value occurs an even number of times; an exception
   * only happens on an odd-length list, so an even-length list always gets
   * that answer.
   */
  method CheckIfListContainFullOfPair(list: seq<int>) returns (r: Option<bool>)
    ensures r == Some(true) <==> AllEven(list)
    ensures r.None? ==> |list| % 2 == 1
    ensures |list| % 2 == 0 ==> r.Some?
  {
    var tempList := list;
    var index := 1;
    while |tempList| > 0
      invariant AllEven(tempList) <==> AllEven(list)
      invariant |tempList| % 2 == |list| % 2
      invariant 1 <= index && (|tempList| >= 2 ==> index < |tempList|) && (|tempList| > 0 ==> index <= |tempList|)
      invariant |tempList| > 0 ==> forall m :: 1 <= m < index ==> tempList[m] != tempList[0]
      decreases |tempList|, |tempList| - index
    {
      if index >= |tempList| {
        SingleNotEven(tempList);
        return None;
      }
      if tempList[0] == tempList[index] {
        RemovePairKeepsParity(tempList, index);
        tempList := tempList[1..index] + tempList[index + 1..];
        index := 1;
      } else if index < |tempList| - 1 {
        index := index + 1;
      } else {
        UnpairedHeadNotEven(tempList);
        return Some(false);
      }
    }
    assert AllEven(tempList);
    return Some(true);
  }

  /** Taking out two equal elements keeps every count's parity, and two elements fewer keep the length's. */
  lemma RemovePairKeepsParity(s: seq<int>, i: int)
    requires 0 < i < |s| && s[0] == s[i]
    ensures AllEven(s[1..i] + s[i + 1..]) <==> AllEven(s)
  {
    var t := s[1..i] + s[i + 1..];
    assert s == [s[0]] + s[1..i] + [s[i]] + s[i + 1..];
    assert multiset(s) == multiset(t) + multiset{s[0], s[0]};
    PairKeepsParity(multiset(t), s[0]);
  }

  /** Adding two copies of a value changes no count's parity. */
  lemma PairKeepsParity(rest: multiset<int>, v: int)
    ensures forall x :: (rest + multiset{v, v})[x] % 2 == rest[x] % 2
  {
    forall x
      ensures (rest + multiset{v, v})[x] % 2 == rest[x] % 2
    {
      if x == v {
        assert (rest + multiset{v, v})[x] == rest[x] + 2;
        PlusTwoParity(rest[x]);
      } else {
        assert (rest + multiset{v, v})[x] == rest[x];
      }
    }
  }

  lemma PlusTwoParity(n: int)
    ensures (n + 2) % 2 == n % 2
  {
  }

  /** A head that occurs nowhere after it occurs once, so not every count is even. */
  lemma UnpairedHeadNotEven(s: seq<int>)
    requires |s| > 0 && forall m :: 1 <= m < |s| ==> s[m] != s[0]
    ensures !AllEven(s)
  {
    assert s == [s[0]] + s[1..];
    forall m | 0 <= m < |s[1..]|
      ensures s[1..][m] != s[0]
    {
      assert s[1..][m] == s[m + 1];
    }
    assert multiset(s[1..])[s[0]] == 0;
    assert multiset(s)[s[0]] % 2 == 1;
  }

  /** A single element occurs once. */
  lemma SingleNotEven(s: seq<int>)
    requires |s| == 1
    ensures !AllEven(s)
  {
    var v := s[0];
    assert s == [v];
    assert multiset(s) == multiset{v};
    assert multiset(s)[v] == 1;
  }
}
