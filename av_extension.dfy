/**
 * `AV_Extension`: random picks from a list and the first maximum and minimum
 * of a list. `Random.Range(0, n)` for pick number `t` is taken as
 * `rolls(t) % n`; on an empty list C# indexes position 0 and throws, which
 * `None` stands for.
 */
module AVExtension {
  import opened Wrappers

  /** `RandomItem`: the element at the drawn index, or the exception on an empty list. */
  function RandomItem<T>(list: seq<T>, roll: nat): (r: Option<T>)
    ensures r.None? <==> |list| == 0
    ensures r.Some? ==> exists i :: 0 <= i < |list| && r.value == list[i]
  {
    if |list| == 0 then None else Some(list[roll % |list|])
  }

  /** What the two list builders return when every pick succeeds: pick `i` is the element at `rolls(i) % |list|`. */
  function Picks<T>(list: seq<T>, amount: int, rolls: nat -> nat): seq<T>
    requires |list| > 0
  {
    seq(if amount < 0 then 0 else amount, i requires 0 <= i => list[rolls(i) % |list|])
  }

  /**
   * `RandomListCanDuplicateItem`: `amount` picks, each an element of the
   * list; no picks for a non-positive `amount`, and the exception when a pick
   * is made from an empty list.
   */
  method RandomListCanDuplicateItem<T>(list: seq<T>, amount: int, rolls: nat -> nat) returns (res: Option<seq<T>>)
    ensures res.None? <==> amount > 0 && |list| == 0
    ensures res.Some? ==> |res.value| == (if amount < 0 then 0 else amount)
    ensures res.Some? ==> forall x :: x in res.value ==> x in list
    ensures res.Some? && |list| > 0 ==> res.value == Picks(list, amount, rolls)
  {
    var picked: seq<T> := [];
    var i := 0;
    while i < amount
      invariant 0 <= i && (i == 0 || (i <= amount && |list| > 0)) && |picked| == i
      invariant |list| > 0 ==> picked == Picks(list, i, rolls)
      invariant forall x :: x in picked ==> x in list
    {
      var item := RandomItem(list, rolls(i));
      if item.None? {
        return None;
      }
      picked := picked + [item.value];
      i := i + 1;
    }
    return Some(picked);
  }

  /**
   * `RandomListNotDuplicateItem`: picks an index from the list of all
   * indices for each of the `amount` picks. The used index is never taken
   * out, so the picks are those of `RandomListCanDuplicateItem` and may
   * repeat.
   */
  method RandomListNotDuplicateItem<T>(list: seq<T>, amount: int, rolls: nat -> nat) returns (res: Option<seq<T>>)
    ensures res.None? <==> amount > 0 && |list| == 0
    ensures res.Some? ==> |res.value| == (if amount < 0 then 0 else amount)
    ensures res.Some? ==> forall x :: x in res.value ==> x in list
    ensures res.Some? && |list| > 0 ==> res.value == Picks(list, amount, rolls)
  {
    var tmp: seq<int> := [];
    for i := 0 to |list|
      invariant tmp == seq(i, k => k)
    {
      tmp := tmp + [i];
    }
    var picked: seq<T> := [];
    var i := 0;
    while i < amount
      invariant 0 <= i && (i == 0 || (i <= amount && |list| > 0)) && |picked| == i
      invariant |list| > 0 ==> picked == Picks(list, i, rolls)
      invariant forall x :: x in picked ==> x in list
    {
      var index := RandomItem(tmp, rolls(i));
      if index.None? {
        return None;
      }
      picked := picked + [list[index.value]];
      i := i + 1;
    }
    return Some(picked);
  }

  /** The same roll picking the first element twice gives a list with a repeated element. */
  lemma NotDuplicateCanRepeat<T>(x: T, y: T)
    ensures Picks([x, y], 2, _ => 0) == [x, x]
  {
  }

  /** The first position holding a maximal key: every key is at most its key, and keys before it are smaller. */
  ghost predicate IsFirstMax<T>(list: seq<T>, key: T -> int, i: int) {
    0 <= i < |list|
    && (forall k :: 0 <= k < |list| ==> key(list[k]) <= key(list[i]))
    && (forall k :: 0 <= k < i ==> key(list[k]) < key(list[i]))
  }

  /** The first position holding a minimal key. */
  ghost predicate IsFirstMin<T>(list: seq<T>, key: T -> int, i: int) {
    0 <= i < |list|
    && (forall k :: 0 <= k < |list| ==> key(list[i]) <= key(list[k]))
    && (forall k :: 0 <= k < i ==> key(list[i]) < key(list[k]))
  }

  /**
   * `FindMax`, with `CompareTo` comparing the keys `key`: the element at the
   * first position of a maximal key, since only a strictly larger key
   * replaces the current maximum.
   */
  method FindMax<T>(list: seq<T>, key: T -> int) returns (r: Option<T>)
    ensures r.None? <==> |list| == 0
    ensures r.Some? ==> exists i :: IsFirstMax(list, key, i) && r.value == list[i]
  {
    if |list| == 0 {
      return None;
    }
    var max := list[0];
    ghost var at := 0;
    for i := 1 to |list|
      invariant IsFirstMax(list[..i], key, at) && max == list[at]
    {
      if key(list[i]) > key(max) {
        max := list[i];
        at := i;
      }
    }
    assert list[..|list|] == list;
    return Some(max);
  }

  /** `FindMin`, with keys as in `FindMax`: the element at the first position of a minimal key. */
  method FindMin<T>(list: seq<T>, key: T -> int) returns (r: Option<T>)
    ensures r.None? <==> |list| == 0
    ensures r.Some? ==> exists i :: IsFirstMin(list, key, i) && r.value == list[i]
  {
    if |list| == 0 {
      return None;
    }
    var min := list[0];
    ghost var at := 0;
    for i := 1 to |list|
      invariant IsFirstMin(list[..i], key, at) && min == list[at]
    {
      if key(list[i]) < key(min) {
        min := list[i];
        at := i;
      }
    }
    assert list[..|list|] == list;
    return Some(min);
  }

  /** Only one position is the first maximum. */
  lemma FirstMaxUnique<T>(list: seq<T>, key: T -> int, i: int, j: int)
    requires IsFirstMax(list, key, i) && IsFirstMax(list, key, j)
    ensures i == j
  {
    assert key(list[i]) == key(list[j]);
  }

  /** Only one position is the first minimum. */
  lemma FirstMinUnique<T>(list: seq<T>, key: T -> int, i: int, j: int)
    requires IsFirstMin(list, key, i) && IsFirstMin(list, key, j)
    ensures i == j
  {
    assert key(list[i]) == key(list[j]);
  }
}
