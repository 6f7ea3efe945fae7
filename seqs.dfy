/** Sequence vocabulary shared by the lists of the game: distinctness, LINQ's `Take` and `List.Remove`. */
module Seqs {

  /** No element occurs twice. */
  predicate Distinct<T(==)>(s: seq<T>) {
    forall i, j :: 0 <= i < j < |s| ==> s[i] != s[j]
  }

  /** LINQ `Take(n)`: the first `n` elements, all of them when there are fewer, none when `n <= 0`. */
  function Take<T>(s: seq<T>, n: int): (r: seq<T>)
    ensures |r| == if n <= 0 then 0 else if n < |s| then n else |s|
    ensures r <= s
  {
    if n <= 0 then [] else if n < |s| then s[..n] else s
  }

  /** The position of the first occurrence of `x`. */
  function FirstIndex<T(==)>(s: seq<T>, x: T): (i: nat)
    requires x in s
    ensures i < |s| && s[i] == x && x !in s[..i]
  {
    if s[0] == x then 0
    else
      var j := FirstIndex(s[1..], x);
      assert s[..j + 1] == [s[0]] + s[1..][..j];
      j + 1
  }

  /** `List.Remove(x)`: the first occurrence of `x` taken out; the list as it was when `x` is absent. */
  function RemoveFirst<T(==)>(s: seq<T>, x: T): (r: seq<T>)
    ensures x in s ==> r == s[..FirstIndex(s, x)] + s[FirstIndex(s, x) + 1..]
    ensures x !in s ==> r == s
  {
    if x in s then s[..FirstIndex(s, x)] + s[FirstIndex(s, x) + 1..] else s
  }

  /** A prefix of a sequence without repetitions has none either. */
  lemma DistinctPrefix<T>(s: seq<T>, r: seq<T>)
    requires Distinct(s) && r <= s
    ensures Distinct(r)
  {
  }

  /** Two sequences without repetitions and without a common element join into one without repetitions. */
  lemma DistinctConcat<T>(a: seq<T>, b: seq<T>)
    requires Distinct(a) && Distinct(b)
    requires forall i, j :: 0 <= i < |a| && 0 <= j < |b| ==> a[i] != b[j]
    ensures Distinct(a + b)
  {
    var c := a + b;
    forall i, j | 0 <= i < j < |c|
      ensures c[i] != c[j]
    {
      if j < |a| {
        assert c[i] == a[i] && c[j] == a[j];
      } else if i < |a| {
        assert c[i] == a[i] && c[j] == b[j - |a|];
      } else {
        assert c[i] == b[i - |a|] && c[j] == b[j - |a|];
      }
    }
  }

  /** Removing one position keeps a sequence free of repetitions and drops exactly that element. */
  lemma DistinctRemove<T>(s: seq<T>, k: int)
    requires 0 <= k < |s|
    ensures Distinct(s) ==> Distinct(s[..k] + s[k + 1..]) && s[k] !in s[..k] + s[k + 1..]
  {
    if !Distinct(s) {
      return;
    }
    var r := s[..k] + s[k + 1..];
    forall i, j | 0 <= i < j < |r|
      ensures r[i] != r[j]
    {
      var i' := if i < k then i else i + 1;
      var j' := if j < k then j else j + 1;
      assert r[i] == s[i'] && r[j] == s[j'];
    }
    forall i | 0 <= i < |r|
      ensures r[i] != s[k]
    {
      var i' := if i < k then i else i + 1;
      assert r[i] == s[i'];
    }
  }

  /** A sequence without repetitions has as many distinct elements as positions. */
  lemma {:induction false} DistinctCardinality<T>(s: seq<T>)
    requires Distinct(s)
    ensures |set x | x in s| == |s|
  {
    if |s| > 0 {
      var init := s[..|s| - 1];
      DistinctCardinality(init);
      assert (set x | x in s) == (set x | x in init) + {s[|s| - 1]};
      assert s[|s| - 1] !in init;
    }
  }

  /** No sequence has more distinct elements than positions. */
  lemma {:induction false} CardinalityAtMostLength<T>(s: seq<T>)
    ensures |set x | x in s| <= |s|
  {
    if |s| > 0 {
      var init := s[..|s| - 1];
      CardinalityAtMostLength(init);
      assert (set x | x in s) == (set x | x in init) + {s[|s| - 1]};
    }
  }

  /** A repetition-free sequence drawn from `b` is no longer than `b`. */
  lemma DistinctSubsequenceLength<T>(a: seq<T>, b: seq<T>)
    requires Distinct(a)
    requires forall x :: x in a ==> x in b
    ensures |a| <= |b|
  {
    DistinctCardinality(a);
    CardinalityAtMostLength(b);
    assert (set x | x in a) <= (set x | x in b);
    SubsetCardinality(set x | x in a, set x | x in b);
  }

  /** A subset is no larger than its superset. */
  lemma SubsetCardinality<T>(a: set<T>, b: set<T>)
    requires a <= b
    ensures |a| <= |b|
  {
    assert b == a + (b - a);
  }

  /** The elements of `s` that do not occur in `gone`, in their order in `s`. */
  function Without<T(==)>(s: seq<T>, gone: seq<T>): (r: seq<T>)
    ensures |r| <= |s|
  {
    if |s| == 0 then []
    else Without(s[..|s| - 1], gone) + (if s[|s| - 1] in gone then [] else [s[|s| - 1]])
  }

  /** An element survives exactly when it is in `s` and not in `gone`. */
  lemma {:induction false} WithoutMembers<T>(s: seq<T>, gone: seq<T>, x: T)
    ensures x in Without(s, gone) <==> x in s && x !in gone
  {
    if |s| > 0 {
      WithoutMembers(s[..|s| - 1], gone, x);
      assert s == s[..|s| - 1] + [s[|s| - 1]];
    }
  }

  /** Removal distributes over concatenation. */
  lemma {:induction false} WithoutAppend<T>(a: seq<T>, b: seq<T>, gone: seq<T>)
    ensures Without(a + b, gone) == Without(a, gone) + Without(b, gone)
  {
    if |b| > 0 {
      var init := b[..|b| - 1];
      var x := b[|b| - 1];
      var t := if x in gone then [] else [x];
      WithoutAppend(a, init, gone);
      assert (a + b)[..|a + b| - 1] == a + init;
      assert (a + b)[|a + b| - 1] == x;
      assert Without(a + b, gone) == Without(a + init, gone) + t;
      assert Without(b, gone) == Without(init, gone) + t;
    } else {
      assert a + b == a;
    }
  }

  /** Removing elements that do not occur changes nothing. */
  lemma {:induction false} WithoutNothing<T>(s: seq<T>, gone: seq<T>)
    requires forall x :: x in s ==> x !in gone
    ensures Without(s, gone) == s
  {
    if |s| > 0 {
      WithoutNothing(s[..|s| - 1], gone);
      assert s == s[..|s| - 1] + [s[|s| - 1]];
    }
  }

  /** Removing `g` and then `h` is removing `g + h`. */
  lemma {:induction false} WithoutTwice<T>(s: seq<T>, g: seq<T>, h: seq<T>)
    ensures Without(Without(s, g), h) == Without(s, g + h)
  {
    if |s| > 0 {
      var init := s[..|s| - 1];
      var x := s[|s| - 1];
      WithoutTwice(init, g, h);
      var w := Without(init, g);
      var t := if x in h then [] else [x];
      assert Without(s, g + h) == Without(init, g + h) + (if x in g + h then [] else [x]);
      if x in g {
        assert Without(s, g) == w;
      } else {
        assert Without(s, g) == w + [x];
        assert (w + [x])[..|w + [x]| - 1] == w;
        assert Without(w + [x], h) == Without(w, h) + t;
      }
    }
  }

  /** In a sequence without repetitions, `List.Remove(x)` removes every `x`. */
  lemma RemoveFirstIsWithout<T>(s: seq<T>, x: T)
    requires Distinct(s) && x in s
    ensures RemoveFirst(s, x) == Without(s, [x])
  {
    var i := FirstIndex(s, x);
    var a, b := s[..i], s[i + 1..];
    assert s == a + [x] + b;
    forall y | y in b
      ensures y != x
    {
      var k :| 0 <= k < |b| && b[k] == y;
      assert s[i + 1 + k] == y;
    }
    WithoutSingleOccurrence(a, x, b);
  }

  /** Taking every `x` out of `a + [x] + b`, where `x` occurs only once, leaves `a + b`. */
  lemma WithoutSingleOccurrence<T>(a: seq<T>, x: T, b: seq<T>)
    requires x !in a && x !in b
    ensures Without(a + [x] + b, [x]) == a + b
  {
    var g := [x];
    assert Without(g, g) == [] by {
      assert g[..0] == [];
    }
    assert forall y :: y in a ==> y !in g;
    WithoutNothing(a, g);
    assert forall y :: y in b ==> y !in g;
    WithoutNothing(b, g);
    WithoutAppend(a, g, g);
    assert Without(a + g, g) == a;
    WithoutAppend(a + g, b, g);
  }

  /**
   * `List.Remove(x)` on a list made of what is left of `s` followed by newer
   * elements `tail`, when `x` is one of the elements of `s` still there:
   * `x` joins the removed ones and `tail` stays behind.
   */
  lemma RemoveFromWithout<T>(s: seq<T>, gone: seq<T>, tail: seq<T>, x: T)
    requires Distinct(Without(s, gone) + tail)
    requires x in s && x !in gone && x !in tail
    ensures RemoveFirst(Without(s, gone) + tail, x) == Without(s, gone + [x]) + tail
  {
    var w := Without(s, gone);
    WithoutMembers(s, gone, x);
    RemoveFirstIsWithout(w + tail, x);
    WithoutAppend(w, tail, [x]);
    WithoutTwice(s, gone, [x]);
    WithoutNothing(tail, [x]);
  }

  /** Removal keeps a sequence free of repetitions. */
  lemma {:induction false} DistinctWithout<T>(s: seq<T>, gone: seq<T>)
    requires Distinct(s)
    ensures Distinct(Without(s, gone))
  {
    if |s| > 0 {
      var init := s[..|s| - 1];
      var x := s[|s| - 1];
      DistinctWithout(init, gone);
      WithoutMembers(init, gone, x);
      assert x !in init;
    }
  }

  /**
   * A sequence that starts with `w + tail` and has at most one element more
   * is `w + tail`, or `w + tail` followed by its last element.
   */
  lemma ExtendsBy<T>(a: seq<T>, w: seq<T>, tail: seq<T>, extra: bool)
    requires |a| == |w + tail| + (if extra then 1 else 0) && a[..|w + tail|] == w + tail
    ensures !extra ==> a == w + tail
    ensures extra ==> a == w + (tail + [a[|a| - 1]])
  {
    if extra {
      assert a == a[..|w + tail|] + [a[|a| - 1]];
    } else {
      assert a == a[..|w + tail|];
    }
  }
}
