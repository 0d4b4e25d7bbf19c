/** Python's `list.sort(key=..., reverse=...)`: a stable sort by a key
    function. With `reverse=True` the comparisons are reversed, but elements
    with equal keys still keep their original relative order; the result is
    not the reversal of the ascending sort. */
module StableSort {
  import opened Ordering

  /** Key `a` belongs strictly before key `b` in the requested direction. */
  predicate Precedes(a: Key, b: Key, descending: bool)
  {
    if descending then KeyLess(b, a) else KeyLess(a, b)
  }

  /** No element is placed after an element whose key it strictly precedes. */
  ghost predicate SortedBy<T>(s: seq<T>, key: T -> Key, descending: bool)
  {
    forall i, j :: 0 <= i < j < |s| ==> !Precedes(key(s[j]), key(s[i]), descending)
  }

  /** The elements of `s` whose key is `k`, in their order in `s`. */
  function WithKey<T>(s: seq<T>, key: T -> Key, k: Key): seq<T>
  {
    if s == [] then []
    else WithKey(s[..|s| - 1], key, k) + (if key(s[|s| - 1]) == k then [s[|s| - 1]] else [])
  }

  /** Stability: for every key, the elements carrying it appear in `ys` in the
      same order as in `xs`. */
  ghost predicate StableFrom<T>(ys: seq<T>, xs: seq<T>, key: T -> Key)
  {
    forall k :: WithKey(ys, key, k) == WithKey(xs, key, k)
  }

  lemma {:induction false} WithKeyAppend<T>(a: seq<T>, b: seq<T>, key: T -> Key, k: Key)
    ensures WithKey(a + b, key, k) == WithKey(a, key, k) + WithKey(b, key, k)
  {
    if b != [] {
      assert (a + b)[..|a + b| - 1] == a + b[..|b| - 1];
      WithKeyAppend(a, b[..|b| - 1], key, k);
    } else {
      assert a + b == a;
    }
  }

  lemma {:induction false} WithKeyNone<T>(s: seq<T>, key: T -> Key, k: Key)
    requires forall i :: 0 <= i < |s| ==> key(s[i]) != k
    ensures WithKey(s, key, k) == []
  {
    if s != [] {
      WithKeyNone(s[..|s| - 1], key, k);
    }
  }

  /** `Precedes` is a strict total order in either direction. */
  lemma PrecedesAsymmetric(a: Key, b: Key, descending: bool)
    requires Precedes(a, b, descending)
    ensures !Precedes(b, a, descending)
  {
    if Precedes(b, a, descending) {
      KeyLessTransitive(a, b, a);
      KeyLessIrreflexive(a);
    }
  }

  lemma PrecedesTransitive(a: Key, b: Key, c: Key, descending: bool)
    requires Precedes(a, b, descending) && Precedes(b, c, descending)
    ensures Precedes(a, c, descending)
  {
    if descending {
      KeyLessTransitive(c, b, a);
    } else {
      KeyLessTransitive(a, b, c);
    }
  }

  /** With a total order, `a` before `c` means `a` before any `b` or `b` before `c`. */
  lemma PrecedesSplit(a: Key, b: Key, c: Key, descending: bool)
    requires Precedes(a, c, descending)
    ensures Precedes(a, b, descending) || Precedes(b, c, descending)
  {
    KeyLessTotal(a, b);
    if !Precedes(a, b, descending) && b != a {
      PrecedesTransitive(b, a, c, descending);
    }
  }

  /** Placing `x` after the sorted prefix `s[..j]` whose last element it does
      not precede, and before the rest, which it all precedes, keeps `s` sorted. */
  lemma InsertKeepsSorted<T>(s: seq<T>, j: nat, x: T, key: T -> Key, descending: bool)
    requires SortedBy(s, key, descending) && j <= |s|
    requires forall m :: j <= m < |s| ==> Precedes(key(x), key(s[m]), descending)
    requires j > 0 ==> !Precedes(key(x), key(s[j - 1]), descending)
    ensures SortedBy(s[..j] + [x] + s[j..], key, descending)
  {
    var r := s[..j] + [x] + s[j..];
    forall p, q | 0 <= p < q < |r| ensures !Precedes(key(r[q]), key(r[p]), descending) {
      if q < j {
        assert r[p] == s[p] && r[q] == s[q];
      } else if p > j {
        assert r[p] == s[p - 1] && r[q] == s[q - 1];
      } else if p == j {
        assert r[p] == x && r[q] == s[q - 1];
        PrecedesAsymmetric(key(x), key(s[q - 1]), descending);
      } else if q == j {
        assert r[p] == s[p] && r[q] == x;
        if Precedes(key(x), key(s[p]), descending) {
          PrecedesSplit(key(x), key(s[j - 1]), key(s[p]), descending);
        }
      } else {
        assert r[p] == s[p] && r[q] == s[q - 1];
      }
    }
  }

  /** Placing `x` before elements that all carry other keys than its own
      keeps, for every key, the order of its elements in `s + [x]`. */
  lemma InsertKeepsStable<T>(s: seq<T>, j: nat, x: T, key: T -> Key, descending: bool)
    requires j <= |s|
    requires forall m :: j <= m < |s| ==> Precedes(key(x), key(s[m]), descending)
    ensures forall k :: WithKey(s[..j] + [x] + s[j..], key, k) == WithKey(s + [x], key, k)
  {
    var front, back := s[..j], s[j..];
    assert s == front + back;
    forall k ensures WithKey(front + [x] + back, key, k) == WithKey(front + back + [x], key, k) {
      MoveAcrossOtherKeys(front, back, x, key, k, descending);
    }
  }

  /** For one key `k`: moving `x` from behind `back` to before it leaves the
      elements with key `k` in the same order. */
  lemma MoveAcrossOtherKeys<T>(front: seq<T>, back: seq<T>, x: T, key: T -> Key, k: Key, descending: bool)
    requires forall m :: 0 <= m < |back| ==> Precedes(key(x), key(back[m]), descending)
    ensures WithKey(front + [x] + back, key, k) == WithKey(front + back + [x], key, k)
  {
    WithKeyAppend(front + [x], back, key, k);
    WithKeyAppend(front, [x], key, k);
    WithKeyAppend(front + back, [x], key, k);
    WithKeyAppend(front, back, key, k);
    if key(x) == k {
      forall m | 0 <= m < |back| ensures key(back[m]) != k {
        KeyLessIrreflexive(k);
      }
      WithKeyNone(back, key, k);
    } else {
      assert WithKey([x], key, k) == WithKey([], key, k) + [];
    }
  }

  /** Inserts `x` into the sorted `s` after every element it does not
      strictly precede, so that it follows all elements with its key. */
  method Insert<T>(s: seq<T>, x: T, key: T -> Key, descending: bool) returns (r: seq<T>)
    requires SortedBy(s, key, descending)
    ensures multiset(r) == multiset(s) + multiset{x}
    ensures SortedBy(r, key, descending)
    ensures forall k :: WithKey(r, key, k) == WithKey(s + [x], key, k)
  {
    var j := |s|;
    while j > 0 && Precedes(key(x), key(s[j - 1]), descending)
      invariant 0 <= j <= |s|
      invariant forall m :: j <= m < |s| ==> Precedes(key(x), key(s[m]), descending)
    {
      j := j - 1;
    }
    r := s[..j] + [x] + s[j..];
    assert s == s[..j] + s[j..];
    InsertKeepsSorted(s, j, x, key, descending);
    InsertKeepsStable(s, j, x, key, descending);
  }

  /** `xs` stably sorted by `key`, ascending, or descending when `descending`. */
  method Sort<T>(xs: seq<T>, key: T -> Key, descending: bool) returns (ys: seq<T>)
    ensures multiset(ys) == multiset(xs)
    ensures SortedBy(ys, key, descending)
    ensures StableFrom(ys, xs, key)
  {
    ys := [];
    var i := 0;
    while i < |xs|
      invariant 0 <= i <= |xs|
      invariant multiset(ys) == multiset(xs[..i])
      invariant SortedBy(ys, key, descending)
      invariant StableFrom(ys, xs[..i], key)
    {
      var next := Insert(ys, xs[i], key, descending);
      assert xs[..i + 1] == xs[..i] + [xs[i]];
      forall k ensures WithKey(next, key, k) == WithKey(xs[..i + 1], key, k) {
        WithKeyAppend(ys, [xs[i]], key, k);
        WithKeyAppend(xs[..i], [xs[i]], key, k);
      }
      ys := next;
      i := i + 1;
    }
    assert xs[..i] == xs;
  }
}
