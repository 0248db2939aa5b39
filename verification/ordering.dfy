/** Sorting by display name, as `[...xs].sort((a, b) => a.name.localeCompare(b.name))`
    does in the channel lists and in the category query. The locale collation
    is replaced by lexicographic code-point order, which is a total preorder
    like the collation it stands for. */
module Ordering {
  import Seqs

  /** `a` sorts no later than `b`. */
  predicate NameLe(a: string, b: string)
    decreases |a|
  {
    |a| == 0 || (|b| > 0 && (a[0] < b[0] || (a[0] == b[0] && NameLe(a[1..], b[1..]))))
  }

  /** `a` sorts strictly before `b`. */
  predicate NameLt(a: string, b: string) {
    NameLe(a, b) && !NameLe(b, a)
  }

  lemma {:induction false} NameLeReflexive(a: string)
    ensures NameLe(a, a)
    decreases |a|
  {
    if |a| > 0 {
      NameLeReflexive(a[1..]);
    }
  }

  lemma {:induction false} NameLeTotal(a: string, b: string)
    ensures NameLe(a, b) || NameLe(b, a)
    decreases |a|
  {
    if |a| > 0 && |b| > 0 && a[0] == b[0] {
      NameLeTotal(a[1..], b[1..]);
    }
  }

  lemma {:induction false} NameLeTransitive(a: string, b: string, c: string)
    requires NameLe(a, b) && NameLe(b, c)
    ensures NameLe(a, c)
    decreases |a|
  {
    if |a| > 0 && |b| > 0 && |c| > 0 && a[0] == b[0] && b[0] == c[0] {
      NameLeTransitive(a[1..], b[1..], c[1..]);
    }
  }

  /** Names that sort equal in both directions are the same name. */
  lemma {:induction false} NameLeAntisymmetric(a: string, b: string)
    requires NameLe(a, b) && NameLe(b, a)
    ensures a == b
    decreases |a|
  {
    if |a| > 0 {
      NameLeAntisymmetric(a[1..], b[1..]);
      assert a == [a[0]] + a[1..];
      assert b == [b[0]] + b[1..];
    }
  }

  /** Every element sorts no later than every later element. */
  ghost predicate SortedBy<T>(xs: seq<T>, key: T -> string) {
    forall i, j :: 0 <= i < j < |xs| ==> NameLe(key(xs[i]), key(xs[j]))
  }

  /** Inserts `x` into a sorted sequence after every element whose key does
      not sort after its own, so equal names keep their arrival order. */
  function Insert<T(==)>(x: T, xs: seq<T>, key: T -> string): (r: seq<T>)
    requires SortedBy(xs, key)
    ensures SortedBy(r, key)
    ensures multiset(r) == multiset(xs) + multiset{x}
    ensures |r| == |xs| + 1
    decreases |xs|
  {
    if |xs| == 0 then [x]
    else if NameLt(key(x), key(xs[0])) then
      assert SortedBy([x] + xs, key) by {
        forall j | 0 < j < |xs| + 1 ensures NameLe(key(x), key(([x] + xs)[j])) {
          if j > 1 {
            NameLeTransitive(key(x), key(xs[0]), key(xs[j - 1]));
          }
        }
      }
      [x] + xs
    else
      NameLeTotal(key(x), key(xs[0]));
      var rest := Insert(x, xs[1..], key);
      assert xs == [xs[0]] + xs[1..];
      HeadBelowRest(xs, x, rest, key);
      ConsSorted(xs[0], rest, key);
      [xs[0]] + rest
  }

  /** The head of a sorted sequence sorts no later than anything made of its
      tail and an element that does not sort before it. */
  lemma HeadBelowRest<T>(xs: seq<T>, x: T, rest: seq<T>, key: T -> string)
    requires |xs| > 0 && SortedBy(xs, key)
    requires NameLe(key(xs[0]), key(x))
    requires multiset(rest) == multiset(xs[1..]) + multiset{x}
    ensures forall k :: 0 <= k < |rest| ==> NameLe(key(xs[0]), key(rest[k]))
  {
    forall k | 0 <= k < |rest| ensures NameLe(key(xs[0]), key(rest[k])) {
      var y := rest[k];
      assert y in multiset(rest);
      if y != x {
        assert y in multiset(xs[1..]);
        var m :| 0 <= m < |xs[1..]| && xs[1..][m] == y;
        assert xs[m + 1] == y;
      }
    }
  }

  /** A sorted sequence stays sorted under a head that sorts before all of it. */
  lemma ConsSorted<T>(h: T, rest: seq<T>, key: T -> string)
    requires SortedBy(rest, key)
    requires forall k :: 0 <= k < |rest| ==> NameLe(key(h), key(rest[k]))
    ensures SortedBy([h] + rest, key)
  {
    var r := [h] + rest;
    forall i, j | 0 <= i < j < |r| ensures NameLe(key(r[i]), key(r[j])) {
      assert r[j] == rest[j - 1];
      if i > 0 {
        assert r[i] == rest[i - 1];
      }
    }
  }

  /** Sort by name, stable by `SortByStable`. */
  function SortBy<T(==)>(xs: seq<T>, key: T -> string): (r: seq<T>)
    ensures SortedBy(r, key)
    ensures multiset(r) == multiset(xs)
    ensures |r| == |xs|
    decreases |xs|
  {
    if |xs| == 0 then []
    else
      assert xs == xs[..|xs| - 1] + [xs[|xs| - 1]];
      Insert(xs[|xs| - 1], SortBy(xs[..|xs| - 1], key), key)
  }

  /** The elements whose key is `k`, in their order. */
  function WithKey<T>(xs: seq<T>, key: T -> string, k: string): seq<T>
    decreases |xs|
  {
    if |xs| == 0 then []
    else (if key(xs[0]) == k then [xs[0]] else []) + WithKey(xs[1..], key, k)
  }

  lemma {:induction false} WithKeyConcat<T>(xs: seq<T>, ys: seq<T>, key: T -> string, k: string)
    ensures WithKey(xs + ys, key, k) == WithKey(xs, key, k) + WithKey(ys, key, k)
    decreases |xs|
  {
    if |xs| == 0 {
      assert xs + ys == ys;
    } else {
      var x, rest := xs[0], xs[1..];
      assert xs == [x] + rest;
      Seqs.ConcatAssoc([x], rest, ys);
      assert xs + ys == [x] + (rest + ys);
      var h := if key(x) == k then [x] else [];
      calc {
        WithKey(xs + ys, key, k);
        { WithKeyCons(x, rest + ys, key, k); }
        h + WithKey(rest + ys, key, k);
        { WithKeyConcat(rest, ys, key, k); }
        h + (WithKey(rest, key, k) + WithKey(ys, key, k));
        { Seqs.ConcatAssoc(h, WithKey(rest, key, k), WithKey(ys, key, k)); }
        (h + WithKey(rest, key, k)) + WithKey(ys, key, k);
        { WithKeyCons(x, rest, key, k); }
        WithKey(xs, key, k) + WithKey(ys, key, k);
      }
    }
  }

  /** One step of `WithKey`: the head is kept exactly when it has the name. */
  lemma {:induction false} WithKeyCons<T>(x: T, xs: seq<T>, key: T -> string, k: string)
    ensures WithKey([x] + xs, key, k) == (if key(x) == k then [x] else []) + WithKey(xs, key, k)
  {
    assert ([x] + xs)[0] == x;
    assert ([x] + xs)[1..] == xs;
  }

  /** `Array.prototype.sort` is stable: for every name, the elements
      carrying it appear in the sorted sequence in their original order. */
  lemma {:induction false} SortByStable<T>(xs: seq<T>, key: T -> string, k: string)
    ensures WithKey(SortBy(xs, key), key, k) == WithKey(xs, key, k)
    decreases |xs|
  {
    if |xs| > 0 {
      var init := xs[..|xs| - 1];
      var last := xs[|xs| - 1];
      assert xs == init + [last];
      SortByStable(init, key, k);
      InsertStable(last, SortBy(init, key), key, k);
      WithKeyConcat(init, [last], key, k);
    }
  }

  /** Inserting puts the new element after every element with its name. */
  lemma {:induction false} InsertStable<T>(x: T, xs: seq<T>, key: T -> string, k: string)
    requires SortedBy(xs, key)
    ensures WithKey(Insert(x, xs, key), key, k) == WithKey(xs, key, k) + WithKey([x], key, k)
    decreases |xs|
  {
    if |xs| == 0 {
      assert Insert(x, xs, key) == [x];
      assert xs + [x] == [x];
      WithKeyConcat(xs, [x], key, k);
    } else if NameLt(key(x), key(xs[0])) {
      InsertFrontStable(x, xs, key, k);
    } else {
      SortedTail(xs, key);
      InsertStable(x, xs[1..], key, k);
      InsertLaterStable(x, xs, key, k);
    }
  }

  /** The step after the head: if inserting into the tail keeps the order of
      each name, so does inserting into the whole sequence. */
  lemma {:induction false} InsertLaterStable<T>(x: T, xs: seq<T>, key: T -> string, k: string)
    requires SortedBy(xs, key) && |xs| > 0 && !NameLt(key(x), key(xs[0]))
    requires SortedBy(xs[1..], key)
    requires WithKey(Insert(x, xs[1..], key), key, k) == WithKey(xs[1..], key, k) + WithKey([x], key, k)
    ensures WithKey(Insert(x, xs, key), key, k) == WithKey(xs, key, k) + WithKey([x], key, k)
  {
    InsertLater(x, xs, key);
    assert xs == [xs[0]] + xs[1..];
    WithKeyStep(xs[0], Insert(x, xs[1..], key), Insert(x, xs, key), xs[1..], xs, [x], key, k);
  }

  /** Putting the same head in front of two sequences whose kept elements
      differ by a suffix keeps that difference. */
  lemma {:induction false} WithKeyStep<T>(y: T, a: seq<T>, ya: seq<T>, b: seq<T>, yb: seq<T>, tail: seq<T>, key: T -> string, k: string)
    requires ya == [y] + a && yb == [y] + b
    requires WithKey(a, key, k) == WithKey(b, key, k) + WithKey(tail, key, k)
    ensures WithKey(ya, key, k) == WithKey(yb, key, k) + WithKey(tail, key, k)
  {
    var h := if key(y) == k then [y] else [];
    var wa, wb, wt := WithKey(a, key, k), WithKey(b, key, k), WithKey(tail, key, k);
    WithKeyCons(y, a, key, k);
    assert WithKey(ya, key, k) == h + wa;
    WithKeyCons(y, b, key, k);
    assert WithKey(yb, key, k) == h + wb;
    Seqs.ConcatAssoc(h, wb, wt);
  }

  /** An element sorting strictly before the head goes in front, and no
      element of `xs` carries its name. */
  lemma {:induction false} InsertFrontStable<T>(x: T, xs: seq<T>, key: T -> string, k: string)
    requires SortedBy(xs, key) && |xs| > 0 && NameLt(key(x), key(xs[0]))
    ensures WithKey(Insert(x, xs, key), key, k) == WithKey(xs, key, k) + WithKey([x], key, k)
  {
    assert Insert(x, xs, key) == [x] + xs;
    WithKeyCons(x, xs, key, k);
    WithKeyCons(x, [], key, k);
    assert [x] + [] == [x];
    assert WithKey([], key, k) == [];
    if key(x) == k {
      forall i | 0 <= i < |xs| ensures key(xs[i]) != k {
        if i == 0 {
          NameLeReflexive(key(xs[0]));
        } else {
          assert NameLe(key(xs[0]), key(xs[i]));
        }
      }
      WithKeyNone(xs, key, k);
    }
  }

  /** An element not sorting before the head goes after it. */
  lemma {:induction false} InsertLater<T>(x: T, xs: seq<T>, key: T -> string)
    requires SortedBy(xs, key) && |xs| > 0 && !NameLt(key(x), key(xs[0]))
    ensures SortedBy(xs[1..], key)
    ensures Insert(x, xs, key) == [xs[0]] + Insert(x, xs[1..], key)
  {
    SortedTail(xs, key);
  }

  /** The tail of a sorted sequence is sorted. */
  lemma {:induction false} SortedTail<T>(xs: seq<T>, key: T -> string)
    requires SortedBy(xs, key) && |xs| > 0
    ensures SortedBy(xs[1..], key)
  {
    forall i, j | 0 <= i < j < |xs| - 1 ensures NameLe(key(xs[1..][i]), key(xs[1..][j])) {
      assert xs[1..][i] == xs[i + 1] && xs[1..][j] == xs[j + 1];
    }
  }

  /** Nothing carries the name: nothing is kept. */
  lemma {:induction false} WithKeyNone<T>(xs: seq<T>, key: T -> string, k: string)
    requires forall i :: 0 <= i < |xs| ==> key(xs[i]) != k
    ensures WithKey(xs, key, k) == []
    decreases |xs|
  {
    if |xs| > 0 {
      WithKeyNone(xs[1..], key, k);
    }
  }

  /** Sorting an already sorted sequence changes nothing, so a re-render of a
      sorted view is stable. */
  lemma {:induction false} SortBySorted<T>(xs: seq<T>, key: T -> string)
    requires SortedBy(xs, key)
    ensures SortBy(xs, key) == xs
    decreases |xs|
  {
    if |xs| > 0 {
      var init := xs[..|xs| - 1];
      var last := xs[|xs| - 1];
      assert SortedBy(init, key);
      SortBySorted(init, key);
      InsertAfterAll(last, init, key);
      assert init + [last] == xs;
    }
  }

  /** Inserting an element that sorts no earlier than everything appends it. */
  lemma {:induction false} InsertAfterAll<T>(x: T, xs: seq<T>, key: T -> string)
    requires SortedBy(xs, key)
    requires forall i :: 0 <= i < |xs| ==> NameLe(key(xs[i]), key(x))
    ensures Insert(x, xs, key) == xs + [x]
    decreases |xs|
  {
    if |xs| > 0 {
      InsertAfterAll(x, xs[1..], key);
      assert xs == [xs[0]] + xs[1..];
    }
  }

  /** Filtering a sorted sequence leaves it sorted. */
  lemma {:induction false} FilterSorted<T(!new)>(xs: seq<T>, p: T -> bool, key: T -> string)
    requires SortedBy(xs, key)
    ensures SortedBy(Seqs.Filter(xs, p), key)
    decreases |xs|
  {
    if |xs| > 0 {
      FilterSorted(xs[1..], p, key);
      var rest := Seqs.Filter(xs[1..], p);
      var r := Seqs.Filter(xs, p);
      if p(xs[0]) {
        assert r == [xs[0]] + rest;
        forall j | 0 < j < |r| ensures NameLe(key(r[0]), key(r[j])) {
          assert r[j] in rest;
          var k :| 0 <= k < |xs[1..]| && xs[1..][k] == r[j];
          assert xs[k + 1] == r[j];
        }
      }
    }
  }
}
