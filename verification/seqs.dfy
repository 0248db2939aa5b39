/** Sequence helpers shared by the whole model: `Array.prototype.filter`,
    the first-occurrence deduplication that `Array.from(new Set(xs))` performs,
    and removal of every occurrence of a value. */
module Seqs {

  /** No value occurs twice. */
  ghost predicate NoDup<T>(xs: seq<T>) {
    forall i, j :: 0 <= i < j < |xs| ==> xs[i] != xs[j]
  }

  /** The elements of `xs` that satisfy `p`, in their original order. */
  function Filter<T(!new)>(xs: seq<T>, p: T -> bool): (r: seq<T>)
    ensures |r| <= |xs|
    ensures forall x :: x in r <==> x in xs && p(x)
    ensures forall x :: multiset(r)[x] == if p(x) then multiset(xs)[x] else 0
    decreases |xs|
  {
    if |xs| == 0 then []
    else
      assert xs == [xs[0]] + xs[1..];
      (if p(xs[0]) then [xs[0]] else []) + Filter(xs[1..], p)
  }

  /** `a` is `b` with some elements left out, the rest in their order. */
  ghost predicate IsSubseq<T>(a: seq<T>, b: seq<T>)
    decreases |b|
  {
    |a| == 0 || (|b| > 0 && ((a[0] == b[0] && IsSubseq(a[1..], b[1..])) || IsSubseq(a, b[1..])))
  }

  /** Every sequence is a subsequence of itself. */
  lemma {:induction false} SubseqRefl<T>(xs: seq<T>)
    ensures IsSubseq(xs, xs)
    decreases |xs|
  {
    if |xs| > 0 {
      SubseqRefl(xs[1..]);
    }
  }

  /** A filter only drops elements: what it keeps stays in order. */
  lemma {:induction false} FilterSubseq<T(!new)>(xs: seq<T>, p: T -> bool)
    ensures IsSubseq(Filter(xs, p), xs)
    decreases |xs|
  {
    if |xs| > 0 {
      FilterSubseq(xs[1..], p);
      var r := Filter(xs, p);
      if p(xs[0]) {
        assert r[0] == xs[0] && r[1..] == Filter(xs[1..], p);
      } else {
        assert r == Filter(xs[1..], p);
      }
    }
  }

  /** Filtering distributes over concatenation: the result keeps the order of
      the input and drops nothing that satisfies `p`. */
  lemma {:induction false} FilterConcat<T(!new)>(xs: seq<T>, ys: seq<T>, p: T -> bool)
    ensures Filter(xs + ys, p) == Filter(xs, p) + Filter(ys, p)
    decreases |xs|
  {
    if |xs| == 0 {
      assert xs + ys == ys;
    } else {
      var x, rest := xs[0], xs[1..];
      assert xs == [x] + rest;
      ConcatAssoc([x], rest, ys);
      assert xs + ys == [x] + (rest + ys);
      var h := if p(x) then [x] else [];
      calc {
        Filter(xs + ys, p);
        { FilterCons(x, rest + ys, p); }
        h + Filter(rest + ys, p);
        { FilterConcat(rest, ys, p); }
        h + (Filter(rest, p) + Filter(ys, p));
        { ConcatAssoc(h, Filter(rest, p), Filter(ys, p)); }
        (h + Filter(rest, p)) + Filter(ys, p);
        { FilterCons(x, rest, p); }
        Filter(xs, p) + Filter(ys, p);
      }
    }
  }

  /** Concatenation is associative. */
  lemma ConcatAssoc<T>(a: seq<T>, b: seq<T>, c: seq<T>)
    ensures a + (b + c) == (a + b) + c
  {
  }

  /** One step of `Filter`: the head is kept exactly when it satisfies `p`. */
  lemma {:induction false} FilterCons<T(!new)>(x: T, xs: seq<T>, p: T -> bool)
    ensures Filter([x] + xs, p) == (if p(x) then [x] else []) + Filter(xs, p)
  {
    assert ([x] + xs)[0] == x;
    assert ([x] + xs)[1..] == xs;
  }

  /** A filter whose predicate holds everywhere is the identity. */
  lemma {:induction false} FilterAll<T(!new)>(xs: seq<T>, p: T -> bool)
    requires forall i :: 0 <= i < |xs| ==> p(xs[i])
    ensures Filter(xs, p) == xs
    decreases |xs|
  {
    if |xs| > 0 {
      FilterAll(xs[1..], p);
    }
  }

  /** A filtered duplicate-free sequence is duplicate-free. */
  lemma {:induction false} FilterNoDup<T(!new)>(xs: seq<T>, p: T -> bool)
    requires NoDup(xs)
    ensures NoDup(Filter(xs, p))
    decreases |xs|
  {
    if |xs| > 0 {
      FilterNoDup(xs[1..], p);
      var rest := Filter(xs[1..], p);
      assert xs[0] !in xs[1..];
      assert xs[0] !in rest;
    }
  }

  /** Every occurrence of `v` removed, the rest kept in order
      (`xs.filter(x => x !== v)`). */
  function RemoveAll<T(==,!new)>(xs: seq<T>, v: T): (r: seq<T>)
    ensures |r| <= |xs|
    ensures v !in r
    ensures forall x :: x != v ==> (x in r <==> x in xs)
    ensures forall x :: x != v ==> multiset(r)[x] == multiset(xs)[x]
    decreases |xs|
  {
    if |xs| == 0 then []
    else
      var rest := RemoveAll(xs[1..], v);
      assert xs == [xs[0]] + xs[1..];
      (if xs[0] == v then [] else [xs[0]]) + rest
  }

  /** Removal only drops elements: the others stay in order. */
  lemma {:induction false} RemoveAllSubseq<T(!new)>(xs: seq<T>, v: T)
    ensures IsSubseq(RemoveAll(xs, v), xs)
    decreases |xs|
  {
    if |xs| > 0 {
      RemoveAllSubseq(xs[1..], v);
      var r := RemoveAll(xs, v);
      if xs[0] != v {
        assert r[0] == xs[0] && r[1..] == RemoveAll(xs[1..], v);
      } else {
        assert r == RemoveAll(xs[1..], v);
      }
    }
  }

  /** Removing a value that does not occur changes nothing. */
  lemma {:induction false} RemoveAllAbsent<T(!new)>(xs: seq<T>, v: T)
    requires v !in xs
    ensures RemoveAll(xs, v) == xs
    decreases |xs|
  {
    if |xs| > 0 {
      RemoveAllAbsent(xs[1..], v);
      assert xs == [xs[0]] + xs[1..];
    }
  }

  /** Removing the same value twice is removing it once. */
  lemma RemoveAllIdempotent<T(!new)>(xs: seq<T>, v: T)
    ensures RemoveAll(RemoveAll(xs, v), v) == RemoveAll(xs, v)
  {
    RemoveAllAbsent(RemoveAll(xs, v), v);
  }

  /** Removal keeps a duplicate-free sequence duplicate-free. */
  lemma {:induction false} RemoveAllNoDup<T(!new)>(xs: seq<T>, v: T)
    requires NoDup(xs)
    ensures NoDup(RemoveAll(xs, v))
    decreases |xs|
  {
    if |xs| > 0 {
      RemoveAllNoDup(xs[1..], v);
      assert xs[0] !in xs[1..];
    }
  }

  /** The first occurrence of every value, in order of first appearance. */
  function Dedup<T(==,!new)>(xs: seq<T>): (r: seq<T>)
    ensures NoDup(r)
    ensures forall x :: x in r <==> x in xs
    decreases |xs|
  {
    if |xs| == 0 then []
    else
      var d := Dedup(xs[..|xs| - 1]);
      var last := xs[|xs| - 1];
      assert forall x :: x in xs <==> x in xs[..|xs| - 1] || x == last;
      if last in d then d else d + [last]
  }

  /** Deduplicating a longer sequence never reorders the values already seen:
      `Dedup(xs)` is a prefix of `Dedup(xs + ys)`. */
  lemma {:induction false} DedupPrefix<T(!new)>(xs: seq<T>, ys: seq<T>)
    ensures Dedup(xs) <= Dedup(xs + ys)
    decreases |ys|
  {
    if |ys| == 0 {
      assert xs + ys == xs;
    } else {
      var zs := xs + ys;
      assert zs[..|zs| - 1] == xs + ys[..|ys| - 1];
      DedupPrefix(xs, ys[..|ys| - 1]);
    }
  }

  /** A duplicate-free sequence is its own deduplication. */
  lemma {:induction false} DedupOfNoDup<T(!new)>(xs: seq<T>)
    requires NoDup(xs)
    ensures Dedup(xs) == xs
    decreases |xs|
  {
    if |xs| > 0 {
      var init := xs[..|xs| - 1];
      assert NoDup(init);
      DedupOfNoDup(init);
      assert xs[|xs| - 1] !in init;
      assert init + [xs[|xs| - 1]] == xs;
    }
  }

  /** The same fact for any sequence: deduplication is the identity exactly
      on duplicate-free input. */
  lemma DedupIdentityIffNoDup<T(!new)>(xs: seq<T>)
    ensures Dedup(xs) == xs <==> NoDup(xs)
  {
    if NoDup(xs) {
      DedupOfNoDup(xs);
    }
  }

  /** Deduplication only ever appends: the result of a one-element extension. */
  lemma DedupSnoc<T(!new)>(xs: seq<T>, x: T)
    ensures Dedup(xs + [x]) == if x in Dedup(xs) then Dedup(xs) else Dedup(xs) + [x]
  {
    assert (xs + [x])[..|xs + [x]| - 1] == xs;
  }

  /** Deduplicating a prefix first makes no difference. */
  lemma {:induction false} DedupOfDedupPrefix<T(!new)>(xs: seq<T>, ys: seq<T>)
    ensures Dedup(Dedup(xs) + ys) == Dedup(xs + ys)
    decreases |ys|
  {
    if |ys| == 0 {
      assert Dedup(xs) + ys == Dedup(xs);
      assert xs + ys == xs;
      DedupOfNoDup(Dedup(xs));
    } else {
      var init := ys[..|ys| - 1];
      var y := ys[|ys| - 1];
      assert ys == init + [y];
      ConcatAssoc(Dedup(xs), init, [y]);
      ConcatAssoc(xs, init, [y]);
      var d := Dedup(xs + init);
      calc {
        Dedup(Dedup(xs) + ys);
        Dedup((Dedup(xs) + init) + [y]);
        { DedupSnoc(Dedup(xs) + init, y); DedupOfDedupPrefix(xs, init); }
        if y in d then d else d + [y];
        { DedupSnoc(xs + init, y); }
        Dedup((xs + init) + [y]);
        Dedup(xs + ys);
      }
    }
  }
}
