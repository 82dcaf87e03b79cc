/** Option and Result, shared by every component. */
module Wrappers {
  datatype Option<+T> = None | Some(value: T)

  datatype Result<+T, +E> = Success(value: T) | Failure(error: E)
}

/** Byte-wise string order and the sort the service and the console rely on. */
module Ordering {

  /** Go's `<` on strings: lexicographic, with a proper prefix first. */
  predicate Less(a: string, b: string) {
    if b == [] then false
    else if a == [] then true
    else if a[0] != b[0] then a[0] < b[0]
    else Less(a[1..], b[1..])
  }

  /** The texts agree up to `k`, and there `a` ends or has the smaller character. */
  ghost predicate FirstLess(a: string, b: string, k: nat) {
    k <= |a| && k < |b| && a[..k] == b[..k] && (k == |a| || a[k] < b[k])
  }

  lemma SameFirst(a: string, b: string, k: nat)
    requires FirstLess(a, b, k) && k > 0
    ensures a[0] == b[0]
  {
    assert a[0] == a[..k][0] && b[0] == b[..k][0];
  }

  lemma {:induction false} LessIff(a: string, b: string)
    ensures Less(a, b) <==> exists k: nat :: FirstLess(a, b, k)
  {
    if b == [] {
    } else if a == [] || a[0] < b[0] {
      assert FirstLess(a, b, 0);
    } else if a[0] == b[0] {
      LessIff(a[1..], b[1..]);
      if k: nat :| FirstLess(a[1..], b[1..], k) {
        assert a[..k + 1] == [a[0]] + a[1..][..k] && b[..k + 1] == [b[0]] + b[1..][..k];
        assert FirstLess(a, b, k + 1);
      }
      if k: nat :| FirstLess(a, b, k) {
        assert k > 0;
        assert a[1..][..k - 1] == a[..k][1..] && b[1..][..k - 1] == b[..k][1..];
        assert FirstLess(a[1..], b[1..], k - 1);
      }
    } else {
      forall k: nat | FirstLess(a, b, k) ensures false {
        if k > 0 { SameFirst(a, b, k); }
      }
    }
  }

  lemma {:induction false} LessIrreflexive(a: string)
    ensures !Less(a, a)
  {
    if a != [] { LessIrreflexive(a[1..]); }
  }

  lemma {:induction false} LessTransitive(a: string, b: string, c: string)
    requires Less(a, b) && Less(b, c)
    ensures Less(a, c)
  {
    if a != [] && a[0] == b[0] && b[0] == c[0] { LessTransitive(a[1..], b[1..], c[1..]); }
  }

  lemma {:induction false} LessTotal(a: string, b: string)
    ensures a == b || Less(a, b) || Less(b, a)
  {
    if a != [] && b != [] && a[0] == b[0] {
      LessTotal(a[1..], b[1..]);
      assert a == [a[0]] + a[1..] && b == [b[0]] + b[1..];
    }
  }

  predicate StrictlySorted<T>(key: T -> string, xs: seq<T>) {
    forall i, j :: 0 <= i < j < |xs| ==> Less(key(xs[i]), key(xs[j]))
  }

  predicate DistinctKeys<T>(key: T -> string, xs: seq<T>) {
    forall i, j :: 0 <= i < j < |xs| ==> key(xs[i]) != key(xs[j])
  }

  /** Stable insertion: `x` goes before the first element that is not below it. */
  function Insert<T>(key: T -> string, x: T, xs: seq<T>): (r: seq<T>)
    ensures multiset(r) == multiset(xs) + multiset{x}
    ensures |r| == |xs| + 1
  {
    if xs == [] then [x]
    else if Less(key(xs[0]), key(x)) then
      assert xs == [xs[0]] + xs[1..];
      [xs[0]] + Insert(key, x, xs[1..])
    else [x] + xs
  }

  /** The library sort (sort.Slice, sort.SliceStable) by a string key. */
  function SortBy<T>(key: T -> string, xs: seq<T>): (r: seq<T>)
    ensures multiset(r) == multiset(xs)
    ensures |r| == |xs|
  {
    if xs == [] then []
    else
      assert xs == [xs[0]] + xs[1..];
      Insert(key, xs[0], SortBy(key, xs[1..]))
  }

  lemma {:induction false} InsertStrict<T>(key: T -> string, x: T, xs: seq<T>)
    requires StrictlySorted(key, xs)
    requires forall i :: 0 <= i < |xs| ==> key(xs[i]) != key(x)
    ensures StrictlySorted(key, Insert(key, x, xs))
  {
    if xs == [] {
    } else if Less(key(xs[0]), key(x)) {
      InsertStrict(key, x, xs[1..]);
      var rest := Insert(key, x, xs[1..]);
      forall j | 0 <= j < |rest| ensures Less(key(xs[0]), key(rest[j])) {
        assert rest[j] in multiset(xs[1..]) + multiset{x};
        if rest[j] != x { assert rest[j] in xs[1..]; }
      }
    } else {
      LessTotal(key(xs[0]), key(x));
      forall j | 0 <= j < |xs| ensures Less(key(x), key(xs[j])) {
        if j > 0 { LessTransitive(key(x), key(xs[0]), key(xs[j])); }
      }
    }
  }

  lemma {:induction false} SortByStrict<T>(key: T -> string, xs: seq<T>)
    requires DistinctKeys(key, xs)
    ensures StrictlySorted(key, SortBy(key, xs))
  {
    if xs != [] {
      SortByStrict(key, xs[1..]);
      var rest := SortBy(key, xs[1..]);
      forall i | 0 <= i < |rest| ensures key(rest[i]) != key(xs[0]) {
        assert rest[i] in multiset(xs[1..]);
        var k :| 0 <= k < |xs[1..]| && xs[1..][k] == rest[i];
        assert xs[k + 1] == rest[i];
      }
      InsertStrict(key, xs[0], rest);
    }
  }

  lemma SortedHead<T>(key: T -> string, xs: seq<T>, ys: seq<T>)
    requires StrictlySorted(key, xs) && StrictlySorted(key, ys)
    requires multiset(xs) == multiset(ys) && xs != [] && ys != []
    ensures xs[0] == ys[0]
  {
    assert xs[0] in multiset(xs) && ys[0] in multiset(ys);
    var j :| 0 <= j < |ys| && ys[j] == xs[0];
    var i :| 0 <= i < |xs| && xs[i] == ys[0];
    if i > 0 && j > 0 {
      LessTransitive(key(xs[0]), key(xs[i]), key(ys[j]));
      LessIrreflexive(key(xs[0]));
    }
  }

  /** A strictly sorted arrangement of a bag is unique, so a sort by distinct keys is canonical. */
  lemma {:induction false} SortedUnique<T>(key: T -> string, xs: seq<T>, ys: seq<T>)
    requires StrictlySorted(key, xs) && StrictlySorted(key, ys)
    requires multiset(xs) == multiset(ys)
    ensures xs == ys
  {
    assert |xs| == |multiset(xs)| && |ys| == |multiset(ys)|;
    if xs != [] {
      SortedHead(key, xs, ys);
      assert xs == [xs[0]] + xs[1..] && ys == [ys[0]] + ys[1..];
      assert multiset(xs[1..]) == multiset(xs) - multiset{xs[0]};
      assert multiset(ys[1..]) == multiset(ys) - multiset{ys[0]};
      SortedUnique(key, xs[1..], ys[1..]);
    }
  }

  lemma {:induction false} SortedOnce<T>(key: T -> string, xs: seq<T>, x: T)
    requires StrictlySorted(key, xs)
    ensures multiset(xs)[x] == if x in xs then 1 else 0
  {
    if xs != [] {
      var init, n := xs[..|xs| - 1], |xs| - 1;
      assert xs == init + [xs[n]];
      SortedOnce(key, init, x);
      forall i | 0 <= i < n ensures init[i] != xs[n] {
        LessIrreflexive(key(xs[n]));
        assert Less(key(xs[i]), key(xs[n]));
      }
    }
  }

  /** Sorted sequences with the same members are the same sequence. */
  lemma SortedSameMembers<T>(key: T -> string, xs: seq<T>, ys: seq<T>)
    requires StrictlySorted(key, xs) && StrictlySorted(key, ys)
    requires forall x :: x in xs <==> x in ys
    ensures xs == ys
  {
    forall x ensures multiset(xs)[x] == multiset(ys)[x] {
      SortedOnce(key, xs, x);
      SortedOnce(key, ys, x);
    }
    SortedUnique(key, xs, ys);
  }
}
