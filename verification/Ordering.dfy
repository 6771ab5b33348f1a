/** Go's order on strings, and sorting by a string key. */
module Ordering {

  /** Lexicographic order. */
  predicate Less(a: string, b: string) {
    b != "" && (a == "" || a[0] < b[0] || (a[0] == b[0] && Less(a[1..], b[1..])))
  }

  /** The two agree up to `k`, and there the first ends or has the smaller character. */
  predicate PartsAt(a: string, b: string, k: nat) {
    k <= |a| && k < |b| && a[..k] == b[..k] && (k == |a| || a[k] < b[k])
  }

  lemma {:induction false} LessMeans(a: string, b: string)
    ensures Less(a, b) <==> exists k: nat :: PartsAt(a, b, k)
  {
    if b != "" && a != "" && a[0] == b[0] {
      LessMeans(a[1..], b[1..]);
      if Less(a, b) {
        var k: nat :| PartsAt(a[1..], b[1..], k);
        assert a == [a[0]] + a[1..] && b == [b[0]] + b[1..];
        assert a[..k + 1] == [a[0]] + a[1..][..k] && b[..k + 1] == [b[0]] + b[1..][..k];
        assert PartsAt(a, b, k + 1);
      }
      if k: nat :| PartsAt(a, b, k) {
        assert k > 0 && a[1..][..k - 1] == a[..k][1..] && b[1..][..k - 1] == b[..k][1..];
        assert PartsAt(a[1..], b[1..], k - 1);
      }
    } else {
      if Less(a, b) {
        assert PartsAt(a, b, 0);
      }
      if k: nat :| PartsAt(a, b, k) {
        assert k > 0 ==> a[..k][0] == b[..k][0];
      }
    }
  }

  lemma {:induction false} LessIrreflexive(a: string)
    ensures !Less(a, a)
  {
    if a != "" {
      LessIrreflexive(a[1..]);
    }
  }

  lemma {:induction false} LessTransitive(a: string, b: string, c: string)
    requires Less(a, b) && Less(b, c)
    ensures Less(a, c)
  {
    if a != "" && a[0] == b[0] == c[0] {
      LessTransitive(a[1..], b[1..], c[1..]);
    }
  }

  lemma {:induction false} LessTotal(a: string, b: string)
    ensures a == b || Less(a, b) || Less(b, a)
  {
    if a != "" && b != "" && a[0] == b[0] {
      LessTotal(a[1..], b[1..]);
      assert a == [a[0]] + a[1..] && b == [b[0]] + b[1..];
    }
  }

  predicate AscendingBy<T(!new)>(key: T -> string, xs: seq<T>) {
    forall i, j | 0 <= i < j < |xs| :: Less(key(xs[i]), key(xs[j]))
  }

  /** Put `x` after every element whose key is not above its own. */
  function InsertBy<T>(key: T -> string, xs: seq<T>, x: T): (out: seq<T>)
    ensures multiset(out) == multiset(xs) + multiset{x}
  {
    if xs == [] || Less(key(x), key(xs[0])) then [x] + xs
    else
      assert xs == [xs[0]] + xs[1..];
      [xs[0]] + InsertBy(key, xs[1..], x)
  }

  lemma {:induction false} InsertKeepsAscending<T(!new)>(key: T -> string, xs: seq<T>, x: T)
    requires AscendingBy(key, xs) && forall y | y in xs :: key(y) != key(x)
    ensures AscendingBy(key, InsertBy(key, xs, x))
    ensures forall y :: y in InsertBy(key, xs, x) <==> y in xs || y == x
  {
    var out := InsertBy(key, xs, x);
    if xs == [] {
    } else if Less(key(x), key(xs[0])) {
      forall j | 0 <= j < |xs|
        ensures Less(key(x), key(xs[j]))
      {
        if j > 0 {
          LessTransitive(key(x), key(xs[0]), key(xs[j]));
        }
      }
    } else {
      LessTotal(key(x), key(xs[0]));
      var rest := InsertBy(key, xs[1..], x);
      InsertKeepsAscending(key, xs[1..], x);
      forall j | 0 <= j < |rest|
        ensures Less(key(xs[0]), key(rest[j]))
      {
        assert rest[j] in xs[1..] || rest[j] == x;
      }
    }
  }

  /** Insertion sort. */
  function SortBy<T>(key: T -> string, xs: seq<T>): (out: seq<T>)
    ensures multiset(out) == multiset(xs)
  {
    if xs == [] then []
    else
      assert xs == xs[..|xs| - 1] + [xs[|xs| - 1]];
      InsertBy(key, SortBy(key, xs[..|xs| - 1]), xs[|xs| - 1])
  }

  lemma {:induction false} InsertLast<T(!new)>(key: T -> string, xs: seq<T>, x: T)
    requires AscendingBy(key, xs + [x])
    ensures InsertBy(key, xs, x) == xs + [x]
  {
    if xs != [] {
      var all := xs + [x];
      assert all[0] == xs[0] && all[|xs|] == x;
      if Less(key(x), key(xs[0])) {
        LessTransitive(key(x), key(xs[0]), key(x));
        LessIrreflexive(key(x));
      }
      assert all[1..] == xs[1..] + [x];
      InsertLast(key, xs[1..], x);
    }
  }

  /** Sorting what is already in order changes nothing. */
  lemma {:induction false} SortOfSorted<T(!new)>(key: T -> string, xs: seq<T>)
    requires AscendingBy(key, xs)
    ensures SortBy(key, xs) == xs
  {
    if xs != [] {
      var front, last := xs[..|xs| - 1], xs[|xs| - 1];
      assert xs == front + [last];
      SortOfSorted(key, front);
      InsertLast(key, front, last);
    }
  }

  lemma HeadNotInTail<T(!new)>(key: T -> string, xs: seq<T>)
    requires xs != [] && AscendingBy(key, xs)
    ensures xs[0] !in xs[1..]
  {
    if xs[0] in xs[1..] {
      var k :| 1 <= k < |xs| && xs[k] == xs[0];
      LessIrreflexive(key(xs[0]));
    }
  }

  /** A set whose keys are distinct has one ascending listing. */
  lemma {:induction false} AscendingIsUnique<T(!new)>(key: T -> string, xs: seq<T>, ys: seq<T>)
    requires AscendingBy(key, xs) && AscendingBy(key, ys)
    requires forall x :: x in xs <==> x in ys
    ensures xs == ys
  {
    if xs != [] { assert xs[0] in ys; }
    if ys != [] { assert ys[0] in xs; }
    if xs != [] {
      var i :| 0 <= i < |ys| && ys[i] == xs[0];
      var j :| 0 <= j < |xs| && xs[j] == ys[0];
      if i > 0 && j > 0 {
        LessTransitive(key(xs[0]), key(ys[0]), key(xs[0]));
        LessIrreflexive(key(xs[0]));
      }
      assert xs[0] == ys[0];
      assert xs == [xs[0]] + xs[1..] && ys == [ys[0]] + ys[1..];
      HeadNotInTail(key, xs);
      HeadNotInTail(key, ys);
      assert forall x :: x in xs[1..] <==> x in xs && x != xs[0];
      assert forall x :: x in ys[1..] <==> x in ys && x != ys[0];
      AscendingIsUnique(key, xs[1..], ys[1..]);
    }
  }

  predicate DistinctKeys<T(!new)>(key: T -> string, s: set<T>) {
    forall x, y | x in s && y in s && key(x) == key(y) :: x == y
  }

  /** Collect a set, in whatever order it comes, into ascending order. */
  method ListBy<T(!new,==)>(key: T -> string, s: set<T>) returns (xs: seq<T>)
    requires DistinctKeys(key, s)
    ensures AscendingBy(key, xs)
    ensures forall x :: x in xs <==> x in s
  {
    xs := [];
    var todo := s;
    while todo != {}
      invariant todo <= s && AscendingBy(key, xs)
      invariant forall x :: x in xs <==> x in s - todo
      decreases |todo|
    {
      var x :| x in todo;
      InsertKeepsAscending(key, xs, x);
      xs := InsertBy(key, xs, x);
      todo := todo - {x};
    }
  }

  predicate NonDescendingBy<T(!new)>(key: T -> string, xs: seq<T>) {
    forall i, j | 0 <= i < j < |xs| :: !Less(key(xs[j]), key(xs[i]))
  }

  lemma {:induction false} InsertKeepsNonDescending<T(!new)>(key: T -> string, xs: seq<T>, x: T)
    requires NonDescendingBy(key, xs)
    ensures NonDescendingBy(key, InsertBy(key, xs, x))
  {
    if xs == [] {
    } else if Less(key(x), key(xs[0])) {
      forall j | 0 <= j < |xs|
        ensures !Less(key(xs[j]), key(x))
      {
        if Less(key(xs[j]), key(x)) {
          LessTransitive(key(xs[j]), key(x), key(xs[0]));
          LessIrreflexive(key(xs[0]));
        }
      }
    } else {
      var rest := InsertBy(key, xs[1..], x);
      InsertKeepsNonDescending(key, xs[1..], x);
      forall j | 0 <= j < |rest|
        ensures !Less(key(rest[j]), key(xs[0]))
      {
        assert rest[j] in multiset(xs[1..]) + multiset{x};
      }
    }
  }

  lemma {:induction false} SortIsOrdered<T(!new)>(key: T -> string, xs: seq<T>)
    ensures NonDescendingBy(key, SortBy(key, xs))
  {
    if xs != [] {
      SortIsOrdered(key, xs[..|xs| - 1]);
      InsertKeepsNonDescending(key, SortBy(key, xs[..|xs| - 1]), xs[|xs| - 1]);
    }
  }

  /** The same when keys may repeat: the order among equals is the order of arrival. */
  method ListTied<T(!new,==)>(key: T -> string, s: set<T>) returns (xs: seq<T>)
    ensures NonDescendingBy(key, xs) && multiset(xs) == multiset(s)
  {
    xs := [];
    var todo := s;
    while todo != {}
      invariant todo <= s && NonDescendingBy(key, xs)
      invariant multiset(xs) == multiset(s - todo)
      decreases |todo|
    {
      var x :| x in todo;
      InsertKeepsNonDescending(key, xs, x);
      xs := InsertBy(key, xs, x);
      assert s - (todo - {x}) == (s - todo) + {x};
      todo := todo - {x};
    }
  }
}
