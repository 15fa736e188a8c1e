/** Ordering of records by a sort key (a sequence of string columns, compared
    column by column as SQL's ORDER BY does) and the duplicate removal of a
    JavaScript `Set`. */
module Sorting {
  import Order
  import Strings

  /** Strict order on sort keys: lexicographic over the columns, each column
      compared as a string. */
  predicate KeyLt(a: seq<string>, b: seq<string>) {
    Order.LexLt(a, b, Strings.StrLt)
  }

  lemma KeyLtStrictTotal()
    ensures forall a: seq<string> :: !KeyLt(a, a)
    ensures forall a: seq<string>, b: seq<string>, c: seq<string> :: KeyLt(a, b) && KeyLt(b, c) ==> KeyLt(a, c)
    ensures forall a: seq<string>, b: seq<string> :: a != b ==> KeyLt(a, b) || KeyLt(b, a)
  {
    Strings.StrLtStrictTotal();
    Order.LexStrictTotal(Strings.StrLt);
  }

  /** "Not after" is transitive. */
  lemma KeyLeTransitive(a: seq<string>, b: seq<string>, c: seq<string>)
    requires !KeyLt(b, a) && !KeyLt(c, b)
    ensures !KeyLt(c, a)
  {
    KeyLtStrictTotal();
  }

  /** Single-column keys order as the strings themselves do. */
  lemma SingleKeyLt(a: string, b: string)
    ensures KeyLt([a], [b]) <==> Strings.StrLt(a, b)
  {
    Strings.StrLtStrictTotal();
    assert [a][1..] == [] && [b][1..] == [];
    assert !Order.LexLt([], [], Strings.StrLt);
    assert KeyLt([a], [b]) == if a == b then Order.LexLt([a][1..], [b][1..], Strings.StrLt) else Strings.StrLt(a, b);
  }

  /** Nondecreasing by `key`: no element sorts strictly before an earlier one. */
  predicate SortedBy<T>(xs: seq<T>, key: T -> seq<string>) {
    forall i, j :: 0 <= i < j < |xs| ==> !KeyLt(key(xs[j]), key(xs[i]))
  }

  /** Inserts `x` before the first element whose key is not smaller than its own. */
  function InsertBy<T>(x: T, xs: seq<T>, key: T -> seq<string>): (r: seq<T>)
    ensures multiset(r) == multiset(xs) + multiset{x}
  {
    if |xs| == 0 then [x]
    else
      assert xs == [xs[0]] + xs[1..];
      if KeyLt(key(xs[0]), key(x)) then [xs[0]] + InsertBy(x, xs[1..], key)
      else [x] + xs
  }

  lemma {:induction false} InsertByLowerBound<T>(k: seq<string>, x: T, xs: seq<T>, key: T -> seq<string>)
    requires !KeyLt(key(x), k)
    requires forall j :: 0 <= j < |xs| ==> !KeyLt(key(xs[j]), k)
    ensures forall j :: 0 <= j < |InsertBy(x, xs, key)| ==> !KeyLt(key(InsertBy(x, xs, key)[j]), k)
  {
    if |xs| > 0 && KeyLt(key(xs[0]), key(x)) {
      InsertByLowerBound(k, x, xs[1..], key);
    }
  }

  lemma {:induction false} InsertBySorted<T>(x: T, xs: seq<T>, key: T -> seq<string>)
    requires SortedBy(xs, key)
    ensures SortedBy(InsertBy(x, xs, key), key)
  {
    if |xs| > 0 {
      var r := InsertBy(x, xs, key);
      if KeyLt(key(xs[0]), key(x)) {
        InsertBySorted(x, xs[1..], key);
        KeyLtStrictTotal();
        InsertByLowerBound(key(xs[0]), x, xs[1..], key);
        assert r == [xs[0]] + InsertBy(x, xs[1..], key);
      } else {
        forall j | 0 <= j < |xs| ensures !KeyLt(key(xs[j]), key(x)) {
          if j > 0 {
            KeyLeTransitive(key(x), key(xs[0]), key(xs[j]));
          }
        }
        assert r == [x] + xs;
      }
    }
  }

  /** Insertion sort by `key`: the same elements, nondecreasing by key. */
  function SortBy<T>(xs: seq<T>, key: T -> seq<string>): (r: seq<T>)
    ensures multiset(r) == multiset(xs)
    ensures SortedBy(r, key)
  {
    if |xs| == 0 then []
    else
      var rest := SortBy(xs[1..], key);
      InsertBySorted(xs[0], rest, key);
      assert xs == [xs[0]] + xs[1..];
      InsertBy(xs[0], rest, key)
  }

  // ------------------------------------------------------- duplicate removal

  predicate NoDup<T(==)>(xs: seq<T>) {
    forall i, j :: 0 <= i < j < |xs| ==> xs[i] != xs[j]
  }

  /** The elements of `xs` in order of first occurrence, each once, as
      `[...new Set(xs)]` gives them. */
  function Dedupe<T(==,!new)>(xs: seq<T>): (r: seq<T>)
    ensures NoDup(r)
    ensures forall x :: x in r <==> x in xs
  {
    if |xs| == 0 then []
    else
      var d := Dedupe(xs[..|xs| - 1]);
      var last := xs[|xs| - 1];
      assert xs == xs[..|xs| - 1] + [last];
      if last in d then d else d + [last]
  }

  lemma {:induction false} NoDupCount<T>(xs: seq<T>)
    ensures NoDup(xs) <==> forall x :: multiset(xs)[x] <= 1
  {
    if |xs| > 0 {
      var h, t := xs[0], xs[1..];
      assert xs == [h] + t;
      NoDupCount(t);
      if NoDup(xs) {
        assert NoDup(t) by {
          forall i, j | 0 <= i < j < |t| ensures t[i] != t[j] {
            assert t[i] == xs[i + 1] && t[j] == xs[j + 1];
          }
        }
      }
      if forall x :: multiset(xs)[x] <= 1 {
        assert forall x :: multiset(t)[x] <= 1 by {
          forall x ensures multiset(t)[x] <= 1 {
            assert multiset(xs)[x] == multiset(t)[x] + (if x == h then 1 else 0);
          }
        }
        assert multiset(t)[h] == 0 by {
          assert multiset(xs)[h] == multiset(t)[h] + 1;
        }
        forall i, j | 0 <= i < j < |xs| ensures xs[i] != xs[j] {
          if i == 0 {
            assert xs[j] in t;
          } else {
            assert xs[i] == t[i - 1] && xs[j] == t[j - 1];
          }
        }
      }
    }
  }

  /** Reordering keeps a sequence free of duplicates. */
  lemma NoDupPermutation<T>(a: seq<T>, b: seq<T>)
    requires NoDup(a) && multiset(a) == multiset(b)
    ensures NoDup(b)
  {
    NoDupCount(a);
    NoDupCount(b);
  }

  predicate StrictlyIncreasing(xs: seq<string>) {
    forall i, j :: 0 <= i < j < |xs| ==> Strings.StrLt(xs[i], xs[j])
  }

  function SingletonKey(s: string): seq<string> {
    [s]
  }

  /** `[...new Set(xs)].sort()`: each distinct value once, in increasing order. */
  function UniqueSorted(xs: seq<string>): (r: seq<string>)
    ensures StrictlyIncreasing(r)
    ensures forall x :: x in r <==> x in xs
  {
    var d := Dedupe(xs);
    var r := SortBy(d, SingletonKey);
    assert forall x :: x in r <==> x in d by {
      forall x ensures x in r <==> x in d {
        assert x in r <==> x in multiset(r);
        assert x in d <==> x in multiset(d);
      }
    }
    NoDupPermutation(d, r);
    Strings.StrLtStrictTotal();
    forall i, j | 0 <= i < j < |r| ensures Strings.StrLt(r[i], r[j]) {
      SingleKeyLt(r[j], r[i]);
    }
    r
  }
}
