/** Lexicographic order on sequences, parameterised by a strict order on the
    elements. Strings compare this way in SQLite's BINARY collation and in
    JavaScript's default `sort`, and ORDER BY on several columns compares the
    column values this way too. */
module Order {

  /** `lt` is irreflexive. */
  ghost predicate Irreflexive<T(!new)>(lt: (T, T) -> bool) {
    forall x :: !lt(x, x)
  }

  /** `lt` is transitive. */
  ghost predicate Transitive<T(!new)>(lt: (T, T) -> bool) {
    forall x, y, z :: lt(x, y) && lt(y, z) ==> lt(x, z)
  }

  /** Any two distinct elements are related one way or the other. */
  ghost predicate Trichotomous<T(!new)>(lt: (T, T) -> bool) {
    forall x, y :: x != y ==> lt(x, y) || lt(y, x)
  }

  /** `a` sorts strictly before `b`: at the first position where they differ `a`
      has the smaller element, or `a` is a proper prefix of `b`. */
  predicate LexLt<T(==)>(a: seq<T>, b: seq<T>, lt: (T, T) -> bool)
    decreases |a|
  {
    if |a| == 0 then |b| > 0
    else if |b| == 0 then false
    else if a[0] == b[0] then LexLt(a[1..], b[1..], lt)
    else lt(a[0], b[0])
  }

  lemma {:induction false} LexIrreflexive<T(!new)>(a: seq<T>, lt: (T, T) -> bool)
    ensures !LexLt(a, a, lt)
    decreases |a|
  {
    if |a| > 0 {
      LexIrreflexive(a[1..], lt);
    }
  }

  lemma {:induction false} LexTransitive<T(!new)>(a: seq<T>, b: seq<T>, c: seq<T>, lt: (T, T) -> bool)
    requires Irreflexive(lt) && Transitive(lt)
    requires LexLt(a, b, lt) && LexLt(b, c, lt)
    ensures LexLt(a, c, lt)
    decreases |a|
  {
    if |a| > 0 && |b| > 0 && |c| > 0 {
      if a[0] == b[0] && b[0] == c[0] {
        LexTransitive(a[1..], b[1..], c[1..], lt);
      } else if a[0] != b[0] && b[0] != c[0] {
        assert lt(a[0], b[0]) && lt(b[0], c[0]);
      }
    }
  }

  lemma {:induction false} LexTrichotomous<T(!new)>(a: seq<T>, b: seq<T>, lt: (T, T) -> bool)
    requires Trichotomous(lt)
    requires a != b
    ensures LexLt(a, b, lt) || LexLt(b, a, lt)
    decreases |a|
  {
    if |a| > 0 && |b| > 0 && a[0] == b[0] {
      assert a == [a[0]] + a[1..] && b == [b[0]] + b[1..];
      LexTrichotomous(a[1..], b[1..], lt);
    }
  }

  /** The lexicographic order inherits the three properties from `lt`. */
  lemma LexStrictTotal<T(!new)>(lt: (T, T) -> bool)
    requires Irreflexive(lt) && Transitive(lt) && Trichotomous(lt)
    ensures forall a: seq<T> :: !LexLt(a, a, lt)
    ensures forall a: seq<T>, b: seq<T>, c: seq<T> :: LexLt(a, b, lt) && LexLt(b, c, lt) ==> LexLt(a, c, lt)
    ensures forall a: seq<T>, b: seq<T> :: a != b ==> LexLt(a, b, lt) || LexLt(b, a, lt)
  {
    forall a: seq<T> ensures !LexLt(a, a, lt) {
      LexIrreflexive(a, lt);
    }
    forall a: seq<T>, b: seq<T>, c: seq<T> | LexLt(a, b, lt) && LexLt(b, c, lt)
      ensures LexLt(a, c, lt)
    {
      LexTransitive(a, b, c, lt);
    }
    forall a: seq<T>, b: seq<T> | a != b ensures LexLt(a, b, lt) || LexLt(b, a, lt) {
      LexTrichotomous(a, b, lt);
    }
  }
}
