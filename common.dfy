/** Optional values, the model of Python's `None`-or-value results. */
module Common {

  datatype Option<T> = None | Some(value: T)

  /** Writing the same value twice is writing it once. */
  lemma UpdateTwice<K, V>(m: map<K, V>, k: K, v: V)
    ensures m[k := v][k := v] == m[k := v]
  {
  }

  /** Number of elements of `s` that satisfy `p`. */
  function CountWhere<T>(s: seq<T>, p: T -> bool): (n: nat)
    ensures n <= |s|
  {
    if |s| == 0 then 0 else CountWhere(s[..|s| - 1], p) + (if p(s[|s| - 1]) then 1 else 0)
  }

  /** The elements of `s` that satisfy `p`, in their original order. */
  function FilterWhere<T>(s: seq<T>, p: T -> bool): (r: seq<T>)
    ensures |r| == CountWhere(s, p)
  {
    if |s| == 0 then []
    else
      var init := FilterWhere(s[..|s| - 1], p);
      if p(s[|s| - 1]) then init + [s[|s| - 1]] else init
  }

  /** The filtered elements are exactly the elements that satisfy `p`. */
  lemma {:induction false} FilterMembers<T>(s: seq<T>, p: T -> bool)
    ensures forall i :: 0 <= i < |FilterWhere(s, p)| ==> p(FilterWhere(s, p)[i]) && FilterWhere(s, p)[i] in s
    ensures forall i :: 0 <= i < |s| && p(s[i]) ==> s[i] in FilterWhere(s, p)
  {
    if |s| > 0 {
      FilterMembers(s[..|s| - 1], p);
      assert forall i :: 0 <= i < |s| - 1 ==> s[..|s| - 1][i] == s[i];
    }
  }

  lemma {:induction false} FilterConcat<T>(a: seq<T>, b: seq<T>, p: T -> bool)
    ensures FilterWhere(a + b, p) == FilterWhere(a, p) + FilterWhere(b, p)
    ensures CountWhere(a + b, p) == CountWhere(a, p) + CountWhere(b, p)
    decreases |b|
  {
    if |b| == 0 {
      assert a + b == a;
    } else {
      var b' := b[..|b| - 1];
      assert (a + b)[..|a + b| - 1] == a + b';
      FilterConcat(a, b', p);
    }
  }

  /** Filtering by `p` keeps everything exactly when no element fails `p`. */
  lemma {:induction false} FilterAll<T>(s: seq<T>, p: T -> bool)
    requires forall i :: 0 <= i < |s| ==> p(s[i])
    ensures FilterWhere(s, p) == s
  {
    if |s| > 0 {
      FilterAll(s[..|s| - 1], p);
      assert s[..|s| - 1] + [s[|s| - 1]] == s;
    }
  }

  /** A sequence has no element satisfying `p` exactly when its count is zero. */
  lemma {:induction false} CountZero<T>(s: seq<T>, p: T -> bool)
    ensures CountWhere(s, p) == 0 <==> forall i :: 0 <= i < |s| ==> !p(s[i])
  {
    if |s| > 0 {
      CountZero(s[..|s| - 1], p);
      assert forall i :: 0 <= i < |s| - 1 ==> s[..|s| - 1][i] == s[i];
    }
  }

  /** Filtering keeps nothing when no element satisfies `p`. */
  lemma FilterNone<T>(s: seq<T>, p: T -> bool)
    requires forall i :: 0 <= i < |s| ==> !p(s[i])
    ensures FilterWhere(s, p) == []
  {
    CountZero(s, p);
  }

  /** Filtering a single element. */
  lemma FilterOne<T>(x: T, p: T -> bool)
    ensures FilterWhere([x], p) == if p(x) then [x] else []
  {
    assert [x][..0] == [];
  }

  function Not<T>(p: T -> bool): T -> bool {
    (x: T) => !p(x)
  }

  function Either<T>(p: T -> bool, q: T -> bool): T -> bool {
    (x: T) => p(x) || q(x)
  }

  /** Every element satisfies `p` or its negation, never both. */
  lemma {:induction false} CountComplement<T>(s: seq<T>, p: T -> bool)
    ensures CountWhere(s, p) + CountWhere(s, Not(p)) == |s|
  {
    if |s| > 0 {
      CountComplement(s[..|s| - 1], p);
    }
  }

  /** Counting elements of either of two disjoint kinds adds the counts. */
  lemma {:induction false} CountEither<T>(s: seq<T>, p: T -> bool, q: T -> bool)
    requires forall i :: 0 <= i < |s| ==> !(p(s[i]) && q(s[i]))
    ensures CountWhere(s, Either(p, q)) == CountWhere(s, p) + CountWhere(s, q)
  {
    if |s| > 0 {
      CountEither(s[..|s| - 1], p, q);
    }
  }

  /** `key` tells the elements of `s` apart. */
  predicate Injective<T, K(==)>(s: seq<T>, key: T -> K) {
    forall i, j :: 0 <= i < j < |s| ==> key(s[i]) != key(s[j])
  }

  /** A key that tells the elements apart still does so after filtering. */
  lemma {:induction false} FilterInjective<T, K>(s: seq<T>, p: T -> bool, key: T -> K)
    requires Injective(s, key)
    ensures Injective(FilterWhere(s, p), key)
  {
    if |s| > 0 {
      var init := s[..|s| - 1];
      assert forall i :: 0 <= i < |init| ==> init[i] == s[i];
      FilterInjective(init, p, key);
      FilterMembers(init, p);
      var r := FilterWhere(init, p);
      var last := s[|s| - 1];
      assert FilterWhere(s, p) == if p(last) then r + [last] else r;
      forall i | 0 <= i < |r| ensures key(r[i]) != key(last) {
        assert r[i] in init;
        var k :| 0 <= k < |init| && init[k] == r[i];
      }
      if p(last) {
        var r' := r + [last];
        forall i, j | 0 <= i < j < |r'| ensures key(r'[i]) != key(r'[j]) {
          assert r'[i] == r[i];
          if j < |r| {
            assert r'[j] == r[j];
          }
        }
      }
    }
  }
}
