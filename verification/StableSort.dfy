/** What a sort that keeps ties in their prior order does, for any strict weak order. */
module StableSort {
  ghost predicate StrictWeak<T(!new)>(ahead: (T, T) -> bool) {
    && (forall a, b :: ahead(a, b) ==> !ahead(b, a))
    && (forall a, b, c :: !ahead(b, a) && !ahead(c, b) ==> !ahead(c, a))
  }

  /** Puts x behind everything it is not ahead of. */
  function Insert<T>(ahead: (T, T) -> bool, s: seq<T>, x: T): seq<T> {
    var n := |s| - 1;
    if s == [] || !ahead(x, s[n]) then s + [x] else Insert(ahead, s[..n], x) + [s[n]]
  }

  function SortBy<T>(ahead: (T, T) -> bool, s: seq<T>): seq<T> {
    if s == [] then [] else Insert(ahead, SortBy(ahead, s[..|s| - 1]), s[|s| - 1])
  }

  lemma {:induction false} InsertPermutes<T>(ahead: (T, T) -> bool, s: seq<T>, x: T)
    ensures multiset(Insert(ahead, s, x)) == multiset(s) + multiset{x}
  {
    var n := |s| - 1;
    if s != [] && ahead(x, s[n]) {
      InsertPermutes(ahead, s[..n], x);
      assert s == s[..n] + [s[n]];
    }
  }

  lemma {:induction false} SortPermutes<T>(ahead: (T, T) -> bool, s: seq<T>)
    ensures multiset(SortBy(ahead, s)) == multiset(s)
    ensures |SortBy(ahead, s)| == |s|
  {
    if s != [] {
      var n := |s| - 1;
      SortPermutes(ahead, s[..n]);
      InsertPermutes(ahead, SortBy(ahead, s[..n]), s[n]);
      assert s == s[..n] + [s[n]];
    }
    assert |multiset(SortBy(ahead, s))| == |multiset(s)|;
  }

  lemma InsertSnoc<T>(ahead: (T, T) -> bool, s: seq<T>, last: T, x: T)
    requires ahead(x, last)
    ensures Insert(ahead, s + [last], x) == Insert(ahead, s, x) + [last]
  {
    assert (s + [last])[..|s|] == s;
  }

  lemma SortBySnoc<T>(ahead: (T, T) -> bool, s: seq<T>, x: T)
    ensures SortBy(ahead, s + [x]) == Insert(ahead, SortBy(ahead, s), x)
  {
    assert (s + [x])[..|s|] == s;
  }

  ghost predicate Ordered<T(!new)>(ahead: (T, T) -> bool, s: seq<T>) {
    forall i, j | 0 <= i < j < |s| :: !ahead(s[j], s[i])
  }

  /** Those of s neither ahead of p nor behind it, in order. */
  function Ties<T>(ahead: (T, T) -> bool, s: seq<T>, p: T): seq<T> {
    if s == [] then []
    else
      var n := |s| - 1;
      Ties(ahead, s[..n], p) + if ahead(s[n], p) || ahead(p, s[n]) then [] else [s[n]]
  }

  ghost predicate SameTies<T(!new)>(ahead: (T, T) -> bool, a: seq<T>, b: seq<T>) {
    forall p :: Ties(ahead, a, p) == Ties(ahead, b, p)
  }

  lemma OrderedSnoc<T(!new)>(ahead: (T, T) -> bool, s: seq<T>, x: T)
    requires Ordered(ahead, s) && forall y | y in s :: !ahead(x, y)
    ensures Ordered(ahead, s + [x])
  {
    forall i, j | 0 <= i < j < |s + [x]| ensures !ahead((s + [x])[j], (s + [x])[i]) {
      assert (s + [x])[i] in s;
    }
  }

  lemma BehindAll<T(!new)>(ahead: (T, T) -> bool, s: seq<T>, x: T)
    requires StrictWeak(ahead) && Ordered(ahead, s) && (s == [] || !ahead(x, s[|s| - 1]))
    ensures forall y | y in s :: !ahead(x, y)
  {
    forall y | y in s ensures !ahead(x, y) {
      var i :| 0 <= i < |s| && s[i] == y;
      if i < |s| - 1 { assert !ahead(s[|s| - 1], s[i]); }
    }
  }

  lemma {:induction false} InsertOrders<T(!new)>(ahead: (T, T) -> bool, s: seq<T>, x: T)
    requires StrictWeak(ahead) && Ordered(ahead, s)
    ensures Ordered(ahead, Insert(ahead, s, x))
  {
    var n := |s| - 1;
    if s == [] || !ahead(x, s[n]) {
      BehindAll(ahead, s, x);
      OrderedSnoc(ahead, s, x);
    } else {
      InsertOrders(ahead, s[..n], x);
      InsertPermutes(ahead, s[..n], x);
      forall y | y in Insert(ahead, s[..n], x) ensures !ahead(s[n], y) {
        assert y in multiset(s[..n]) + multiset{x};
        if y != x {
          var i :| 0 <= i < n && s[i] == y;
        }
      }
      OrderedSnoc(ahead, Insert(ahead, s[..n], x), s[n]);
    }
  }

  lemma {:induction false} SortOrders<T(!new)>(ahead: (T, T) -> bool, s: seq<T>)
    requires StrictWeak(ahead)
    ensures Ordered(ahead, SortBy(ahead, s))
  {
    if s != [] {
      var n := |s| - 1;
      SortOrders(ahead, s[..n]);
      InsertOrders(ahead, SortBy(ahead, s[..n]), s[n]);
    }
  }

  lemma TiesSnoc<T>(ahead: (T, T) -> bool, s: seq<T>, x: T, p: T)
    ensures Ties(ahead, s + [x], p) == Ties(ahead, s, p) + if ahead(x, p) || ahead(p, x) then [] else [x]
  {
    assert (s + [x])[..|s|] == s;
  }

  lemma {:induction false} InsertKeepsTies<T(!new)>(ahead: (T, T) -> bool, s: seq<T>, x: T, p: T)
    requires StrictWeak(ahead)
    ensures Ties(ahead, Insert(ahead, s, x), p) == Ties(ahead, s + [x], p)
  {
    var n := |s| - 1;
    if s != [] && ahead(x, s[n]) {
      InsertKeepsTies(ahead, s[..n], x, p);
      TiesSnoc(ahead, Insert(ahead, s[..n], x), s[n], p);
      TiesSnoc(ahead, s[..n], x, p);
      TiesSnoc(ahead, s, x, p);
      NotBothTie(ahead, x, s[n], p);
      var t := Ties(ahead, s[..n], p);
      assert t + [] == t;
    }
  }

  lemma NotBothTie<T(!new)>(ahead: (T, T) -> bool, x: T, y: T, p: T)
    requires StrictWeak(ahead) && ahead(x, y)
    ensures ahead(x, p) || ahead(p, x) || ahead(y, p) || ahead(p, y)
  {
  }

  /** Ties keep their prior order. */
  lemma {:induction false} SortIsStable<T(!new)>(ahead: (T, T) -> bool, s: seq<T>)
    requires StrictWeak(ahead)
    ensures SameTies(ahead, SortBy(ahead, s), s)
  {
    if s != [] {
      var n := |s| - 1;
      var r := SortBy(ahead, s[..n]);
      SortIsStable(ahead, s[..n]);
      forall p ensures Ties(ahead, SortBy(ahead, s), p) == Ties(ahead, s, p) {
        InsertKeepsTies(ahead, r, s[n], p);
        TiesSnoc(ahead, r, s[n], p);
      }
    }
  }

  lemma LastIsLast<T(!new)>(ahead: (T, T) -> bool, s: seq<T>, x: T)
    requires StrictWeak(ahead) && Ordered(ahead, s) && x in s
    ensures !ahead(s[|s| - 1], x)
  {
  }

  lemma WithoutLast<T>(s: seq<T>)
    requires s != []
    ensures multiset(s[..|s| - 1]) == multiset(s) - multiset{s[|s| - 1]}
  {
    assert s == s[..|s| - 1] + [s[|s| - 1]];
  }

  lemma InitMultisets<T>(a: seq<T>, b: seq<T>)
    requires a != [] && |a| == |b| && a[|a| - 1] == b[|b| - 1] && multiset(a) == multiset(b)
    ensures multiset(a[..|a| - 1]) == multiset(b[..|b| - 1])
  {
    WithoutLast(a);
    WithoutLast(b);
  }

  lemma SameLast<T(!new)>(ahead: (T, T) -> bool, a: seq<T>, b: seq<T>)
    requires StrictWeak(ahead) && Ordered(ahead, a) && Ordered(ahead, b) && SameTies(ahead, a, b)
    requires |a| == |b| > 0 && multiset(a) == multiset(b)
    ensures a[|a| - 1] == b[|b| - 1]
  {
    var n := |a| - 1;
    var x, y := a[n], b[n];
    assert x in multiset(b) && y in multiset(a);
    LastIsLast(ahead, a, y);
    LastIsLast(ahead, b, x);
    assert Ties(ahead, a, x) == Ties(ahead, b, x);
    var ia, ib := Ties(ahead, a[..n], x), Ties(ahead, b[..n], x);
    assert (ia + [x])[|ia|] == x && (ib + [y])[|ib|] == y;
  }

  lemma InitTies<T(!new)>(ahead: (T, T) -> bool, a: seq<T>, b: seq<T>)
    requires |a| == |b| > 0 && a[|a| - 1] == b[|b| - 1] && SameTies(ahead, a, b)
    ensures SameTies(ahead, a[..|a| - 1], b[..|b| - 1])
  {
    var n := |a| - 1;
    forall p ensures Ties(ahead, a[..n], p) == Ties(ahead, b[..n], p) {
      assert Ties(ahead, a, p) == Ties(ahead, b, p);
      SameInit(Ties(ahead, a[..n], p), Ties(ahead, b[..n], p), if ahead(a[n], p) || ahead(p, a[n]) then [] else [a[n]]);
    }
  }

  /** An order and the ties' own order leave one arrangement. */
  lemma {:induction false} OnlyOneArrangement<T(!new)>(ahead: (T, T) -> bool, a: seq<T>, b: seq<T>)
    requires StrictWeak(ahead) && Ordered(ahead, a) && Ordered(ahead, b)
    requires multiset(a) == multiset(b) && SameTies(ahead, a, b)
    ensures a == b
  {
    assert |multiset(a)| == |multiset(b)|;
    if a != [] {
      var n := |a| - 1;
      SameLast(ahead, a, b);
      InitMultisets(a, b);
      InitTies(ahead, a, b);
      OnlyOneArrangement(ahead, a[..n], b[..n]);
      assert a == a[..n] + [a[n]] && b == b[..n] + [a[n]];
    }
  }

  lemma SameInit<T>(a: seq<T>, b: seq<T>, end: seq<T>)
    requires a + end == b + end
    ensures a == b
  {
    assert |a + end| == |a| + |end| && |b + end| == |b| + |end|;
    assert a == (a + end)[..|a|] && b == (b + end)[..|b|];
  }

  /** No two members of the list out of place, or level. */
  ghost predicate Strictly<T(!new)>(less: (T, T) -> bool, s: seq<T>) {
    forall i, j | 0 <= i < j < |s| :: less(s[i], s[j])
  }

  lemma StrictlySnoc<T(!new)>(less: (T, T) -> bool, s: seq<T>, x: T)
    requires Strictly(less, s) && forall y | y in s :: less(y, x)
    ensures Strictly(less, s + [x])
  {
    forall i, j | 0 <= i < j < |s + [x]| ensures less((s + [x])[i], (s + [x])[j]) {
      assert (s + [x])[i] in s;
    }
  }

  /** A list strictly in order is the only such arrangement of its members. */
  lemma {:induction false} OnlyStrictArrangement<T(!new)>(less: (T, T) -> bool, a: seq<T>, b: seq<T>)
    requires forall x, y :: less(x, y) ==> !less(y, x)
    requires Strictly(less, a) && Strictly(less, b) && multiset(a) == multiset(b)
    ensures a == b
  {
    assert |multiset(a)| == |multiset(b)|;
    if a != [] {
      var n := |a| - 1;
      assert a[n] in multiset(b) && b[n] in multiset(a);
      assert a[n] == b[n];
      InitMultisets(a, b);
      OnlyStrictArrangement(less, a[..n], b[..n]);
      assert a == a[..n] + [a[n]] && b == b[..n] + [a[n]];
    }
  }
}
