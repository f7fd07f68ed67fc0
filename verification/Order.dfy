/** Strict total orders, and the sorted listing of a set that Go's sort package yields. */
module Order {

  ghost predicate StrictTotal<T(!new)>(less: (T, T) -> bool) {
    && (forall x :: !less(x, x))
    && (forall x, y, z :: less(x, y) && less(y, z) ==> less(x, z))
    && (forall x, y :: x == y || less(x, y) || less(y, x))
  }

  predicate Sorted<T(!new)>(less: (T, T) -> bool, xs: seq<T>) {
    forall i, j :: 0 <= i < j < |xs| ==> less(xs[i], xs[j])
  }

  /** xs is the strictly ascending listing of s. */
  ghost predicate Lists<T(!new)>(less: (T, T) -> bool, xs: seq<T>, s: set<T>) {
    && Sorted(less, xs)
    && (forall x :: x in xs <==> x in s)
  }

  /** Puts x before the first element that is not below it. */
  function Insert<T>(less: (T, T) -> bool, x: T, xs: seq<T>): seq<T> {
    if xs == [] || less(x, xs[0]) then [x] + xs else [xs[0]] + Insert(less, x, xs[1..])
  }

  lemma {:induction false} InsertLists<T(!new)>(less: (T, T) -> bool, x: T, xs: seq<T>, s: set<T>)
    requires StrictTotal(less) && Lists(less, xs, s) && x !in s
    ensures Lists(less, Insert(less, x, xs), s + {x})
  {
    if xs == [] {
    } else if less(x, xs[0]) {
    } else {
      assert xs[0] in xs && xs[0] != x;
      TailLists(less, xs, s);
      InsertLists(less, x, xs[1..], s - {xs[0]});
      var rest := Insert(less, x, xs[1..]);
      forall j | 0 <= j < |rest| ensures less(xs[0], rest[j]) {
        assert rest[j] in rest;
      }
      assert s - {xs[0]} + {x} + {xs[0]} == s + {x};
    }
  }

  lemma TailLists<T(!new)>(less: (T, T) -> bool, xs: seq<T>, s: set<T>)
    requires StrictTotal(less) && Lists(less, xs, s) && xs != []
    ensures xs[0] in s && Lists(less, xs[1..], s - {xs[0]})
    ensures forall x :: x in s && x != xs[0] ==> less(xs[0], x)
  {
    assert xs[0] in xs;
    forall x ensures x in xs[1..] <==> x in s - {xs[0]} {
      if x in s - {xs[0]} {
        var i :| 0 <= i < |xs| && xs[i] == x;
        assert xs[1..][i - 1] == x;
      }
    }
  }

  /** A finite set has only one ascending listing, and it is as long as the set. */
  lemma {:induction false} ListingIsUnique<T(!new)>(less: (T, T) -> bool, xs: seq<T>, ys: seq<T>, s: set<T>)
    requires StrictTotal(less) && Lists(less, xs, s) && Lists(less, ys, s)
    ensures xs == ys && |xs| == |s|
    decreases |xs|
  {
    assert ys == [] || ys[0] in ys;
    if xs == [] {
      assert s == {};
    } else {
      TailLists(less, xs, s);
      assert xs[0] in ys;
      TailLists(less, ys, s);
      ListingIsUnique(less, xs[1..], ys[1..], s - {xs[0]});
    }
  }

  /**
   * Go's order on strings. Comparing code points, as here, and comparing the bytes
   * of the UTF-8 encodings, as Go does, order strings the same way.
   */
  predicate Less(a: string, b: string) {
    b != [] && (a == [] || a[0] < b[0] || (a[0] == b[0] && Less(a[1..], b[1..])))
  }

  /** The first difference decides, and a proper prefix comes first. */
  lemma {:induction false} FirstDifferenceDecides(a: string, b: string, n: nat)
    requires n <= |a| && n <= |b| && a[..n] == b[..n]
    ensures n < |a| && n < |b| && a[n] != b[n] ==> (Less(a, b) <==> a[n] < b[n])
    ensures n == |a| ==> (Less(a, b) <==> |a| < |b|)
    decreases n
  {
    if n > 0 {
      assert a[0] == a[..n][0] == b[..n][0] == b[0];
      assert a[1..][..n - 1] == a[..n][1..] && b[1..][..n - 1] == b[..n][1..];
      FirstDifferenceDecides(a[1..], b[1..], n - 1);
    }
  }

  lemma LessIrreflexive(a: string)
    ensures !Less(a, a)
  {
  }

  lemma LessTransitive(a: string, b: string, c: string)
    requires Less(a, b) && Less(b, c)
    ensures Less(a, c)
  {
  }

  lemma LessTotal(a: string, b: string)
    ensures a == b || Less(a, b) || Less(b, a)
  {
    if a != [] && b != [] && a[0] == b[0] {
      LessTotal(a[1..], b[1..]);
      assert a == [a[0]] + a[1..] && b == [b[0]] + b[1..];
    }
  }

  lemma LessIsStrictTotal()
    ensures StrictTotal(Less)
  {
    forall x ensures !Less(x, x) { LessIrreflexive(x); }
    forall x, y, z | Less(x, y) && Less(y, z) ensures Less(x, z) { LessTransitive(x, y, z); }
    forall x, y ensures x == y || Less(x, y) || Less(y, x) { LessTotal(x, y); }
  }
}
