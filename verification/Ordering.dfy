/** Sorted result sets and their pages: `orderBy`, `skip` and `take` of the two list queries. */
module Ordering {
  import opened Basics

  // ---- Total orders ----

  ghost predicate TotalOrder<T(!new)>(leq: (T, T) -> bool) {
    && (forall a, b :: leq(a, b) || leq(b, a))
    && (forall a, b :: leq(a, b) && leq(b, a) ==> a == b)
    && (forall a, b, c :: leq(a, b) && leq(b, c) ==> leq(a, c))
  }

  /** Code-point order on strings, standing in for the database's collation. */
  predicate LexLeq(a: string, b: string) {
    || a == ""
    || (b != "" && (a[0] < b[0] || (a[0] == b[0] && LexLeq(a[1..], b[1..]))))
  }

  /** Two texts agree on the first n characters. */
  ghost predicate AgreeOn(a: string, b: string, n: nat) {
    n <= |a| && n <= |b| && forall i | 0 <= i < n :: a[i] == b[i]
  }

  /** At index k two texts differ for the first time, and the first has the smaller character there. */
  ghost predicate SmallerAt(a: string, b: string, k: nat) {
    AgreeOn(a, b, k) && k < |a| && k < |b| && a[k] < b[k]
  }

  /** One text stands before another: it is a proper prefix, or has the smaller character where they first differ. */
  ghost predicate Precedes(a: string, b: string) {
    (|a| < |b| && AgreeOn(a, b, |a|)) || exists k: nat :: SmallerAt(a, b, k)
  }

  lemma {:induction false} LexMeans(a: string, b: string)
    ensures LexLeq(a, b) <==> a == b || Precedes(a, b)
  {
    if a != "" && b != "" {
      if a[0] == b[0] {
        LexMeans(a[1..], b[1..]);
        SameStart(a, b);
      } else {
        FirstDiffers(a, b);
      }
    }
  }

  lemma FirstDiffers(a: string, b: string)
    requires a != "" && b != "" && a[0] != b[0]
    ensures Precedes(a, b) <==> a[0] < b[0]
  {
    if a[0] < b[0] {
      assert SmallerAt(a, b, 0);
    }
  }

  lemma AgreeNext(a: string, b: string, n: nat)
    requires a != "" && b != "" && a[0] == b[0]
    ensures AgreeOn(a, b, n + 1) <==> AgreeOn(a[1..], b[1..], n)
  {
    if AgreeOn(a[1..], b[1..], n) {
      forall i | 0 <= i < n + 1 ensures a[i] == b[i] {
        if i > 0 {
          assert a[1..][i - 1] == b[1..][i - 1];
        }
      }
    }
    if AgreeOn(a, b, n + 1) {
      forall i | 0 <= i < n ensures a[1..][i] == b[1..][i] {
        assert a[i + 1] == b[i + 1];
      }
    }
  }

  lemma SmallerNext(a: string, b: string, k: nat)
    requires a != "" && b != "" && a[0] == b[0]
    ensures SmallerAt(a, b, k + 1) <==> SmallerAt(a[1..], b[1..], k)
  {
    AgreeNext(a, b, k);
  }

  lemma SameStart(a: string, b: string)
    requires a != "" && b != "" && a[0] == b[0]
    ensures a == b <==> a[1..] == b[1..]
    ensures Precedes(a, b) <==> Precedes(a[1..], b[1..])
  {
    assert a == [a[0]] + a[1..] && b == [b[0]] + b[1..];
    AgreeNext(a, b, |a| - 1);
    if k: nat :| SmallerAt(a, b, k) {
      SmallerNext(a, b, k - 1);
    }
    if k: nat :| SmallerAt(a[1..], b[1..], k) {
      SmallerNext(a, b, k);
    }
  }

  lemma {:induction false} LexTotal(a: string, b: string)
    ensures LexLeq(a, b) || LexLeq(b, a)
    ensures LexLeq(a, b) && LexLeq(b, a) ==> a == b
  {
    if a != "" && b != "" && a[0] == b[0] {
      LexTotal(a[1..], b[1..]);
      assert a == [a[0]] + a[1..] && b == [b[0]] + b[1..];
    }
  }

  lemma {:induction false} LexTransitive(a: string, b: string, c: string)
    requires LexLeq(a, b) && LexLeq(b, c)
    ensures LexLeq(a, c)
  {
    if a != "" && b != "" && c != "" && a[0] == b[0] == c[0] {
      LexTransitive(a[1..], b[1..], c[1..]);
    }
  }

  lemma LexTotalOrder()
    ensures TotalOrder(LexLeq)
  {
    forall a, b ensures (LexLeq(a, b) || LexLeq(b, a)) && (LexLeq(a, b) && LexLeq(b, a) ==> a == b) {
      LexTotal(a, b);
    }
    forall a, b, c | LexLeq(a, b) && LexLeq(b, c) ensures LexLeq(a, c) {
      LexTransitive(a, b, c);
    }
  }

  // ---- Sorting a set of rows ----

  ghost predicate IsLeast<T(!new)>(m: T, s: set<T>, leq: (T, T) -> bool) {
    m in s && forall x | x in s :: leq(m, x)
  }

  lemma {:induction false} LeastExists<T(!new)>(s: set<T>, leq: (T, T) -> bool)
    requires TotalOrder(leq) && s != {}
    ensures exists m :: IsLeast(m, s, leq)
  {
    var x :| x in s;
    if s == {x} {
      assert IsLeast(x, s, leq);
    } else {
      LeastExists(s - {x}, leq);
      var m :| IsLeast(m, s - {x}, leq);
      var least := if leq(m, x) then m else x;
      forall y | y in s ensures leq(least, y) {
        assert y == x || leq(m, y);
      }
      assert IsLeast(least, s, leq);
    }
  }

  /** The rows of a set in ascending order. */
  ghost function SortBy<T(!new)>(s: set<T>, leq: (T, T) -> bool): (sorted: seq<T>)
    requires TotalOrder(leq)
    ensures |sorted| == |s|
    ensures forall x :: x in sorted <==> x in s
    ensures forall i, j | 0 <= i < j < |sorted| :: leq(sorted[i], sorted[j]) && sorted[i] != sorted[j]
    decreases |s|
  {
    if s == {} then []
    else
      LeastExists(s, leq);
      var m :| IsLeast(m, s, leq);
      [m] + SortBy(s - {m}, leq)
  }

  ghost predicate Lists<T(!new)>(listing: seq<T>, s: set<T>, leq: (T, T) -> bool) {
    && (forall x :: x in listing <==> x in s)
    && forall i, j | 0 <= i < j < |listing| :: leq(listing[i], listing[j]) && listing[i] != listing[j]
  }

  lemma ListingSplits<T(!new)>(listing: seq<T>, s: set<T>, leq: (T, T) -> bool)
    requires TotalOrder(leq) && s != {} && Lists(listing, s, leq)
    ensures listing != [] && IsLeast(listing[0], s, leq)
    ensures Lists(listing[1..], s - {listing[0]}, leq)
  {
    var m: T :| m in s;
    assert m in listing;
    forall x | x in s ensures leq(listing[0], x) {
      var i :| 0 <= i < |listing| && listing[i] == x;
      assert leq(x, x);
    }
    forall x ensures x in listing[1..] <==> x in s - {listing[0]} {
      if x in listing[1..] {
        var i :| 0 <= i < |listing[1..]| && listing[1..][i] == x;
        assert listing[i + 1] == x;
      }
      if x in s - {listing[0]} {
        var i :| 0 <= i < |listing| && listing[i] == x;
        assert listing[1..][i - 1] == x;
      }
    }
  }

  lemma ListingEmptyIff<T(!new)>(listing: seq<T>, s: set<T>, leq: (T, T) -> bool)
    requires Lists(listing, s, leq)
    ensures listing == [] <==> s == {}
  {
    if listing != [] {
      assert listing[0] in s;
    }
  }

  lemma {:induction false} ListingsAgree<T(!new)>(x: seq<T>, y: seq<T>, s: set<T>, leq: (T, T) -> bool)
    requires TotalOrder(leq) && Lists(x, s, leq) && Lists(y, s, leq)
    ensures x == y
    decreases |x|
  {
    ListingEmptyIff(x, s, leq);
    ListingEmptyIff(y, s, leq);
    if s != {} {
      ListingSplits(x, s, leq);
      ListingSplits(y, s, leq);
      ListingsAgree(x[1..], y[1..], s - {x[0]}, leq);
    }
  }

  /** There is only one way to list a set in ascending order. */
  lemma SortedUnique<T(!new)>(s: set<T>, leq: (T, T) -> bool, listing: seq<T>)
    requires TotalOrder(leq) && Lists(listing, s, leq)
    ensures listing == SortBy(s, leq)
  {
    ListingsAgree(listing, SortBy(s, leq), s, leq);
  }

  lemma ListingGrows<T(!new)>(sorted: seq<T>, s: set<T>, rest: set<T>, m: T, leq: (T, T) -> bool)
    requires rest <= s && m in rest && Lists(sorted, s - rest, leq)
    requires forall x, y | x in s - rest && y in rest :: leq(x, y)
    ensures Lists(sorted + [m], s - (rest - {m}), leq)
  {
    var longer := sorted + [m];
    forall i, j | 0 <= i < j < |longer| ensures leq(longer[i], longer[j]) && longer[i] != longer[j] {
      assert longer[i] in sorted;
    }
  }

  /** `ORDER BY`, by selecting the least remaining row: it produces the one ascending listing. */
  method Sort<T(!new, ==)>(s: set<T>, leq: (T, T) -> bool) returns (sorted: seq<T>)
    requires TotalOrder(leq)
    ensures sorted == SortBy(s, leq)
  {
    sorted := [];
    var rest := s;
    while rest != {}
      invariant rest <= s && Lists(sorted, s - rest, leq)
      invariant forall x, y | x in s - rest && y in rest :: leq(x, y)
      decreases |rest|
    {
      LeastExists(rest, leq);
      assert exists m :: m in rest && forall x | x in rest :: leq(m, x) by {
        var m :| IsLeast(m, rest, leq);
      }
      var m :| m in rest && forall x | x in rest :: leq(m, x);
      ListingGrows(sorted, s, rest, m, leq);
      sorted := sorted + [m];
      rest := rest - {m};
    }
    assert s - rest == s;
    SortedUnique(s, leq, sorted);
  }

  // ---- What the start of a listing holds ----

  function Elements<T>(s: seq<T>): set<T> {
    set x | x in s
  }

  lemma {:induction false} ElementsCount<T>(s: seq<T>)
    requires Distinct(s)
    ensures |Elements(s)| == |s|
  {
    if s == [] {
      assert Elements(s) == {};
    } else {
      var n := |s| - 1;
      ElementsCount(s[..n]);
      assert s == s[..n] + [s[n]];
      assert Elements(s) == Elements(s[..n]) + {s[n]};
    }
  }

  lemma SameSizeSubset<T>(a: set<T>, b: set<T>)
    requires a <= b && |b| <= |a|
    ensures a == b
  {
    assert b == a + (b - a);
    assert |b| == |a| + |b - a|;
  }

  lemma PrefixCount<T(!new)>(listing: seq<T>, all: set<T>, leq: (T, T) -> bool, n: nat)
    requires Lists(listing, all, leq) && n <= |listing|
    ensures |listing| == |all| && |Elements(listing[..n])| == n && Elements(listing[..n]) <= all
  {
    ElementsCount(listing);
    assert Elements(listing) == all;
    assert Distinct(listing[..n]);
    ElementsCount(listing[..n]);
  }

  lemma PrefixHolds<T>(listing: seq<T>, n: nat)
    requires n <= |listing|
    ensures forall i | 0 <= i < n :: listing[i] in Elements(listing[..n])
  {
    assert forall i | 0 <= i < n :: listing[..n][i] == listing[i];
  }

  /** If the added elements come before all older ones, they all stand before the older one at index i. */
  lemma AddedStandBefore<T(!new)>(listing: seq<T>, older: set<T>, added: set<T>, leq: (T, T) -> bool, i: nat)
    requires TotalOrder(leq) && Lists(listing, older + added, leq) && older !! added
    requires forall a, o | a in added && o in older :: leq(a, o)
    requires i < |listing| && listing[i] in older
    ensures |added| <= i
  {
    PrefixHolds(listing, i);
    forall a | a in added ensures a in Elements(listing[..i]) {
      assert a in older + added;
      var j :| 0 <= j < |listing| && listing[j] == a;
      assert leq(a, listing[i]);
      assert j < i;
    }
    PrefixCount(listing, older + added, leq, i);
    SubsetSize(added, Elements(listing[..i]));
  }

  lemma SubsetSize<T>(a: set<T>, b: set<T>)
    requires a <= b
    ensures |a| <= |b|
  {
    assert b == a + (b - a);
  }

  lemma AddedFirst<T(!new)>(listing: seq<T>, older: set<T>, added: set<T>, leq: (T, T) -> bool, n: nat)
    requires TotalOrder(leq) && Lists(listing, older + added, leq) && older !! added
    requires |added| == n <= |listing| && forall a, o | a in added && o in older :: leq(a, o)
    ensures Elements(listing[..n]) == added
  {
    PrefixCount(listing, older + added, leq, n);
    forall i | 0 <= i < n ensures listing[i] in added {
      assert listing[i] in older + added;
      if listing[i] in older {
        AddedStandBefore(listing, older, added, leq, i);
        assert false;
      }
    }
    SameSizeSubset(Elements(listing[..n]), added);
  }

  /** The first n of an ascending listing of older and added elements, where n covers the added ones, are exactly
      the added ones if and only if there are no older ones, or there are n added ones and each comes before every
      older one. */
  lemma PrefixIsAdded<T(!new)>(listing: seq<T>, older: set<T>, added: set<T>, leq: (T, T) -> bool, n: nat)
    requires TotalOrder(leq) && Lists(listing, older + added, leq) && older !! added && |added| <= n
    ensures Elements(listing[..Min(n, |listing|)]) == added
       <==> older == {} || (|added| == n && forall a, o | a in added && o in older :: leq(a, o))
  {
    var m := Min(n, |listing|);
    PrefixCount(listing, older + added, leq, m);
    if older == {} {
      assert older + added == added;
      SameSizeSubset(Elements(listing[..m]), added);
    } else if Elements(listing[..m]) == added {
      assert |older + added| == |older| + |added|;
      PrefixHolds(listing, m);
      forall a, o | a in added && o in older ensures leq(a, o) {
        assert o in older + added;
        var i :| 0 <= i < m && listing[..m][i] == a;
        var j :| 0 <= j < |listing| && listing[j] == o;
        assert j >= m && listing[i] == a;
      }
    } else if |added| == n && forall a, o | a in added && o in older :: leq(a, o) {
      assert |older + added| == |older| + |added|;
      AddedFirst(listing, older, added, leq, n);
    }
  }

  // ---- Pages ----

  function Slice<T>(rows: seq<T>, skip: nat, take: nat): (slice: seq<T>)
    ensures forall i | 0 <= i < |slice| :: slice[i] in rows
  {
    var from := Min(skip, |rows|);
    rows[from..Min(from + take, |rows|)]
  }

  /** `skip: (page - 1) * limit, take: limit`. */
  function Page<T>(rows: seq<T>, page: nat, limit: nat): (p: seq<T>)
    requires page >= 1
    ensures forall i | 0 <= i < |p| :: p[i] in rows
  {
    Slice(rows, (page - 1) * limit, limit)
  }

  function PageCount(total: nat, limit: nat): nat
    requires limit >= 1
  {
    (total + limit - 1) / limit
  }

  /** Pages 1 to n, one after the other. */
  function FirstPages<T>(rows: seq<T>, limit: nat, n: nat): seq<T> {
    if n == 0 then [] else FirstPages(rows, limit, n - 1) + Page(rows, n, limit)
  }

  lemma SliceExtends<T>(rows: seq<T>, skip: nat, take: nat)
    ensures rows[..Min(skip, |rows|)] + Slice(rows, skip, take) == rows[..Min(skip + take, |rows|)]
  {
  }

  lemma {:induction false} FirstPagesArePrefix<T>(rows: seq<T>, limit: nat, n: nat)
    ensures FirstPages(rows, limit, n) == rows[..Min(n * limit, |rows|)]
  {
    if n > 0 {
      var skip := (n - 1) * limit;
      FirstPagesArePrefix(rows, limit, n - 1);
      SliceExtends(rows, skip, limit);
      assert n * limit == skip + limit;
    }
  }

  lemma MultipleGap(a: nat, b: nat, m: nat)
    requires a < b
    ensures a * m + m <= b * m
  {
    assert b * m == a * m + (b - a) * m;
    assert (b - a) * m == m + (b - a - 1) * m;
  }

  lemma CeilingCovers(total: nat, limit: nat, page: nat)
    requires limit >= 1
    ensures total <= PageCount(total, limit) * limit
    ensures page > PageCount(total, limit) ==> (page - 1) * limit >= total
  {
    var n := PageCount(total, limit);
    assert total + limit - 1 == n * limit + (total + limit - 1) % limit;
    if page - 1 > n {
      MultipleGap(n, page - 1, limit);
    }
  }

  /** Pages 1 to ceil(total / limit) are the whole listing, and every later page is empty. */
  lemma PagesPartition<T>(rows: seq<T>, limit: nat, later: nat)
    requires limit >= 1 && later > PageCount(|rows|, limit)
    ensures FirstPages(rows, limit, PageCount(|rows|, limit)) == rows
    ensures Page(rows, later, limit) == []
  {
    FirstPagesArePrefix(rows, limit, PageCount(|rows|, limit));
    CeilingCovers(|rows|, limit, later);
  }

  lemma PageHolds(i: nat, limit: nat, page: nat)
    requires limit >= 1 && page >= 1
    ensures (page - 1) * limit <= i < (page - 1) * limit + limit <==> page == i / limit + 1
  {
    var q := i / limit;
    assert i == q * limit + i % limit;
    if page - 1 > q {
      MultipleGap(q, page - 1, limit);
    } else if page - 1 < q {
      MultipleGap(page - 1, q, limit);
    }
  }

  lemma InSlice<T>(rows: seq<T>, i: nat, skip: nat, take: nat)
    requires i < |rows| && Distinct(rows)
    ensures rows[i] in Slice(rows, skip, take) <==> skip <= i < skip + take
  {
    var from := Min(skip, |rows|);
    var slice := Slice(rows, skip, take);
    if rows[i] in slice {
      var k :| 0 <= k < |slice| && slice[k] == rows[i];
      assert rows[from + k] == rows[i];
    }
    if skip <= i < skip + take {
      assert slice[i - from] == rows[i];
    }
  }

  /** Every row of a listing without repetitions is on exactly one page. */
  lemma EachRowOnOnePage<T>(rows: seq<T>, i: nat, limit: nat, page: nat)
    requires limit >= 1 && page >= 1 && i < |rows| && Distinct(rows)
    ensures rows[i] in Page(rows, page, limit) <==> page == i / limit + 1
  {
    PageHolds(i, limit, page);
    InSlice(rows, i, (page - 1) * limit, limit);
  }

  lemma PageAt<T>(rows: seq<T>, page: nat, limit: nat, i: nat)
    requires page >= 1 && i < |Page(rows, page, limit)|
    ensures (page - 1) * limit + i < |rows| && Page(rows, page, limit)[i] == rows[(page - 1) * limit + i]
  {
  }

  // ---- A page, told by rank ----

  ghost function Earlier<T(!new)>(wanted: set<T>, before: (T, T) -> bool, row: T): set<T> {
    set x | x in wanted && before(x, row)
  }

  /** A stretch of the wanted rows without mention of a sorted listing: its row at index i is the wanted row that
      skip + i wanted rows come before, and it is as long as asked for unless the rows end. */
  ghost predicate StretchByRank<T(!new)>(wanted: set<T>, before: (T, T) -> bool, skip: nat, limit: nat, rows: seq<T>) {
    && |rows| == (if |wanted| <= skip then 0 else if limit <= |wanted| - skip then limit else |wanted| - skip)
    && forall i | 0 <= i < |rows| :: rows[i] in wanted && |Earlier(wanted, before, rows[i])| == skip + i
  }

  /** A page: the stretch after the pages before it. */
  ghost predicate PageByRank<T(!new)>(wanted: set<T>, before: (T, T) -> bool, page: nat, limit: nat, rows: seq<T>)
    requires page >= 1
  {
    StretchByRank(wanted, before, (page - 1) * limit, limit, rows)
  }

  lemma RankIsIndex<T(!new)>(listing: seq<T>, all: set<T>, leq: (T, T) -> bool, before: (T, T) -> bool, n: nat)
    requires TotalOrder(leq) && Lists(listing, all, leq) && n < |listing|
    requires forall x, y | x in all && y in all :: before(x, y) <==> x != y && leq(x, y)
    ensures |Earlier(all, before, listing[n])| == n
  {
    PrefixHolds(listing, n);
    PrefixCount(listing, all, leq, n);
    forall x | x in Earlier(all, before, listing[n]) ensures x in Elements(listing[..n]) {
      var i :| 0 <= i < |listing| && listing[i] == x;
      assert listing[n] in all;
      assert i < n;
    }
    forall x | x in Elements(listing[..n]) ensures x in Earlier(all, before, listing[n]) {
      var i :| 0 <= i < n && listing[..n][i] == x;
      assert listing[i] == x && listing[n] in all;
    }
    assert Earlier(all, before, listing[n]) == Elements(listing[..n]);
  }

  lemma SliceAt<T>(rows: seq<T>, skip: nat, limit: nat, i: nat)
    requires i < |Slice(rows, skip, limit)|
    ensures skip + i < |rows| && Slice(rows, skip, limit)[i] == rows[skip + i]
  {
  }

  /** The row at each index of a listing has that index as its rank. */
  ghost predicate RanksAreIndices<T(!new)>(wanted: set<T>, before: (T, T) -> bool, listing: seq<T>) {
    && |listing| == |wanted|
    && forall n | 0 <= n < |listing| :: listing[n] in wanted && |Earlier(wanted, before, listing[n])| == n
  }

  lemma ListingHasRanks<T(!new)>(wanted: set<T>, leq: (T, T) -> bool, before: (T, T) -> bool, listing: seq<T>)
    requires TotalOrder(leq) && Lists(listing, wanted, leq)
    requires forall x, y | x in wanted && y in wanted :: before(x, y) <==> x != y && leq(x, y)
    ensures RanksAreIndices(wanted, before, listing)
  {
    PrefixCount(listing, wanted, leq, 0);
    forall n | 0 <= n < |listing| ensures listing[n] in wanted && |Earlier(wanted, before, listing[n])| == n {
      RankIsIndex(listing, wanted, leq, before, n);
    }
  }

  lemma SliceHasRanks<T(!new)>(wanted: set<T>, before: (T, T) -> bool, listing: seq<T>, skip: nat, limit: nat)
    requires RanksAreIndices(wanted, before, listing)
    ensures StretchByRank(wanted, before, skip, limit, Slice(listing, skip, limit))
  {
    var rows := Slice(listing, skip, limit);
    forall i | 0 <= i < |rows| ensures rows[i] in wanted && |Earlier(wanted, before, rows[i])| == skip + i {
      SliceAt(listing, skip, limit, i);
    }
  }

  lemma PageOfRanks<T(!new)>(wanted: set<T>, before: (T, T) -> bool, listing: seq<T>, page: nat, limit: nat)
    requires page >= 1 && RanksAreIndices(wanted, before, listing)
    ensures PageByRank(wanted, before, page, limit, Page(listing, page, limit))
  {
    SliceHasRanks(wanted, before, listing, (page - 1) * limit, limit);
  }

  /** The page of the sorted listing is the page by rank. */
  lemma PageHasRanks<T(!new)>(wanted: set<T>, leq: (T, T) -> bool, before: (T, T) -> bool, page: nat, limit: nat)
    requires TotalOrder(leq) && page >= 1
    requires forall x, y | x in wanted && y in wanted :: before(x, y) <==> x != y && leq(x, y)
    ensures PageByRank(wanted, before, page, limit, Page(SortBy(wanted, leq), page, limit))
  {
    ListingHasRanks(wanted, leq, before, SortBy(wanted, leq));
    PageOfRanks(wanted, before, SortBy(wanted, leq), page, limit);
  }
}
