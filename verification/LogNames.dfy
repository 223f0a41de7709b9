/**
 Log file names. A name is a fixed prefix and a decimal numeral, and listings are sorted as
 strings, so comparing names is comparing the decimal digits of numerals lexicographically.
 */
module LogNames {
  /** The digits printed for n, most significant first. */
  function Decimal(n: nat): (d: seq<nat>)
    ensures d != []
    ensures n < 10 <==> |d| == 1
  {
    if n < 10 then [n] else Decimal(n / 10) + [n % 10]
  }

  predicate Before(a: seq<nat>, b: seq<nat>) {
    b != [] && (a == [] || a[0] < b[0] || (a[0] == b[0] && Before(a[1..], b[1..])))
  }

  predicate NameBefore(m: nat, n: nat) {
    Before(Decimal(m), Decimal(n))
  }

  lemma {:induction false} BeforeAppend(a: seq<nat>, b: seq<nat>, x: nat, y: nat)
    requires |a| == |b|
    ensures Before(a + [x], b + [y]) <==> Before(a, b) || (a == b && x < y)
    decreases |a|
  {
    if a != [] {
      assert (a + [x])[1..] == a[1..] + [x] && (b + [y])[1..] == b[1..] + [y];
      BeforeAppend(a[1..], b[1..], x, y);
      assert a[0] == b[0] && a[1..] == b[1..] ==> a == [a[0]] + a[1..] == b;
    }
  }

  /** Numerals with equally many digits are ordered like their names. */
  lemma {:induction false} SameLengthOrder(m: nat, n: nat)
    requires |Decimal(m)| == |Decimal(n)|
    ensures NameBefore(m, n) <==> m < n
    ensures Decimal(m) == Decimal(n) <==> m == n
  {
    if m < 10 {
      assert !Before(Decimal(m)[1..], Decimal(n)[1..]);
    } else {
      SameLengthOrder(m / 10, n / 10);
      assert m < n <==> m / 10 < n / 10 || (m / 10 == n / 10 && m % 10 < n % 10);
      BeforeAppend(Decimal(m / 10), Decimal(n / 10), m % 10, n % 10);
      var a, b := Decimal(m / 10) + [m % 10], Decimal(n / 10) + [n % 10];
      assert a == b ==> a[..|a| - 1] == b[..|b| - 1] && a[|a| - 1] == b[|b| - 1];
    }
  }

  lemma {:induction false} LengthMonotone(m: nat, n: nat)
    requires m <= n
    ensures |Decimal(m)| <= |Decimal(n)|
  {
    if m >= 10 {
      LengthMonotone(m / 10, n / 10);
    }
  }

  lemma OneLess(n: nat)
    requires n > 0
    ensures (n - 1) / 10 == if n % 10 == 0 then n / 10 - 1 else n / 10
  {
  }

  /** Where a digit is added the leading digit falls from 9 to 1, and the names are out of order. */
  lemma {:induction false} Carry(n: nat)
    requires n > 0 && |Decimal(n)| > |Decimal(n - 1)|
    ensures Decimal(n)[0] == 1 && Decimal(n - 1)[0] == 9
  {
    if n > 10 {
      OneLess(n);
      Carry(n / 10);
    }
  }

  lemma {:induction false} FindCarry(lo: nat, hi: nat) returns (n: nat)
    requires lo < hi && |Decimal(lo)| < |Decimal(hi)|
    ensures lo < n <= hi && |Decimal(n)| > |Decimal(n - 1)|
    decreases hi - lo
  {
    if |Decimal(hi)| > |Decimal(hi - 1)| {
      n := hi;
    } else {
      n := FindCarry(lo, hi - 1);
    }
  }

  ghost predicate NamesInOrder(list: seq<nat>) {
    forall i, j :: 0 <= i < j < |list| ==> NameBefore(list[i], list[j])
  }

  function Window(lo: nat, hi: nat): (w: seq<nat>)
    requires lo <= hi
    ensures |w| == hi - lo
    ensures forall i :: 0 <= i < |w| ==> w[i] == lo + i
  {
    seq(hi - lo, i requires 0 <= i => lo + i)
  }

  /** The first and the last of the numerals lo..hi have equally many digits. */
  predicate SameDigits(lo: nat, hi: nat)
    requires lo < hi
  {
    |Decimal(lo)| == |Decimal(hi - 1)|
  }

  lemma WindowNames(lo: nat, hi: nat)
    requires lo < hi
    ensures NamesInOrder(Window(lo, hi)) <==> SameDigits(lo, hi)
  {
    var w := Window(lo, hi);
    if SameDigits(lo, hi) {
      forall i, j | 0 <= i < j < |w| ensures NameBefore(w[i], w[j]) {
        LengthMonotone(lo, w[i]);
        LengthMonotone(w[i], w[j]);
        LengthMonotone(w[j], hi - 1);
        SameLengthOrder(w[i], w[j]);
      }
    } else {
      LengthMonotone(lo, hi - 1);
      var n := FindCarry(lo, hi - 1);
      Carry(n);
      assert w[n - 1 - lo] == n - 1 && w[n - lo] == n;
      assert !NameBefore(n - 1, n);
    }
  }

  ghost predicate Increasing(list: seq<nat>) {
    forall i, j :: 0 <= i < j < |list| ==> list[i] < list[j]
  }

  ghost predicate HoldsExactly(list: seq<nat>, lo: nat, hi: nat) {
    forall n: nat :: n in list <==> lo <= n < hi
  }

  lemma FirstOfIncreasing(list: seq<nat>, lo: nat, hi: nat)
    requires Increasing(list) && HoldsExactly(list, lo, hi) && list != []
    ensures list[0] == lo < hi
  {
    assert list[0] in list;
    assert lo in list;
    var i :| 0 <= i < |list| && list[i] == lo;
  }

  lemma RestOfIncreasing(list: seq<nat>, lo: nat, hi: nat)
    requires Increasing(list) && HoldsExactly(list, lo, hi) && list != [] && list[0] == lo
    ensures Increasing(list[1..]) && HoldsExactly(list[1..], lo + 1, hi)
  {
    var rest := list[1..];
    forall n: nat | n in rest ensures lo + 1 <= n < hi {
      var j :| 0 <= j < |rest| && rest[j] == n;
      assert list[j + 1] == n && n in list;
    }
    forall n: nat | lo + 1 <= n < hi ensures n in rest {
      assert n in list;
      var j :| 0 <= j < |list| && list[j] == n;
      assert rest[j - 1] == n;
    }
  }

  /** An increasing list that holds exactly the numerals lo..hi is the list of these in order. */
  lemma {:induction false} IncreasingIsWindow(list: seq<nat>, lo: nat, hi: nat)
    requires lo <= hi && Increasing(list) && HoldsExactly(list, lo, hi)
    ensures list == Window(lo, hi)
    decreases |list|
  {
    if list == [] {
      assert lo !in list;
    } else {
      FirstOfIncreasing(list, lo, hi);
      RestOfIncreasing(list, lo, hi);
      IncreasingIsWindow(list[1..], lo + 1, hi);
      assert list == [lo] + list[1..];
    }
  }

  /**
   A directory of consecutively numbered files is listed oldest first if and only if its first
   and last numerals have equally many digits.
   */
  lemma ListingOldestFirstIff(listing: seq<nat>, lo: nat, hi: nat)
    requires lo < hi && NamesInOrder(listing)
    requires HoldsExactly(listing, lo, hi)
    ensures listing == Window(lo, hi) <==> SameDigits(lo, hi)
  {
    WindowNames(lo, hi);
    if SameDigits(lo, hi) {
      forall i, j | 0 <= i < j < |listing| ensures listing[i] < listing[j] {
        assert listing[i] in listing && listing[j] in listing;
        LengthMonotone(lo, listing[i]);
        LengthMonotone(listing[i], hi - 1);
        LengthMonotone(lo, listing[j]);
        LengthMonotone(listing[j], hi - 1);
        SameLengthOrder(listing[i], listing[j]);
      }
      IncreasingIsWindow(listing, lo, hi);
    }
  }

  lemma {:induction false} BeforeAsymmetric(a: seq<nat>, b: seq<nat>)
    requires Before(a, b)
    ensures !Before(b, a)
    decreases |a|
  {
    if a != [] && a[0] == b[0] {
      BeforeAsymmetric(a[1..], b[1..]);
    }
  }

  lemma SameFirst(a: seq<nat>, b: seq<nat>)
    requires NamesInOrder(a) && NamesInOrder(b) && a != [] && b != []
    requires a[0] in b && b[0] in a
    ensures a[0] == b[0]
  {
    var i :| 0 <= i < |b| && b[i] == a[0];
    var j :| 0 <= j < |a| && a[j] == b[0];
    if i > 0 && NameBefore(b[0], a[0]) {
      BeforeAsymmetric(Decimal(b[0]), Decimal(a[0]));
    }
  }

  lemma RestOf(a: seq<nat>, n: nat)
    requires NamesInOrder(a) && a != []
    ensures n in a[1..] <==> n in a && n != a[0]
  {
    if n in a[1..] {
      var i :| 0 <= i < |a[1..]| && a[1..][i] == n;
      assert a[i + 1] == n && NameBefore(a[0], n);
      BeforeAsymmetric(Decimal(a[0]), Decimal(n));
    }
  }

  /** The sort order of the names determines the listing. */
  lemma {:induction false} ListingUnique(a: seq<nat>, b: seq<nat>)
    requires NamesInOrder(a) && NamesInOrder(b)
    requires forall n: nat :: n in a <==> n in b
    ensures a == b
    decreases |a|
  {
    assert a != [] ==> a[0] in a;
    assert b != [] ==> b[0] in b;
    if a != [] {
      SameFirst(a, b);
      forall n: nat ensures n in a[1..] <==> n in b[1..] {
        RestOf(a, n);
        RestOf(b, n);
      }
      ListingUnique(a[1..], b[1..]);
      assert a == [a[0]] + a[1..] && b == [b[0]] + b[1..];
    }
  }

  lemma {:induction false} BeforeTotal(a: seq<nat>, b: seq<nat>)
    ensures a == b || Before(a, b) || Before(b, a)
    decreases |a|
  {
    if a != [] && b != [] && a[0] == b[0] {
      BeforeTotal(a[1..], b[1..]);
      assert a == [a[0]] + a[1..] && b == [b[0]] + b[1..];
    }
  }

  lemma {:induction false} BeforeTransitive(a: seq<nat>, b: seq<nat>, c: seq<nat>)
    requires Before(a, b) && Before(b, c)
    ensures Before(a, c)
    decreases |a|
  {
    if a != [] && a[0] == b[0] == c[0] {
      BeforeTransitive(a[1..], b[1..], c[1..]);
    }
  }

  /** Two names are different, and one sorts before the other. */
  lemma NamesTotal(m: nat, n: nat)
    requires m != n
    ensures NameBefore(m, n) || NameBefore(n, m)
  {
    BeforeTotal(Decimal(m), Decimal(n));
    if Decimal(m) == Decimal(n) {
      SameLengthOrder(m, n);
    }
  }

  function Insert(n: nat, list: seq<nat>): seq<nat> {
    if list == [] || NameBefore(n, list[0]) then [n] + list else [list[0]] + Insert(n, list[1..])
  }

  /** The sorted names of the files lo..hi. */
  function Listing(lo: nat, hi: nat): seq<nat>
    requires lo <= hi
  {
    if lo == hi then [] else Insert(hi - 1, Listing(lo, hi - 1))
  }

  lemma {:induction false} InsertHolds(n: nat, list: seq<nat>, m: nat)
    ensures m in Insert(n, list) <==> m == n || m in list
    ensures |Insert(n, list)| == |list| + 1
  {
    if list != [] && !NameBefore(n, list[0]) {
      InsertHolds(n, list[1..], m);
      assert list == [list[0]] + list[1..];
    }
  }

  lemma InOrderCons(first: nat, rest: seq<nat>)
    requires NamesInOrder(rest) && forall m :: m in rest ==> NameBefore(first, m)
    ensures NamesInOrder([first] + rest)
  {
  }

  lemma {:induction false} InsertInOrder(n: nat, list: seq<nat>)
    requires NamesInOrder(list) && n !in list
    ensures NamesInOrder(Insert(n, list))
  {
    if list == [] {
    } else if NameBefore(n, list[0]) {
      forall m | m in list ensures NameBefore(n, m) {
        var i :| 0 <= i < |list| && list[i] == m;
        if i > 0 {
          BeforeTransitive(Decimal(n), Decimal(list[0]), Decimal(m));
        }
      }
      InOrderCons(n, list);
    } else {
      NamesTotal(n, list[0]);
      InsertInOrder(n, list[1..]);
      forall m | m in Insert(n, list[1..]) ensures NameBefore(list[0], m) {
        InsertHolds(n, list[1..], m);
        if m != n {
          var i :| 0 <= i < |list[1..]| && list[1..][i] == m;
          assert list[i + 1] == m;
        }
      }
      InOrderCons(list[0], Insert(n, list[1..]));
    }
  }

  lemma InsertNext(list: seq<nat>, lo: nat, hi: nat)
    requires lo < hi && HoldsExactly(list, lo, hi - 1)
    ensures HoldsExactly(Insert(hi - 1, list), lo, hi) && |Insert(hi - 1, list)| == |list| + 1
  {
    var after := Insert(hi - 1, list);
    InsertHolds(hi - 1, list, lo);
    forall n: nat ensures n in after <==> lo <= n < hi {
      InsertHolds(hi - 1, list, n);
    }
  }

  /** The listing of lo..hi is sorted, holds exactly these numerals, and each of them once. */
  lemma {:induction false} ListingSorted(lo: nat, hi: nat)
    requires lo <= hi
    ensures NamesInOrder(Listing(lo, hi)) && HoldsExactly(Listing(lo, hi), lo, hi) && |Listing(lo, hi)| == hi - lo
  {
    if lo < hi {
      var before := Listing(lo, hi - 1);
      ListingSorted(lo, hi - 1);
      InsertInOrder(hi - 1, before);
      InsertNext(before, lo, hi);
    }
  }

  /** Any sorted listing of exactly the files lo..hi is that one. */
  lemma ListingIs(listing: seq<nat>, lo: nat, hi: nat)
    requires lo <= hi && NamesInOrder(listing) && HoldsExactly(listing, lo, hi)
    ensures listing == Listing(lo, hi) && |listing| == hi - lo
  {
    ListingSorted(lo, hi);
    ListingUnique(listing, Listing(lo, hi));
  }

  /** The first name of a listing is the one that sorts before all others. */
  lemma FirstOfListing(listing: seq<nat>, lo: nat, hi: nat, first: nat)
    requires NamesInOrder(listing) && HoldsExactly(listing, lo, hi) && lo <= first < hi
    ensures listing != []
    ensures listing[0] == first <==> forall n: nat :: lo <= n < hi && n != first ==> NameBefore(first, n)
  {
    assert first in listing;
    var i :| 0 <= i < |listing| && listing[i] == first;
    assert listing[0] in listing;
    if listing[0] == first {
      forall n: nat | lo <= n < hi && n != first ensures NameBefore(first, n) {
        assert n in listing;
        var j :| 0 <= j < |listing| && listing[j] == n;
      }
    } else if NameBefore(first, listing[0]) {
      BeforeAsymmetric(Decimal(first), Decimal(listing[0]));
    }
  }

  predicate Zeros(d: seq<nat>) {
    forall i :: 0 <= i < |d| ==> d[i] == 0
  }

  /** A power of ten: a one followed by zeros. */
  predicate IsRound(n: nat) {
    Decimal(n)[0] == 1 && Zeros(Decimal(n)[1..])
  }

  /** Zeros sort before any other digits, unless these are fewer zeros. */
  lemma {:induction false} ZerosFirst(z: seq<nat>, d: seq<nat>)
    requires Zeros(z)
    ensures |z| < |d| ==> Before(z, d)
    ensures !Zeros(d) ==> Before(z, d)
    decreases |d|
  {
    if z != [] && d != [] {
      assert Zeros(z[1..]);
      assert d[0] == 0 && !Zeros(d) ==> !Zeros(d[1..]);
      ZerosFirst(z[1..], d[1..]);
    }
  }

  lemma {:induction false} FewerZerosFirst(z: seq<nat>, d: seq<nat>)
    requires Zeros(z) && Zeros(d) && |z| < |d|
    ensures !Before(d, z)
    decreases |z|
  {
    if z != [] {
      FewerZerosFirst(z[1..], d[1..]);
    }
  }

  lemma {:induction false} LeadingDigit(n: nat)
    ensures n > 0 ==> Decimal(n)[0] > 0
    ensures n % 10 == Decimal(n)[|Decimal(n)| - 1]
  {
    if n >= 10 {
      LeadingDigit(n / 10);
    }
  }

  /** Where a digit is added the numeral is a power of ten. */
  lemma {:induction false} CarryIsRound(n: nat)
    requires n > 0 && |Decimal(n)| > |Decimal(n - 1)|
    ensures IsRound(n)
  {
    if n > 10 {
      OneLess(n);
      assert n % 10 == 0;
      CarryIsRound(n / 10);
      assert Decimal(n)[1..] == Decimal(n / 10)[1..] + [0];
    }
  }

  /** The oldest numeral kept when at most `limit` files are kept and the next numeral is hi. */
  function Oldest(limit: nat, hi: nat): (lo: nat)
    ensures lo <= hi && (limit >= 1 && hi >= 1 ==> lo < hi)
  {
    if hi <= limit then 0 else hi - limit
  }

  /**
   The limit for which listing order can be trusted: numerals stay below twice the file limit,
   so with at most 5 files every directory the backend leaves is listed oldest first; with 6 or
   more, and so with the default of 8, the directory whose newest file has numeral 10 is not.
   */
  lemma ListingTrustedIff(limit: nat)
    requires limit >= 1
    ensures (forall hi: nat | 1 <= hi <= 2 * limit :: SameDigits(Oldest(limit, hi), hi)) <==> limit <= 5
  {
    if limit >= 6 {
      var hi: nat := 11;
      assert !SameDigits(Oldest(limit, hi), hi);
    }
  }
}
