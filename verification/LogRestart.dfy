/** What start-up makes of the directory a previous run left behind. */
module LogRestart {
  import opened Bytes
  import opened LogModel
  import opened LogNames
  import opened Renaming
  import opened FSBackends

  /**
   The oldest file of a directory is listed first if and only if its numeral is 0 or a power of ten
   or has as many digits as the newest.
   */
  predicate OldestComesFirst(lo: nat, hi: nat)
    requires lo < hi
  {
    SameDigits(lo, hi) || lo == 0 || IsRound(lo)
  }

  lemma RoundFirst(lo: nat, n: nat)
    requires IsRound(lo) && lo < n
    ensures NameBefore(lo, n)
  {
    var a, b := Decimal(lo), Decimal(n);
    LengthMonotone(lo, n);
    LeadingDigit(n);
    ZerosFirst(a[1..], b[1..]);
    if b[0] == 1 && Zeros(b[1..]) && |a| == |b| {
      assert a == b;
      SameLengthOrder(lo, n);
    }
  }

  lemma RoundOvertakes(lo: nat, n: nat)
    requires 0 < lo && !IsRound(lo) && IsRound(n) && |Decimal(lo)| < |Decimal(n)|
    ensures NameBefore(n, lo)
  {
    LeadingDigit(lo);
    ZerosFirst(Decimal(n)[1..], Decimal(lo)[1..]);
  }

  lemma FirstIsOldestIff(listing: seq<nat>, lo: nat, hi: nat)
    requires lo < hi && NamesInOrder(listing) && HoldsExactly(listing, lo, hi)
    ensures listing != [] && (listing[0] == lo <==> OldestComesFirst(lo, hi))
  {
    FirstOfListing(listing, lo, hi, lo);
    if OldestComesFirst(lo, hi) {
      forall n: nat | lo <= n < hi && n != lo ensures NameBefore(lo, n) {
        if IsRound(lo) {
          RoundFirst(lo, n);
        } else if lo == 0 {
          LeadingDigit(n);
        } else {
          LengthMonotone(lo, n);
          LengthMonotone(n, hi - 1);
          SameLengthOrder(lo, n);
        }
      }
    } else {
      LengthMonotone(lo, hi - 1);
      var n := FindCarry(lo, hi - 1);
      CarryIsRound(n);
      LengthMonotone(lo, n - 1);
      RoundOvertakes(lo, n);
      BeforeAsymmetric(Decimal(n), Decimal(lo));
      assert lo <= n < hi && n != lo && !NameBefore(lo, n);
    }
  }

  /** A full directory loses its oldest file at a restart if and only if that file is listed first. */
  lemma RestartDropsOldestIff(l: Limits, lo: nat, hi: nat, listing: seq<nat>)
    requires Sane(l) && lo < hi && hi - lo == l.files
    requires NamesInOrder(listing) && HoldsExactly(listing, lo, hi)
    ensures lo !in Kept(l, listing) <==> OldestComesFirst(lo, hi)
  {
    ListingIs(listing, lo, hi);
    FirstIsOldestIff(listing, lo, hi);
    RestOf(listing, lo);
  }

  /**
   The listing of the directory that the backend leaves when the numeral of its next file is hi. These
   are the directories it leaves: HandleAll gives one direction and EveryNumeralReached the other.
   */
  function LeftBehind(l: Limits, hi: nat): seq<nat> {
    Listing(Oldest(l.files, hi), hi)
  }

  /** Every full directory loses its oldest file at a restart, if and only if the file limit is at most 5. */
  lemma RestartDropsOldestTrustedIff(l: Limits)
    requires Sane(l)
    ensures (forall hi: nat | l.files <= hi <= MaxNumeral(l) :: Oldest(l.files, hi) !in Kept(l, LeftBehind(l, hi)))
            <==> l.files <= 5
  {
    forall hi: nat | l.files <= hi <= MaxNumeral(l)
      ensures Oldest(l.files, hi) !in Kept(l, LeftBehind(l, hi)) <==> OldestComesFirst(Oldest(l.files, hi), hi)
    {
      ListingSorted(Oldest(l.files, hi), hi);
      RestartDropsOldestIff(l, Oldest(l.files, hi), hi, LeftBehind(l, hi));
    }
    if l.files >= 6 {
      var hi: nat := if l.files >= 9 then l.files + 2 else 11;
      var lo := Oldest(l.files, hi);
      assert 2 <= lo < 10 <= hi - 1;
      assert Decimal(lo) == [lo];
      assert !OldestComesFirst(lo, hi);
    }
  }

  /** What a restart makes of a directory in order: all its files, but the oldest of a full list. */
  function KeptInOrder(l: Limits, lo: nat, hi: nat): seq<nat>
    requires lo < hi
  {
    Window(if hi - lo == l.files then lo + 1 else lo, hi)
  }

  lemma WindowFromRest(listing: seq<nat>, lo: nat, hi: nat)
    requires lo < hi && NamesInOrder(listing) && HoldsExactly(listing, lo, hi)
    requires listing != [] && listing[1..] == Window(lo + 1, hi)
    ensures listing == Window(lo, hi)
  {
    assert listing[0] in listing;
    if listing[0] > lo {
      assert listing[1..][listing[0] - lo - 1] == listing[0];
    }
    RestOf(listing, listing[0]);
    assert listing == [listing[0]] + listing[1..];
  }

  /**
   A restart keeps the newest files, all but the oldest of a full list, in order, if and only if the
   first and the last numeral have equally many digits; the files are then renumbered without loss.
   */
  lemma RestartInOrderIff(l: Limits, d: Directory, lo: nat, hi: nat, listing: seq<nat>)
    requires Sane(l) && lo < hi && hi - lo <= l.files
    requires NamesInOrder(listing) && HoldsExactly(listing, lo, hi)
    requires forall n: nat :: n in d <==> n in listing
    ensures Kept(l, listing) == KeptInOrder(l, lo, hi) <==> SameDigits(lo, hi)
    ensures SameDigits(lo, hi) ==>
      var kept := KeptInOrder(l, lo, hi);
      NoClash(kept) && Restarted(l, d, RenameFrom(KeptOnDisk(l, d, listing), kept, 0), kept)
  {
    var kept := KeptInOrder(l, lo, hi);
    ListingIs(listing, lo, hi);
    ListingOldestFirstIff(listing, lo, hi);
    if SameDigits(lo, hi) {
      assert Kept(l, listing) == kept;
      IncreasingNoClash(kept);
      KeptRenumbered(l, d, listing);
    } else if Kept(l, listing) == kept && hi - lo == l.files {
      WindowFromRest(listing, lo, hi);
    }
  }

  /** The names of a directory whose numerals pass from one digit to two, in sort order. */
  function AcrossTen(lo: nat, hi: nat): (names: seq<nat>)
    requires lo < 10 < hi
    ensures |names| == hi - lo
  {
    Window(Min(lo, 2), 2) + Window(10, hi) + Window(Max(lo, 2), 10)
  }

  function Max(a: nat, b: nat): (m: nat)
    ensures m >= a && m >= b && (m == a || m == b)
  {
    if a >= b then a else b
  }

  lemma TwoDigits(m: nat)
    requires 10 <= m < 100
    ensures Decimal(m) == [m / 10, m % 10]
  {
  }

  lemma AcrossTenInOrder(lo: nat, hi: nat)
    requires lo < 10 < hi <= 10 * Max(lo, 2)
    ensures NamesInOrder(AcrossTen(lo, hi))
  {
    var all, a, b := AcrossTen(lo, hi), 2 - Min(lo, 2), hi - 10;
    forall i, j | 0 <= i < j < |all| ensures NameBefore(all[i], all[j]) {
      if a <= i < a + b {
        TwoDigits(all[i]);
      }
      if a <= j < a + b {
        TwoDigits(all[j]);
      }
      if a <= i && j < a + b {
        SameLengthOrder(all[i], all[j]);
      }
    }
  }

  /** A directory that passes numeral 10 lists the files from 10 on before the older ones from 2 to 9. */
  lemma ListingAcrossTen(listing: seq<nat>, lo: nat, hi: nat)
    requires lo < 10 < hi <= 10 * Max(lo, 2)
    requires NamesInOrder(listing) && HoldsExactly(listing, lo, hi)
    ensures listing == AcrossTen(lo, hi)
  {
    AcrossTenInOrder(lo, hi);
    forall n: nat ensures n in AcrossTen(lo, hi) <==> lo <= n < hi {
      MemberOfAcrossTen(lo, hi, n);
    }
    ListingUnique(listing, AcrossTen(lo, hi));
  }

  lemma MemberOfAcrossTen(lo: nat, hi: nat, n: nat)
    requires lo < 10 < hi
    ensures n in AcrossTen(lo, hi) <==> lo <= n < hi
  {
    var all, a, b := AcrossTen(lo, hi), 2 - Min(lo, 2), hi - 10;
    if lo <= n < hi {
      var i := if n < 2 then n - lo else if n < 10 then a + b + (n - Max(lo, 2)) else a + (n - 10);
      assert all[i] == n;
    }
  }

  /** In a sorted list, the k-th of some names in order comes at place k at the earliest. */
  lemma {:induction false} PlaceAtLeast(list: seq<nat>, names: seq<nat>, k: nat) returns (i: nat)
    requires NamesInOrder(list) && NamesInOrder(names) && k < |names|
    requires forall n :: n in names ==> n in list
    ensures k <= i < |list| && list[i] == names[k]
  {
    assert names[k] in names;
    i :| 0 <= i < |list| && list[i] == names[k];
    if k > 0 {
      var j := PlaceAtLeast(list, names, k - 1);
      BeforeAsymmetric(Decimal(names[k - 1]), Decimal(names[k]));
    }
  }

  /** The number of consecutive files across numeral 10 that a restart still renumbers without loss. */
  function SafeAcrossTen(l: Limits, lo: nat, hi: nat): nat
    requires lo <= hi
  {
    if hi - lo == l.files then 11 else 10
  }

  lemma FewAcrossTen(l: Limits, lo: nat, hi: nat, listing: seq<nat>)
    requires lo < 10 < hi && hi - lo <= SafeAcrossTen(l, lo, hi)
    requires NamesInOrder(listing) && HoldsExactly(listing, lo, hi)
    ensures NoClash(Kept(l, listing))
  {
    ListingAcrossTen(listing, lo, hi);
    var kept := Kept(l, listing);
    forall k | 0 <= k < |kept| ensures !Clash(kept, k) {
      var later := kept[k + 1..];
      forall n | n in later ensures n != k {
        var j :| 0 <= j < |later| && later[j] == n;
        assert kept[k + 1 + j] == n;
      }
    }
  }

  lemma ManyAcrossTen(l: Limits, lo: nat, hi: nat, listing: seq<nat>)
    requires lo < 10 < hi && hi - lo > SafeAcrossTen(l, lo, hi)
    requires NamesInOrder(listing) && HoldsExactly(listing, lo, hi)
    ensures !NoClash(Kept(l, listing))
  {
    ListingIs(listing, lo, hi);
    var m := Max(lo, 2);
    var t := Min(hi, 10 * m);
    var names := AcrossTen(lo, t);
    AcrossTenInOrder(lo, t);
    forall n | n in names ensures n in listing {
      MemberOfAcrossTen(lo, t, n);
    }
    var k := 2 - Min(lo, 2) + t - 10;
    assert names[k] == m;
    var i := PlaceAtLeast(listing, names, k);
    var kept := Kept(l, listing);
    var place := if hi - lo == l.files then i - 1 else i;
    assert kept[place] == m && m < place;
    assert kept[m + 1..][place - m - 1] == m;
    assert Clash(kept, m);
  }

  /**
   At a restart, a directory that passes numeral 10 is renumbered with newer files before older ones.
   That overwrites none if and only if it has at most 11 files when full, or at most 10 otherwise.
   */
  lemma RestartAcrossTenIff(l: Limits, lo: nat, hi: nat, listing: seq<nat>)
    requires lo < 10 < hi && hi - lo <= l.files
    requires NamesInOrder(listing) && HoldsExactly(listing, lo, hi)
    ensures NoClash(Kept(l, listing)) <==> hi - lo <= SafeAcrossTen(l, lo, hi)
  {
    if hi - lo <= SafeAcrossTen(l, lo, hi) {
      FewAcrossTen(l, lo, hi, listing);
    } else {
      ManyAcrossTen(l, lo, hi, listing);
    }
  }

  lemma InOrderNoClash(l: Limits, lo: nat, hi: nat, listing: seq<nat>)
    requires lo < hi && SameDigits(lo, hi)
    requires NamesInOrder(listing) && HoldsExactly(listing, lo, hi)
    ensures NoClash(Kept(l, listing))
  {
    ListingOldestFirstIff(listing, lo, hi);
    IncreasingNoClash(Kept(l, listing));
  }

  lemma RestartSafe(l: Limits, hi: nat)
    requires Sane(l) && l.files <= 11 && 1 <= hi <= MaxNumeral(l)
    ensures NoClash(Kept(l, LeftBehind(l, hi)))
  {
    var lo := Oldest(l.files, hi);
    ListingSorted(lo, hi);
    if lo < 10 < hi {
      RestartAcrossTenIff(l, lo, hi, Listing(lo, hi));
    } else {
      if lo >= 10 {
        TwoDigits(lo);
        TwoDigits(hi - 1);
      }
      InOrderNoClash(l, lo, hi, Listing(lo, hi));
    }
  }

  lemma RestartUnsafe(l: Limits)
    requires l.files > 11
    ensures !NoClash(Kept(l, LeftBehind(l, 11)))
  {
    ListingSorted(0, 11);
    RestartAcrossTenIff(l, 0, 11, Listing(0, 11));
  }

  /**
   The restart of every directory that the backend can leave overwrites no file, if and only if the
   file limit is at most 11.
   */
  lemma RestartSafeIff(l: Limits)
    requires Sane(l)
    ensures (forall hi: nat | 1 <= hi <= MaxNumeral(l) :: NoClash(Kept(l, LeftBehind(l, hi)))) <==> l.files <= 11
  {
    if l.files <= 11 {
      forall hi: nat | 1 <= hi <= MaxNumeral(l) ensures NoClash(Kept(l, LeftBehind(l, hi))) {
        RestartSafe(l, hi);
      }
    } else {
      RestartUnsafe(l);
    }
  }

  /** With the default limit of 8 files, a restart right after file 10 was started removes file 10, the newest. */
  lemma DefaultLimitLosesNewest(l: Limits, listing: seq<nat>)
    requires Sane(l) && l.files == 8
    requires NamesInOrder(listing) && HoldsExactly(listing, 3, 11)
    ensures Kept(l, listing) == Window(3, 10)
  {
    ListingAcrossTen(listing, 3, 11);
  }
}
