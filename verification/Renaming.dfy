/** Renaming the k-th file of a list to numeral k, in list order, on a directory of numbered files. */
module Renaming {
  import opened Bytes

  type Directory = map<nat, seq<byte>>

  /** A rename replaces its target. */
  function Rename(d: Directory, from: nat, to: nat): Directory
    requires from in d
  {
    (d - {from})[to := d[from]]
  }

  /** Renames list[k..] to k, k + 1, ... until one of them is missing. */
  function RenameFrom(d: Directory, list: seq<nat>, k: nat): Directory
    requires k <= |list|
    decreases |list| - k
  {
    if k == |list| || list[k] !in d then d else RenameFrom(Rename(d, list[k], k), list, k + 1)
  }

  /** Whether every rename from place k on finds its file. */
  predicate AllFound(d: Directory, list: seq<nat>, k: nat)
    requires k <= |list|
    decreases |list| - k
  {
    k == |list| || (list[k] in d && AllFound(Rename(d, list[k], k), list, k + 1))
  }

  predicate Distinct(list: seq<nat>) {
    forall i, j :: 0 <= i < j < |list| ==> list[i] != list[j]
  }

  /** A file still to be moved holds the numeral that is written at place k. */
  predicate Clash(list: seq<nat>, k: nat)
    requires k < |list|
  {
    k in list[k + 1..]
  }

  predicate NoClash(list: seq<nat>) {
    forall k :: 0 <= k < |list| ==> !Clash(list, k)
  }

  /** d is orig after the first k renames, none of which replaced a file. */
  ghost predicate Stage(orig: Directory, d: Directory, list: seq<nat>, k: nat) {
    && k <= |list|
    && (forall j :: 0 <= j < |list| ==> list[j] in orig)
    && (forall i :: 0 <= i < k ==> i in d && d[i] == orig[list[i]])
    && (forall j :: k <= j < |list| ==> list[j] in d && d[list[j]] == orig[list[j]])
    && (forall n :: n in d ==> n < k || n in list[k..])
  }

  lemma NotEarlier(list: seq<nat>, i: nat, k: nat)
    requires i < k < |list| && !Clash(list, i)
    ensures list[k] != i
  {
    assert list[i + 1..][k - i - 1] == list[k];
  }

  lemma StageStep(orig: Directory, d: Directory, list: seq<nat>, k: nat)
    requires Distinct(list) && Stage(orig, d, list, k) && k < |list|
    requires forall i :: 0 <= i <= k ==> !Clash(list, i)
    ensures Stage(orig, Rename(d, list[k], k), list, k + 1)
  {
    if list[k] < k {
      NotEarlier(list, list[k], k);
    }
    forall j | k < j < |list| ensures list[j] != k {
      NotEarlier(list, k, j);
    }
    assert list[k..] == [list[k]] + list[k + 1..];
  }

  lemma StageEnd(orig: Directory, d: Directory, list: seq<nat>)
    requires Stage(orig, d, list, |list|)
    ensures forall n: nat :: n in d <==> n < |list|
  {
    assert list[|list|..] == [];
    assert forall i :: 0 <= i < |list| ==> i in d;
  }

  lemma RenameOne(d: Directory, list: seq<nat>, k: nat)
    requires k < |list| && list[k] in d
    ensures RenameFrom(d, list, k) == RenameFrom(Rename(d, list[k], k), list, k + 1)
    ensures AllFound(d, list, k) == AllFound(Rename(d, list[k], k), list, k + 1)
  {
  }

  /** Without clashes every file keeps its content and its place in the list. */
  lemma {:induction false} RenumberPreserves(orig: Directory, d: Directory, list: seq<nat>, k: nat)
    requires Distinct(list) && NoClash(list) && Stage(orig, d, list, k)
    ensures Stage(orig, RenameFrom(d, list, k), list, |list|)
    ensures AllFound(d, list, k)
    decreases |list| - k
  {
    if k < |list| {
      StageStep(orig, d, list, k);
      RenameOne(d, list, k);
      RenumberPreserves(orig, Rename(d, list[k], k), list, k + 1);
    }
  }

  /** A content that is nowhere in the directory does not come back. */
  lemma {:induction false} LostStaysLost(d: Directory, list: seq<nat>, k: nat, content: seq<byte>)
    requires k <= |list| && content !in d.Values
    ensures content !in RenameFrom(d, list, k).Values
    decreases |list| - k
  {
    if k < |list| && list[k] in d {
      var d' := Rename(d, list[k], k);
      forall n | n in d' ensures d'[n] != content {
        var m := if n == k then list[k] else n;
        assert d'[n] == d[m] && d[m] in d.Values;
      }
      LostStaysLost(d', list, k + 1, content);
    }
  }

  ghost predicate DistinctContents(d: Directory) {
    forall m, n :: m in d && n in d && m != n ==> d[m] != d[n]
  }

  /** What is written over at a clash is nowhere afterwards. */
  lemma WrittenOver(orig: Directory, d: Directory, list: seq<nat>, k: nat) returns (lost: nat)
    requires Distinct(list) && DistinctContents(orig) && Stage(orig, d, list, k)
    requires k < |list| && Clash(list, k)
    ensures lost < |list| && orig[list[lost]] !in Rename(d, list[k], k).Values
  {
    var i :| 0 <= i < |list[k + 1..]| && list[k + 1..][i] == k;
    lost := k + 1 + i;
    assert list[lost] == k;
    var d' := Rename(d, list[k], k);
    forall n | n in d' ensures d'[n] != orig[k] {
      if n > k {
        assert n in list[k..];
        var j :| 0 <= j < |list[k..]| && list[k..][j] == n;
        assert list[k + j] == n;
      }
    }
  }

  /** With a clash, some file is gone at the end. */
  lemma {:induction false} ClashLoses(orig: Directory, d: Directory, list: seq<nat>, k: nat, at: nat)
    returns (lost: nat)
    requires Distinct(list) && DistinctContents(orig) && Stage(orig, d, list, k)
    requires k <= at < |list| && Clash(list, at)
    requires forall i :: 0 <= i < k ==> !Clash(list, i)
    ensures lost < |list| && orig[list[lost]] !in RenameFrom(d, list, k).Values
    decreases |list| - k
  {
    if Clash(list, k) {
      lost := WrittenOver(orig, d, list, k);
      LostStaysLost(Rename(d, list[k], k), list, k + 1, orig[list[lost]]);
    } else {
      StageStep(orig, d, list, k);
      lost := ClashLoses(orig, Rename(d, list[k], k), list, k + 1, at);
    }
  }

  /** Every file of the list survives the renumbering. */
  ghost predicate NothingLost(orig: Directory, list: seq<nat>)
    requires forall j :: 0 <= j < |list| ==> list[j] in orig
  {
    forall j :: 0 <= j < |list| ==> orig[list[j]] in RenameFrom(orig, list, 0).Values
  }

  /**
   Renumbering a directory of distinct files in place loses nothing if and only if no file later
   in the list holds the numeral of an earlier place.
   */
  lemma RenumberSafeIff(orig: Directory, list: seq<nat>)
    requires Distinct(list) && DistinctContents(orig)
    requires forall n :: n in orig <==> n in list
    ensures NothingLost(orig, list) <==> NoClash(list)
  {
    assert list[0..] == list;
    assert Stage(orig, orig, list, 0);
    if NoClash(list) {
      RenumberPreserves(orig, orig, list, 0);
      StageEnd(orig, RenameFrom(orig, list, 0), list);
      forall j | 0 <= j < |list| ensures orig[list[j]] in RenameFrom(orig, list, 0).Values {
        assert j in RenameFrom(orig, list, 0);
      }
    } else {
      var at :| 0 <= at < |list| && Clash(list, at);
      var lost := ClashLoses(orig, orig, list, 0, at);
    }
  }

  lemma {:induction false} AtLeastPlace(list: seq<nat>, k: nat)
    requires forall i, j :: 0 <= i < j < |list| ==> list[i] < list[j]
    requires k < |list|
    ensures k <= list[k]
  {
    if k > 0 {
      AtLeastPlace(list, k - 1);
    }
  }

  /** Numerals that increase along the list never clash. */
  lemma IncreasingNoClash(list: seq<nat>)
    requires forall i, j :: 0 <= i < j < |list| ==> list[i] < list[j]
    ensures NoClash(list)
  {
    forall k | 0 <= k < |list| ensures !Clash(list, k) {
      var rest := list[k + 1..];
      forall n | n in rest ensures n != k {
        var j :| 0 <= j < |rest| && rest[j] == n;
        AtLeastPlace(list, k + 1 + j);
      }
    }
  }
}
