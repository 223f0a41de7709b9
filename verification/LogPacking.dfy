/** Packing log entries into parts of bounded size, greedily and in order. */
module LogPacking {
  import opened Bytes

  type Entry = seq<byte>

  /** The parts cut from `current`, the content not sent yet, followed by the entries. */
  function PackFrom(current: seq<byte>, entries: seq<Entry>, max: nat): seq<seq<byte>>
    decreases |entries|
  {
    if entries == [] then if current == [] then [] else [current]
    else if |current| + |entries[0]| > max then [current] + PackFrom(entries[0], entries[1..], max)
    else PackFrom(current + entries[0], entries[1..], max)
  }

  function Pack(entries: seq<Entry>, max: nat): seq<seq<byte>> {
    PackFrom([], entries, max)
  }

  ghost predicate Packable(entries: seq<Entry>, max: nat) {
    forall i :: 0 <= i < |entries| ==> 0 < |entries[i]| <= max
  }

  /** A division of the entries, in order, into groups that fit one part each. */
  ghost predicate IsSplit(groups: seq<seq<Entry>>, entries: seq<Entry>, max: nat) {
    Concat(groups) == entries && forall i :: 0 <= i < |groups| ==> |Concat(groups[i])| <= max
  }

  /** The groups of whole entries that make up the parts. */
  ghost function Groups(group: seq<Entry>, entries: seq<Entry>, max: nat): seq<seq<Entry>>
    decreases |entries|
  {
    if entries == [] then if group == [] then [] else [group]
    else if |Concat(group)| + |entries[0]| > max then [group] + Groups([entries[0]], entries[1..], max)
    else Groups(group + [entries[0]], entries[1..], max)
  }

  lemma ConcatOne(e: Entry)
    ensures Concat([e]) == e
  {
    assert [e][1..] == [];
  }

  lemma {:induction false} ConcatEmptyIff(group: seq<Entry>, max: nat)
    requires Packable(group, max)
    ensures Concat(group) == [] <==> group == []
  {
    if group != [] {
      assert |Concat(group)| >= |group[0]|;
    }
  }

  /** Every part is a group of whole entries; the groups are all entries in order; every part fits. */
  lemma {:induction false} GroupsMakeParts(group: seq<Entry>, entries: seq<Entry>, max: nat)
    requires Packable(group, max) && Packable(entries, max) && |Concat(group)| <= max
    ensures
      var parts, groups := PackFrom(Concat(group), entries, max), Groups(group, entries, max);
      && |parts| == |groups|
      && (forall i :: 0 <= i < |parts| ==> parts[i] == Concat(groups[i]) && 0 < |parts[i]| <= max)
      && Concat(groups) == group + entries
    decreases |entries|
  {
    ConcatEmptyIff(group, max);
    if entries == [] {
      assert group != [] ==> Concat([group]) == group + Concat([]) && group + entries == group;
    } else if |Concat(group)| + |entries[0]| > max {
      ConcatOne(entries[0]);
      GroupsMakeParts([entries[0]], entries[1..], max);
      assert [entries[0]] + entries[1..] == entries;
    } else {
      ConcatSnoc(group, entries[0]);
      GroupsMakeParts(group + [entries[0]], entries[1..], max);
      assert group + [entries[0]] + entries[1..] == group + entries;
    }
  }

  lemma {:induction false} ConcatGroups(groups: seq<seq<Entry>>, parts: seq<seq<byte>>)
    requires |groups| == |parts| && forall i :: 0 <= i < |parts| ==> parts[i] == Concat(groups[i])
    ensures Concat(parts) == Concat(Concat(groups))
  {
    if groups != [] {
      ConcatGroups(groups[1..], parts[1..]);
      ConcatAppend(groups[0], Concat(groups[1..]));
    }
  }

  /** Conservation: the parts together are the entries, and no entry is divided between two parts. */
  lemma PartsConserve(entries: seq<Entry>, max: nat)
    requires Packable(entries, max)
    ensures Concat(Pack(entries, max)) == Concat(entries)
    ensures IsSplit(Groups([], entries, max), entries, max)
    ensures |Groups([], entries, max)| == |Pack(entries, max)|
    ensures forall i :: 0 <= i < |Pack(entries, max)| ==>
      Pack(entries, max)[i] == Concat(Groups([], entries, max)[i]) && 0 < |Pack(entries, max)[i]| <= max
  {
    GroupsMakeParts([], entries, max);
    assert [] + entries == entries;
    ConcatGroups(Groups([], entries, max), Pack(entries, max));
  }

  /** Starting with something unsent costs at most one part more than starting with nothing. */
  lemma {:induction false} AtMostOneMore(current: seq<byte>, entries: seq<Entry>, max: nat)
    requires Packable(entries, max) && |current| <= max
    ensures |PackFrom(current, entries, max)| <= |PackFrom([], entries, max)| + 1
    decreases |entries|, 1
  {
    if entries != [] {
      assert [] + entries[0] == entries[0];
      if |current| + |entries[0]| <= max {
        AtMostOneMore(current + entries[0], entries[1..], max);
        NoWorse([], entries[0], entries[1..], max);
      }
    }
  }

  /** Having less unsent never costs a part. */
  lemma {:induction false} NoWorse(less: seq<byte>, more: seq<byte>, entries: seq<Entry>, max: nat)
    requires Packable(entries, max) && |less| <= |more| <= max
    ensures |PackFrom(less, entries, max)| <= |PackFrom(more, entries, max)|
    decreases |entries|, 0
  {
    if entries != [] {
      var e, rest := entries[0], entries[1..];
      if |more| + |e| <= max {
        NoWorse(less + e, more + e, rest, max);
      } else if |less| + |e| <= max {
        AtMostOneMore(less + e, rest, max);
        NoWorse([], e, rest, max);
      }
    }
  }

  /** A group that fits goes into what is current without cutting a part. */
  lemma {:induction false} Absorb(current: seq<byte>, group: seq<Entry>, entries: seq<Entry>, max: nat)
    requires |current| + |Concat(group)| <= max
    ensures PackFrom(current, group + entries, max) == PackFrom(current + Concat(group), entries, max)
    decreases |group|
  {
    if group == [] {
      assert group + entries == entries && current + Concat(group) == current;
    } else {
      var e := group[0];
      assert (group + entries)[1..] == group[1..] + entries;
      assert current + e + Concat(group[1..]) == current + Concat(group);
      Absorb(current + e, group[1..], entries, max);
    }
  }

  lemma {:induction false} PackOptimalFrom(groups: seq<seq<Entry>>, entries: seq<Entry>, max: nat)
    requires Packable(entries, max) && IsSplit(groups, entries, max)
    ensures |PackFrom([], entries, max)| <= |groups|
    decreases |groups|
  {
    if groups != [] {
      var rest := Concat(groups[1..]);
      assert entries == groups[0] + rest;
      assert Packable(rest, max) by {
        assert forall i :: 0 <= i < |rest| ==> rest[i] == entries[|groups[0]| + i];
      }
      Absorb([], groups[0], rest, max);
      assert [] + Concat(groups[0]) == Concat(groups[0]);
      AtMostOneMore(Concat(groups[0]), rest, max);
      PackOptimalFrom(groups[1..], rest, max);
    }
  }

  /** Greedy packing is optimal: no order-preserving split into parts that fit has fewer parts. */
  lemma PackOptimal(entries: seq<Entry>, max: nat, groups: seq<seq<Entry>>)
    requires Packable(entries, max) && IsSplit(groups, entries, max)
    ensures |Pack(entries, max)| <= |groups|
  {
    PackOptimalFrom(groups, entries, max);
  }
}
