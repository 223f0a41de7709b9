/** The record slots as a keyed map, and what holds over whole runs of storage operations. */
module KeyedStore {
  import opened Bytes
  import opened Common
  import opened RecordFile

  type Key = seq<byte> -> seq<byte>  // the key fields of a record
  type Store = map<seq<byte>, seq<byte>>

  ghost predicate LiveAt(slots: seq<Slot>, i: nat) {
    i < |slots| && slots[i].Live()
  }

  /** No two live records have the same key. */
  ghost predicate Unique(slots: seq<Slot>, key: Key) {
    forall i: nat, j: nat :: LiveAt(slots, i) && LiveAt(slots, j) && key(slots[i].data) == key(slots[j].data) ==> i == j
  }

  ghost predicate HasKey(slots: seq<Slot>, key: Key, k: seq<byte>) {
    exists i: nat :: LiveAt(slots, i) && key(slots[i].data) == k
  }

  /** The live records are the entries of the map, one record for each key. */
  ghost predicate Represents(slots: seq<Slot>, key: Key, m: Store) {
    && Unique(slots, key)
    && (forall i: nat :: LiveAt(slots, i) ==> key(slots[i].data) in m && m[key(slots[i].data)] == slots[i].data)
    && (forall k :: k in m ==> HasKey(slots, key, k))
  }

  /** The filters that compare keys. */
  function WithKey(key: Key, k: seq<byte>): seq<byte> -> bool {
    (data: seq<byte>) => key(data) == k
  }

  function SameKey(key: Key): (seq<byte>, seq<byte>) -> bool {
    (stored: seq<byte>, added: seq<byte>) => key(stored) == key(added)
  }

  /** A search for a key finds its one live record, if there is one. */
  lemma SearchKey(slots: seq<Slot>, key: Key, m: Store, k: seq<byte>)
    requires Represents(slots, key, m)
    ensures
      var i := Find(slots, LiveWith(WithKey(key, k)));
      if k in m then LiveAt(slots, i) && key(slots[i].data) == k && m[k] == slots[i].data else i == |slots|
  {
    var i := Find(slots, LiveWith(WithKey(key, k)));
    assert i < |slots| ==> LiveAt(slots, i);
    if k in m {
      var j: nat :| LiveAt(slots, j) && key(slots[j].data) == k;
      assert LiveWith(WithKey(key, k))(slots[j]);
    }
  }

  /** The slot `at` becomes a live record whose key is the slot's own or nobody's. */
  lemma PutLive(slots: seq<Slot>, key: Key, m: Store, at: nat, s: Slot)
    requires Represents(slots, key, m) && at <= |slots| && s.Live()
    requires if LiveAt(slots, at) then key(slots[at].data) == key(s.data) else key(s.data) !in m
    ensures Represents(Put(slots, at, s), key, m[key(s.data) := s.data])
  {
    var after, m' := Put(slots, at, s), m[key(s.data) := s.data];
    assert LiveAt(after, at) && after[at] == s;
    forall i: nat | LiveAt(after, i) && i != at
      ensures LiveAt(slots, i) && after[i] == slots[i] && key(slots[i].data) != key(s.data)
    {
      assert LiveAt(slots, i);
    }
    forall k | k in m' ensures HasKey(after, key, k) {
      if k != key(s.data) {
        var i: nat :| LiveAt(slots, i) && key(slots[i].data) == k;
        assert LiveAt(after, i);
      }
    }
  }

  /** A live slot is marked deleted. */
  lemma Delete(slots: seq<Slot>, key: Key, m: Store, at: nat)
    requires Represents(slots, key, m) && LiveAt(slots, at)
    ensures Represents(slots[at := slots[at].(deleted := 1)], key, m - {key(slots[at].data)})
  {
    var after := slots[at := slots[at].(deleted := 1)];
    forall i: nat | LiveAt(after, i)
      ensures LiveAt(slots, i) && i != at && after[i] == slots[i] && key(slots[i].data) != key(slots[at].data)
    {
      assert LiveAt(slots, i);
    }
    forall k | k in m && k != key(slots[at].data) ensures HasKey(after, key, k) {
      var i: nat :| LiveAt(slots, i) && key(slots[i].data) == k;
      assert LiveAt(after, i);
    }
  }

  /** Add fails exactly when the key is present; otherwise the map gains the record. */
  lemma AddRefines(l: Layout, digest: Digest, slots: seq<Slot>, key: Key, m: Store, data: seq<byte>, scratch: Slot)
    requires l.Sane() && AllFit(l, slots) && Fits(l, scratch) && |data| == l.data
    requires Represents(slots, key, m)
    ensures
      var (err, after) := AddSlots(l, digest, slots, data, SameKey(key), scratch);
      if key(data) in m then err == AlreadyExist && after == slots
      else err.IsNone() && Represents(after, key, m[key(data) := data])
  {
    var i := Find(slots, Same(SameKey(key), data));
    if key(data) in m {
      var j: nat :| LiveAt(slots, j) && key(slots[j].data) == key(data);
      assert Same(SameKey(key), data)(slots[j]);
    } else {
      assert i < |slots| ==> LiveAt(slots, i);
      var at := Find(slots, IsDeleted);
      assert at < |slots| ==> IsDeleted(slots[at]);
      PutLive(slots, key, m, at, Seal(l, digest, Leftover(slots, scratch).(data := data, deleted := 0)));
    }
  }

  /** Update fails exactly when the key is absent; otherwise the map has the new record at its key. */
  lemma UpdateRefines(l: Layout, digest: Digest, slots: seq<Slot>, key: Key, m: Store, data: seq<byte>)
    requires l.Sane() && AllFit(l, slots) && |data| == l.data
    requires Represents(slots, key, m)
    ensures
      var (err, after) := UpdateSlots(l, digest, slots, data, WithKey(key, key(data)));
      if key(data) in m then err.IsNone() && Represents(after, key, m[key(data) := data])
      else err == NotFound && after == slots
  {
    SearchKey(slots, key, m, key(data));
    if key(data) in m {
      var i := Find(slots, LiveWith(WithKey(key, key(data))));
      PutLive(slots, key, m, i, Seal(l, digest, slots[i].(data := data)));
    }
  }

  /** Remove fails exactly when the key is absent; otherwise the map loses the key and nothing else. */
  lemma RemoveRefines(slots: seq<Slot>, key: Key, m: Store, k: seq<byte>)
    requires Represents(slots, key, m)
    ensures
      var (err, after) := RemoveSlots(slots, WithKey(key, k));
      if k in m then err.IsNone() && Represents(after, key, m - {k})
      else err == NotFound && after == slots
  {
    SearchKey(slots, key, m, k);
    if k in m {
      Delete(slots, key, m, Find(slots, LiveWith(WithKey(key, k))));
    }
  }

  lemma {:induction false} LiveDataHolds(slots: seq<Slot>, accept: seq<byte> -> bool, d: seq<byte>)
    ensures d in LiveData(slots, accept) <==> exists i: nat :: LiveAt(slots, i) && accept(d) && slots[i].data == d
  {
    if slots != [] {
      var init, last := slots[..|slots| - 1], |slots| - 1;
      LiveDataHolds(init, accept, d);
      assert forall i: nat :: LiveAt(init, i) ==> LiveAt(slots, i) && slots[i] == init[i];
      assert forall i: nat :: LiveAt(slots, i) && i != last ==> LiveAt(init, i) && slots[i] == init[i];
      if slots[last].Live() && slots[last].data == d && accept(d) {
        assert LiveAt(slots, last);
      }
    }
  }

  lemma {:induction false} LiveDataDistinct(slots: seq<Slot>, key: Key, accept: seq<byte> -> bool)
    requires Unique(slots, key)
    ensures forall i, j :: 0 <= i < j < |LiveData(slots, accept)| ==>
      key(LiveData(slots, accept)[i]) != key(LiveData(slots, accept)[j])
  {
    if slots != [] {
      var init, last := slots[..|slots| - 1], |slots| - 1;
      assert forall i: nat :: LiveAt(init, i) ==> LiveAt(slots, i) && slots[i] == init[i];
      LiveDataDistinct(init, key, accept);
      var before := LiveData(init, accept);
      if slots[last].Live() && accept(slots[last].data) {
        forall i | 0 <= i < |before| ensures key(before[i]) != key(slots[last].data) {
          LiveDataHolds(init, accept, before[i]);
          var j: nat :| LiveAt(init, j) && init[j].data == before[i];
          assert LiveAt(slots, j) && LiveAt(slots, last);
        }
      }
    }
  }

  /** Reading with a filter yields each accepted entry of the map, once, in slot order. */
  lemma ReadYieldsEntries(slots: seq<Slot>, key: Key, m: Store, accept: seq<byte> -> bool)
    requires Represents(slots, key, m)
    ensures forall d :: d in LiveData(slots, accept) <==> accept(d) && key(d) in m && m[key(d)] == d
    ensures forall i, j :: 0 <= i < j < |LiveData(slots, accept)| ==>
      key(LiveData(slots, accept)[i]) != key(LiveData(slots, accept)[j])
  {
    LiveDataDistinct(slots, key, accept);
    forall d ensures d in LiveData(slots, accept) <==> accept(d) && key(d) in m && m[key(d)] == d {
      LiveDataHolds(slots, accept, d);
      if key(d) in m && m[key(d)] == d {
        var i: nat :| LiveAt(slots, i) && key(slots[i].data) == key(d);
      }
    }
  }

  /** A search finds something if and only if a live record passes. */
  lemma FindLive(slots: seq<Slot>, filter: seq<byte> -> bool)
    ensures Find(slots, LiveWith(filter)) < |slots| <==> exists i: nat :: LiveAt(slots, i) && filter(slots[i].data)
  {
    var at := Find(slots, LiveWith(filter));
    if at < |slots| {
      assert LiveAt(slots, at);
    }
    forall i: nat | LiveAt(slots, i) && filter(slots[i].data) ensures at < |slots| {
      assert LiveWith(filter)(slots[i]);
    }
  }

  /** A removal by a filter that is not a key, such as a certificate's type, takes the first match only. */
  lemma RemoveClearsIff(slots: seq<Slot>, filter: seq<byte> -> bool)
    ensures
      (forall i: nat :: LiveAt(RemoveSlots(slots, filter).1, i) ==> !filter(RemoveSlots(slots, filter).1[i].data))
      <==>
      (forall i: nat, j: nat :: LiveAt(slots, i) && LiveAt(slots, j) && filter(slots[i].data) && filter(slots[j].data)
        ==> i == j)
  {
    var after, at := RemoveSlots(slots, filter).1, Find(slots, LiveWith(filter));
    assert forall i: nat :: LiveAt(after, i) ==> LiveAt(slots, i) && after[i] == slots[i] && i != at;
    assert forall i: nat :: LiveAt(slots, i) && i != at ==> LiveAt(after, i) && after[i] == slots[i];
    forall i: nat | LiveAt(slots, i) && filter(slots[i].data) ensures at < |slots| {
      assert LiveWith(filter)(slots[i]);
    }
    if at < |slots| {
      assert LiveAt(slots, at);
    }
  }

  datatype Op = AddOp(data: seq<byte>, scratch: Slot) | UpdateOp(data: seq<byte>) | RemoveOp(k: seq<byte>)

  predicate Usable(l: Layout, op: Op) {
    match op
    case AddOp(data, scratch) => |data| == l.data && Fits(l, scratch)
    case UpdateOp(data) => |data| == l.data
    case RemoveOp(k) => true
  }

  /** One operation of a store with unique keys, on the slots... */
  function Apply(l: Layout, digest: Digest, key: Key, slots: seq<Slot>, op: Op): (r: (Error, seq<Slot>))
    requires l.Sane() && AllFit(l, slots) && Usable(l, op)
    ensures AllFit(l, r.1)
  {
    match op
    case AddOp(data, scratch) => AddSlots(l, digest, slots, data, SameKey(key), scratch)
    case UpdateOp(data) => UpdateSlots(l, digest, slots, data, WithKey(key, key(data)))
    case RemoveOp(k) => RemoveSlots(slots, WithKey(key, k))
  }

  /** ...and on the map. */
  function ApplyMap(key: Key, m: Store, op: Op): (Error, Store) {
    match op
    case AddOp(data, _) => if key(data) in m then (AlreadyExist, m) else (NoError, m[key(data) := data])
    case UpdateOp(data) => if key(data) in m then (NoError, m[key(data) := data]) else (NotFound, m)
    case RemoveOp(k) => if k in m then (NoError, m - {k}) else (NotFound, m)
  }

  lemma {:induction false} ApplyRefines(l: Layout, digest: Digest, key: Key, slots: seq<Slot>, m: Store, op: Op)
    requires l.Sane() && AllFit(l, slots) && Usable(l, op) && Represents(slots, key, m)
    ensures Apply(l, digest, key, slots, op).0 == ApplyMap(key, m, op).0
    ensures Represents(Apply(l, digest, key, slots, op).1, key, ApplyMap(key, m, op).1)
  {
    match op
    case AddOp(data, scratch) => AddRefines(l, digest, slots, key, m, data, scratch);
    case UpdateOp(data) => UpdateRefines(l, digest, slots, key, m, data);
    case RemoveOp(k) => RemoveRefines(slots, key, m, k);
  }

  function CountLive(slots: seq<Slot>): (n: nat)
    ensures n <= |slots|
  {
    if slots == [] then 0
    else CountLive(slots[..|slots| - 1]) + if slots[|slots| - 1].Live() then 1 else 0
  }

  lemma {:induction false} CountReplaced(slots: seq<Slot>, i: nat, s: Slot)
    requires i < |slots|
    ensures CountLive(slots[i := s]) ==
            CountLive(slots) - (if slots[i].Live() then 1 else 0) + (if s.Live() then 1 else 0)
  {
    var init := slots[..|slots| - 1];
    if i == |slots| - 1 {
      assert slots[i := s][..|slots| - 1] == init;
    } else {
      assert slots[i := s][..|slots| - 1] == init[i := s];
      CountReplaced(init, i, s);
    }
  }

  lemma {:induction false} CountFull(slots: seq<Slot>)
    requires forall j :: 0 <= j < |slots| ==> slots[j].Live()
    ensures CountLive(slots) == |slots|
  {
    if slots != [] {
      CountFull(slots[..|slots| - 1]);
    }
  }

  lemma AddCounts(l: Layout, digest: Digest, slots: seq<Slot>, key: Key, m: Store, data: seq<byte>, scratch: Slot)
    requires l.Sane() && AllFit(l, slots) && Fits(l, scratch) && |data| == l.data
    requires Represents(slots, key, m) && key(data) !in m
    ensures
      var after := AddSlots(l, digest, slots, data, SameKey(key), scratch).1;
      && CountLive(after) == CountLive(slots) + 1
      && |after| == if CountLive(slots) == |slots| then |slots| + 1 else |slots|
  {
    AddRefines(l, digest, slots, key, m, data, scratch);
    var at := Find(slots, IsDeleted);
    var record := Seal(l, digest, Leftover(slots, scratch).(data := data, deleted := 0));
    if at < |slots| {
      assert IsDeleted(slots[at]);
      CountReplaced(slots, at, record);
    } else {
      forall j | 0 <= j < |slots| ensures slots[j].Live() {
        assert !IsDeleted(slots[j]);
      }
      CountFull(slots);
      assert (slots + [record])[..|slots|] == slots;
    }
  }

  lemma RemoveCounts(slots: seq<Slot>, key: Key, m: Store, k: seq<byte>)
    requires Represents(slots, key, m) && k in m
    ensures
      var after := RemoveSlots(slots, WithKey(key, k)).1;
      CountLive(after) == CountLive(slots) - 1 && |after| == |slots|
  {
    SearchKey(slots, key, m, k);
    var i := Find(slots, LiveWith(WithKey(key, k)));
    CountReplaced(slots, i, slots[i].(deleted := 1));
  }

  lemma UpdateCounts(l: Layout, digest: Digest, slots: seq<Slot>, key: Key, m: Store, data: seq<byte>)
    requires l.Sane() && AllFit(l, slots) && |data| == l.data
    requires Represents(slots, key, m) && key(data) in m
    ensures
      var after := UpdateSlots(l, digest, slots, data, WithKey(key, key(data))).1;
      CountLive(after) == CountLive(slots) && |after| == |slots|
  {
    SearchKey(slots, key, m, key(data));
    var i := Find(slots, LiveWith(WithKey(key, key(data))));
    CountReplaced(slots, i, Seal(l, digest, slots[i].(data := data)));
  }

  /** Records in use match the map; an addition takes a new slot only when no deleted one is left. */
  lemma {:induction false} ApplyCounts(l: Layout, digest: Digest, key: Key, slots: seq<Slot>, m: Store, op: Op)
    requires l.Sane() && AllFit(l, slots) && Usable(l, op) && Represents(slots, key, m)
    requires CountLive(slots) == |m|
    ensures
      var after, m' := Apply(l, digest, key, slots, op).1, ApplyMap(key, m, op).1;
      CountLive(after) == |m'| && |after| == if |m'| > |slots| then |m'| else |slots|
  {
    match op
    case AddOp(data, scratch) =>
      AddRefines(l, digest, slots, key, m, data, scratch);
      if key(data) !in m {
        AddCounts(l, digest, slots, key, m, data, scratch);
        Sizes(m, key(data), data);
      }
    case UpdateOp(data) =>
      UpdateRefines(l, digest, slots, key, m, data);
      if key(data) in m {
        UpdateCounts(l, digest, slots, key, m, data);
        Sizes(m, key(data), data);
      }
    case RemoveOp(k) =>
      RemoveRefines(slots, key, m, k);
      if k in m {
        RemoveCounts(slots, key, m, k);
        Sizes(m, k, []);
      }
  }

  lemma Sizes(m: Store, k: seq<byte>, d: seq<byte>)
    ensures |m[k := d]| == if k in m then |m| else |m| + 1
    ensures k in m ==> |m - {k}| == |m| - 1
  {
    assert m[k := d].Keys == m.Keys + {k};
    assert (m - {k}).Keys == m.Keys - {k};
    assert |m.Keys| == |m| && |m[k := d].Keys| == |m[k := d]| && |(m - {k}).Keys| == |m - {k}|;
  }

  function Run(l: Layout, digest: Digest, key: Key, slots: seq<Slot>, ops: seq<Op>): (after: seq<Slot>)
    requires l.Sane() && AllFit(l, slots) && forall i :: 0 <= i < |ops| ==> Usable(l, ops[i])
    ensures AllFit(l, after)
    decreases |ops|
  {
    if ops == [] then slots else Run(l, digest, key, Apply(l, digest, key, slots, ops[0]).1, ops[1..])
  }

  function RunMap(key: Key, m: Store, ops: seq<Op>): Store
    decreases |ops|
  {
    if ops == [] then m else RunMap(key, ApplyMap(key, m, ops[0]).1, ops[1..])
  }

  /** The largest size the map has had during a run. */
  function HighWater(key: Key, m: Store, ops: seq<Op>): nat
    decreases |ops|
  {
    if ops == [] then |m|
    else
      var later := HighWater(key, ApplyMap(key, m, ops[0]).1, ops[1..]);
      if later > |m| then later else |m|
  }

  lemma {:induction false} RunRefines(l: Layout, digest: Digest, key: Key, slots: seq<Slot>, m: Store, ops: seq<Op>)
    requires l.Sane() && AllFit(l, slots) && forall i :: 0 <= i < |ops| ==> Usable(l, ops[i])
    requires Represents(slots, key, m) && CountLive(slots) == |m|
    ensures Represents(Run(l, digest, key, slots, ops), key, RunMap(key, m, ops))
    ensures |Run(l, digest, key, slots, ops)| ==
            if HighWater(key, m, ops) > |slots| then HighWater(key, m, ops) else |slots|
    decreases |ops|
  {
    if ops != [] {
      ApplyRefines(l, digest, key, slots, m, ops[0]);
      ApplyCounts(l, digest, key, slots, m, ops[0]);
      RunRefines(l, digest, key, Apply(l, digest, key, slots, ops[0]).1, ApplyMap(key, m, ops[0]).1, ops[1..]);
    }
  }

  /**
   From an empty store and for any operations, the slots represent the map the operations compute,
   and there are exactly as many slots as there ever were live records at the same time.
   */
  lemma {:induction false} StoreIsMap(l: Layout, digest: Digest, key: Key, ops: seq<Op>)
    requires l.Sane() && forall i :: 0 <= i < |ops| ==> Usable(l, ops[i])
    ensures Represents(Run(l, digest, key, [], ops), key, RunMap(key, map[], ops))
    ensures |Run(l, digest, key, [], ops)| == HighWater(key, map[], ops)
  {
    RunRefines(l, digest, key, [], map[], ops);
  }

  /** A live record under another key stays in its slot, byte for byte. */
  lemma OthersUntouched(l: Layout, digest: Digest, key: Key, slots: seq<Slot>, op: Op, i: nat)
    requires l.Sane() && AllFit(l, slots) && Usable(l, op)
    requires LiveAt(slots, i) && key(slots[i].data) != if op.RemoveOp? then op.k else key(op.data)
    ensures i < |Apply(l, digest, key, slots, op).1| && Apply(l, digest, key, slots, op).1[i] == slots[i]
  {
    if op.AddOp? {
      var at := Find(slots, IsDeleted);
      assert at < |slots| ==> IsDeleted(slots[at]);
    } else {
      var k := if op.RemoveOp? then op.k else key(op.data);
      var at := Find(slots, LiveWith(WithKey(key, k)));
      assert at < |slots| ==> LiveWith(WithKey(key, k))(slots[at]);
    }
  }

  /** Whether the checksum of a record is that of the bytes it covers as they are now. */
  predicate Verified(l: Layout, digest: Digest, s: Slot)
    requires Fits(l, s) && l.Sane()
  {
    s.checksum == digest.Of(Covered(l, s))
  }

  ghost predicate AllVerified(l: Layout, digest: Digest, slots: seq<Slot>)
    requires l.Sane() && AllFit(l, slots)
  {
    forall i :: 0 <= i < |slots| && slots[i].Live() ==> Verified(l, digest, slots[i])
  }

  lemma SealVerifies(l: Layout, digest: Digest, s: Slot)
    requires l.pad == 0 && Fits(l, s)
    ensures Verified(l, digest, Seal(l, digest, s))
  {
    assert Covered(l, Seal(l, digest, s)) == Covered(l, s);
  }

  lemma ApplyVerified(l: Layout, digest: Digest, key: Key, slots: seq<Slot>, op: Op)
    requires l.pad == 0 && AllFit(l, slots) && Usable(l, op) && AllVerified(l, digest, slots)
    ensures AllVerified(l, digest, Apply(l, digest, key, slots, op).1)
  {
    match op
    case AddOp(data, scratch) => SealVerifies(l, digest, Leftover(slots, scratch).(data := data, deleted := 0));
    case UpdateOp(data) =>
      var i := Find(slots, LiveWith(WithKey(key, key(data))));
      if i < |slots| {
        SealVerifies(l, digest, slots[i].(data := data));
      }
    case RemoveOp(k) =>
  }

  /** In a store whose records have no padding, every live record verifies after every operation. */
  lemma {:induction false} RunVerified(l: Layout, digest: Digest, key: Key, slots: seq<Slot>, ops: seq<Op>)
    requires l.pad == 0 && AllFit(l, slots) && forall i :: 0 <= i < |ops| ==> Usable(l, ops[i])
    requires AllVerified(l, digest, slots)
    ensures AllVerified(l, digest, Run(l, digest, key, slots, ops))
    decreases |ops|
  {
    if ops != [] {
      ApplyVerified(l, digest, key, slots, ops[0]);
      RunVerified(l, digest, key, Apply(l, digest, key, slots, ops[0]).1, ops[1..]);
    }
  }

  /** A digest that tells byte strings apart by whether they end in zero. */
  function EndsInZero(x: seq<byte>): (r: seq<byte>)
    ensures |r| == 32
    ensures forall i :: 0 <= i < 32 ==> r[i] == if x != [] && x[|x| - 1] == 0 then 1 else 0
  {
    var flag: byte := if x != [] && x[|x| - 1] == 0 then 1 else 0;
    seq(32, i => flag)
  }

  const END_DIGEST := Digest(EndsInZero)

  lemma EndDigestNeverVerifies(l: Layout, s: Slot)
    requires l.Sane() && Fits(l, s) && l.pad > 0
    ensures !Verified(l, END_DIGEST, Seal(l, END_DIGEST, s))
  {
    var sealed := Seal(l, END_DIGEST, s);
    var c, c' := Covered(l, s), Covered(l, sealed);
    assert c'[|c'| - 1] == sealed.checksum[l.pad - 1];
    assert sealed.checksum == EndsInZero(c);
    assert EndsInZero(c')[0] != EndsInZero(c)[0];
  }

  /**
   A sealed record verifies under every digest if and only if its type leaves no padding: with
   padding the checksum covers bytes of the checksum it replaces.
   */
  lemma SealVerifiesIff(l: Layout, s: Slot)
    requires l.Sane() && Fits(l, s)
    ensures (forall digest: Digest :: Verified(l, digest, Seal(l, digest, s))) <==> l.pad == 0
  {
    if l.pad > 0 {
      EndDigestNeverVerifies(l, s);
    } else {
      forall digest: Digest ensures Verified(l, digest, Seal(l, digest, s)) {
        SealVerifies(l, digest, s);
      }
    }
  }

  /** Whatever is done to an empty store, under whatever digest, its live records verify. */
  ghost predicate AlwaysVerified(l: Layout)
    requires l.Sane()
  {
    forall digest: Digest, key: Key, ops: seq<Op> | (forall i :: 0 <= i < |ops| ==> Usable(l, ops[i])) ::
      AllVerified(l, digest, Run(l, digest, key, [], ops))
  }

  lemma OneAddition(l: Layout, digest: Digest, key: Key, data: seq<byte>, scratch: Slot)
    requires l.Sane() && |data| == l.data && Fits(l, scratch)
    ensures Run(l, digest, key, [], [AddOp(data, scratch)]) == [Seal(l, digest, scratch.(data := data, deleted := 0))]
  {
    var ops := [AddOp(data, scratch)];
    assert ops[1..] == [];
    assert Apply(l, digest, key, [], ops[0]).1 == [Seal(l, digest, scratch.(data := data, deleted := 0))];
  }

  /**
   Every live record verifies in every run from an empty store, under every digest, if and only if the
   records have no padding. With padding a single addition can fail to.
   */
  lemma RunVerifiedIff(l: Layout)
    requires l.Sane()
    ensures AlwaysVerified(l) <==> l.pad == 0
  {
    if l.pad == 0 {
      forall digest: Digest, key: Key, ops: seq<Op> | (forall i :: 0 <= i < |ops| ==> Usable(l, ops[i]))
        ensures AllVerified(l, digest, Run(l, digest, key, [], ops))
      {
        RunVerified(l, digest, key, [], ops);
      }
    } else {
      var data: seq<byte> := seq(l.data, _ => 0);
      var scratch := Slot(data, 0, seq(CHECKSUM_SIZE, _ => 0), seq(l.pad, _ => 0));
      var key: Key := (d: seq<byte>) => d;
      var ops := [AddOp(data, scratch)];
      OneAddition(l, END_DIGEST, key, data, scratch);
      EndDigestNeverVerifies(l, scratch.(data := data, deleted := 0));
      assert Run(l, END_DIGEST, key, [], ops)[0].Live();
      assert !AllVerified(l, END_DIGEST, Run(l, END_DIGEST, key, [], ops));
    }
  }

  lemma SameHasKey(slots: seq<Slot>, key: Key, data: seq<byte>)
    ensures Find(slots, Same(SameKey(key), data)) < |slots| ==> HasKey(slots, key, key(data))
  {
    var i := Find(slots, Same(SameKey(key), data));
    if i < |slots| {
      assert Same(SameKey(key), data)(slots[i]) && LiveAt(slots, i);
    }
  }

  ghost predicate AddedAt(slots: seq<Slot>, after: seq<Slot>, record: Slot, i: nat) {
    && i <= |slots|
    && (forall j: nat :: j < i ==> LiveAt(slots, j))
    && !LiveAt(slots, i)
    && after == if i < |slots| then slots[i := record] else slots + [record]
  }

  /**
   A record is added in the first deleted slot, or at the end when there is none. It is not deleted,
   and its padding, and the bytes of its checksum field that are hashed, are those of the last record.
   */
  lemma AddsAtFirstDeleted(l: Layout, digest: Digest, slots: seq<Slot>, key: Key, data: seq<byte>, scratch: Slot)
    requires l.Sane() && AllFit(l, slots) && Fits(l, scratch) && |data| == l.data
    requires !HasKey(slots, key, key(data))
    ensures
      var last := if slots == [] then scratch else slots[|slots| - 1];
      |last.checksum| >= l.pad &&
      var record := Slot(data, 0, digest.Of(data + [0] + last.checksum[..l.pad]), last.pad);
      exists i: nat :: AddedAt(slots, AddSlots(l, digest, slots, data, SameKey(key), scratch).1, record, i)
  {
    SameHasKey(slots, key, data);
    var last := if slots == [] then scratch else slots[|slots| - 1];
    var record := Slot(data, 0, digest.Of(data + [0] + last.checksum[..l.pad]), last.pad);
    var i := Find(slots, IsDeleted);
    assert i < |slots| ==> IsDeleted(slots[i]);
    forall j: nat | j < i ensures LiveAt(slots, j) {
      assert !IsDeleted(slots[j]);
    }
    assert AddedAt(slots, AddSlots(l, digest, slots, data, SameKey(key), scratch).1, record, i);
  }

  ghost predicate UpdatedAt(l: Layout, digest: Digest, slots: seq<Slot>, after: seq<Slot>, filter: seq<byte> -> bool,
                            data: seq<byte>, i: nat)
    requires l.Sane() && AllFit(l, slots)
  {
    && LiveAt(slots, i) && filter(slots[i].data)
    && (forall j: nat :: j < i && LiveAt(slots, j) ==> !filter(slots[j].data))
    && after == slots[i := Slot(data, 0, digest.Of(data + [0] + slots[i].checksum[..l.pad]), slots[i].pad)]
  }

  /** An update replaces the data of the first record that passes, and its checksum, and nothing else. */
  lemma UpdatesFirst(l: Layout, digest: Digest, slots: seq<Slot>, data: seq<byte>, filter: seq<byte> -> bool)
    requires l.Sane() && AllFit(l, slots) && |data| == l.data
    ensures
      var (err, after) := UpdateSlots(l, digest, slots, data, filter);
      if exists i: nat :: LiveAt(slots, i) && filter(slots[i].data)
      then err.IsNone() && exists i: nat :: UpdatedAt(l, digest, slots, after, filter, data, i)
      else err == NotFound && after == slots
  {
    FindLive(slots, filter);
    var at, after := Find(slots, LiveWith(filter)), UpdateSlots(l, digest, slots, data, filter).1;
    if at < |slots| {
      assert LiveWith(filter)(slots[at]) && LiveAt(slots, at);
      forall j: nat | j < at && LiveAt(slots, j) ensures !filter(slots[j].data) {
        assert !LiveWith(filter)(slots[j]);
      }
      assert UpdatedAt(l, digest, slots, after, filter, data, at);
    }
  }

  /** A removal marks the first record that passes, and touches nothing else. */
  lemma RemovesFirst(slots: seq<Slot>, filter: seq<byte> -> bool)
    ensures
      var (err, after) := RemoveSlots(slots, filter);
      if exists i: nat :: LiveAt(slots, i) && filter(slots[i].data)
      then
        && err.IsNone()
        && exists i: nat ::
          && LiveAt(slots, i) && filter(slots[i].data)
          && (forall j: nat :: j < i && LiveAt(slots, j) ==> !filter(slots[j].data))
          && after == slots[i := slots[i].(deleted := 1)]
      else err == NotFound && after == slots
  {
    FindLive(slots, filter);
    var at := Find(slots, LiveWith(filter));
    if at < |slots| {
      assert LiveWith(filter)(slots[at]) && LiveAt(slots, at);
      forall j: nat | j < at && LiveAt(slots, j) ensures !filter(slots[j].data) {
        assert !LiveWith(filter)(slots[j]);
      }
    }
  }
}
