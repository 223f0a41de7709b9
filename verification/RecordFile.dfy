/** Fixed-size records in a file: their layout, and what the storage operations do to the slots. */
module RecordFile {
  import opened Bytes
  import opened Common

  const CHECKSUM_SIZE: nat := 32
  const HEADER_SIZE: nat := 8 + 256 + CHECKSUM_SIZE

  /** The size of the stored type, and of the padding the compiler puts after the checksum. */
  datatype Layout = Layout(data: nat, pad: nat) {
    const recordSize: nat := data + 1 + CHECKSUM_SIZE + pad

    predicate Sane() {
      pad <= CHECKSUM_SIZE
    }
  }

  datatype Slot = Slot(data: seq<byte>, deleted: byte, checksum: seq<byte>, pad: seq<byte>) {
    predicate Live() {
      deleted == 0
    }
  }

  predicate Fits(l: Layout, s: Slot) {
    |s.data| == l.data && |s.checksum| == CHECKSUM_SIZE && |s.pad| == l.pad
  }

  function Encode(s: Slot): seq<byte> {
    s.data + [s.deleted] + s.checksum + s.pad
  }

  function Decode(l: Layout, b: seq<byte>): (s: Slot)
    requires |b| == l.recordSize
    ensures Fits(l, s)
  {
    Slot(b[..l.data], b[l.data], b[l.data + 1..l.data + 1 + CHECKSUM_SIZE], b[l.data + 1 + CHECKSUM_SIZE..])
  }

  lemma DecodeEncode(l: Layout, s: Slot)
    requires Fits(l, s)
    ensures |Encode(s)| == l.recordSize && Decode(l, Encode(s)) == s
  {
    var b := Encode(s);
    assert b[..l.data] == s.data;
    assert b[l.data + 1..l.data + 1 + CHECKSUM_SIZE] == s.checksum;
    assert b[l.data + 1 + CHECKSUM_SIZE..] == s.pad;
  }

  /** Where the k-th record starts, from the end of the header. */
  function Offset(l: Layout, k: nat): nat {
    if k == 0 then 0 else l.recordSize + Offset(l, k - 1)
  }

  ghost function EncodeAll(slots: seq<Slot>): seq<byte> {
    if slots == [] then [] else EncodeAll(slots[..|slots| - 1]) + Encode(slots[|slots| - 1])
  }

  ghost predicate AllFit(l: Layout, slots: seq<Slot>) {
    forall i :: 0 <= i < |slots| ==> Fits(l, slots[i])
  }

  lemma {:induction false} EncodedSize(l: Layout, slots: seq<Slot>)
    requires AllFit(l, slots)
    ensures |EncodeAll(slots)| == Offset(l, |slots|)
  {
    if slots != [] {
      EncodedSize(l, slots[..|slots| - 1]);
      DecodeEncode(l, slots[|slots| - 1]);
    }
  }

  lemma {:induction false} EncodeAppend(a: seq<Slot>, b: seq<Slot>)
    ensures EncodeAll(a + b) == EncodeAll(a) + EncodeAll(b)
    decreases |b|
  {
    if b == [] {
      assert a + b == a;
    } else {
      var init := b[..|b| - 1];
      assert (a + b)[..|a + b| - 1] == a + init;
      EncodeAppend(a, init);
      Assoc(EncodeAll(a), EncodeAll(init), Encode(b[|b| - 1]));
    }
  }

  lemma EncodeOne(s: Slot)
    ensures EncodeAll([s]) == Encode(s)
  {
    assert [s][..0] == [];
  }

  /** The file around the k-th record. */
  lemma {:induction false} Around(l: Layout, slots: seq<Slot>, k: nat)
    requires AllFit(l, slots) && k < |slots|
    ensures EncodeAll(slots) == EncodeAll(slots[..k]) + Encode(slots[k]) + EncodeAll(slots[k + 1..])
    ensures |EncodeAll(slots[..k])| == Offset(l, k) && |Encode(slots[k])| == l.recordSize
  {
    assert slots == slots[..k] + [slots[k]] + slots[k + 1..];
    EncodeAppend(slots[..k] + [slots[k]], slots[k + 1..]);
    EncodeAppend(slots[..k], [slots[k]]);
    EncodeOne(slots[k]);
    EncodedSize(l, slots[..k]);
    DecodeEncode(l, slots[k]);
  }

  lemma Middle<T>(a: seq<T>, b: seq<T>, c: seq<T>, d: seq<T>)
    ensures (a + (b + c + d))[|a| + |b|..|a| + |b| + |c|] == c
  {
  }

  /** Reading a record out of the middle of a file. */
  lemma ReadPiece(l: Layout, header: seq<byte>, before: seq<byte>, s: Slot, rest: seq<byte>, file: seq<byte>, at: nat)
    requires Fits(l, s)
    requires file == header + (before + Encode(s) + rest) && at == |header| + |before|
    ensures at + l.recordSize <= |file| && Decode(l, file[at..at + l.recordSize]) == s
  {
    DecodeEncode(l, s);
    Middle(header, before, Encode(s), rest);
  }

  lemma {:induction false} ReadInside(l: Layout, header: seq<byte>, slots: seq<Slot>, k: nat, file: seq<byte>, at: nat)
    requires |header| == HEADER_SIZE && AllFit(l, slots) && k < |slots|
    requires file == header + EncodeAll(slots) && at == HEADER_SIZE + Offset(l, k)
    ensures at + l.recordSize <= |file| && Decode(l, file[at..at + l.recordSize]) == slots[k]
  {
    Around(l, slots, k);
    ReadPiece(l, header, EncodeAll(slots[..k]), slots[k], EncodeAll(slots[k + 1..]), file, at);
  }

  /** Reading a whole record at its offset gives the slot; past the last there is nothing to read. */
  lemma ReadAt(l: Layout, header: seq<byte>, slots: seq<Slot>, k: nat, file: seq<byte>, at: nat)
    requires |header| == HEADER_SIZE && AllFit(l, slots) && k <= |slots|
    requires file == header + EncodeAll(slots) && at == HEADER_SIZE + Offset(l, k)
    ensures
      if k < |slots|
      then at + l.recordSize <= |file| && Decode(l, file[at..at + l.recordSize]) == slots[k]
      else at == |file|
  {
    if k < |slots| {
      ReadInside(l, header, slots, k, file, at);
    } else {
      EncodedSize(l, slots);
    }
  }

  /** A write at a position of a file: it overwrites and, at the end, extends. */
  function Patched(file: seq<byte>, at: nat, data: seq<byte>): seq<byte>
    requires at <= |file|
  {
    file[..at] + data + if at + |data| <= |file| then file[at + |data|..] else []
  }

  lemma PatchBytes(header: seq<byte>, before: seq<byte>, record: seq<byte>, rest: seq<byte>, record': seq<byte>,
                   file: seq<byte>, at: nat)
    requires file == header + (before + record + rest) && at == |header| + |before| && |record'| == |record|
    ensures at <= |file| && Patched(file, at, record') == header + (before + record' + rest)
  {
  }

  lemma PatchEnd(a: seq<byte>, b: seq<byte>, e: seq<byte>)
    requires e != []
    ensures Patched(a + b, |a| + |b|, e) == a + (b + e)
  {
  }

  /** Slots with one of them replaced or, at the end, one added. */
  function Put(slots: seq<Slot>, k: nat, s: Slot): seq<Slot>
    requires k <= |slots|
  {
    if k < |slots| then slots[k := s] else slots + [s]
  }

  /** Writing a record at the k-th offset changes the k-th slot and no other byte. */
  lemma WriteAt(l: Layout, header: seq<byte>, slots: seq<Slot>, k: nat, s: Slot)
    requires |header| == HEADER_SIZE && AllFit(l, slots) && Fits(l, s) && k <= |slots|
    ensures
      var file := header + EncodeAll(slots);
      var at := HEADER_SIZE + Offset(l, k);
      at <= |file| && Patched(file, at, Encode(s)) == header + EncodeAll(Put(slots, k, s))
    ensures AllFit(l, Put(slots, k, s))
  {
    EncodedSize(l, slots);
    DecodeEncode(l, s);
    if k < |slots| {
      var put := slots[k := s];
      Around(l, slots, k);
      Around(l, put, k);
      assert put[..k] == slots[..k] && put[k + 1..] == slots[k + 1..];
      PatchBytes(header, EncodeAll(slots[..k]), Encode(slots[k]), EncodeAll(slots[k + 1..]), Encode(s),
                 header + EncodeAll(slots), HEADER_SIZE + Offset(l, k));
    } else {
      EncodeAppend(slots, [s]);
      EncodeOne(s);
      PatchEnd(header, EncodeAll(slots), Encode(s));
    }
  }

  /** The first slot with a property, or the number of slots. */
  function Find(slots: seq<Slot>, p: Slot -> bool): (i: nat)
    ensures i <= |slots|
    ensures i < |slots| ==> p(slots[i])
    ensures forall j :: 0 <= j < i ==> !p(slots[j])
  {
    if slots == [] || p(slots[0]) then 0 else 1 + Find(slots[1..], p)
  }

  /** A scan that has not met the property yet looks at one more slot. */
  lemma FindNext(slots: seq<Slot>, p: Slot -> bool, k: nat)
    requires k < |slots| && k <= Find(slots, p)
    ensures if p(slots[k]) then Find(slots, p) == k else k + 1 <= Find(slots, p)
  {
  }

  function LiveWith(filter: seq<byte> -> bool): Slot -> bool {
    (s: Slot) => s.Live() && filter(s.data)
  }

  /** Live slots that the filter of an addition takes for the record to be added. */
  function Same(filter: (seq<byte>, seq<byte>) -> bool, data: seq<byte>): Slot -> bool {
    (s: Slot) => s.Live() && filter(s.data, data)
  }

  lemma SameNext(slots: seq<Slot>, filter: (seq<byte>, seq<byte>) -> bool, data: seq<byte>, k: nat)
    requires k < |slots| && k <= Find(slots, Same(filter, data))
    ensures if slots[k].Live() && filter(slots[k].data, data) then Find(slots, Same(filter, data)) == k
            else k + 1 <= Find(slots, Same(filter, data))
  {
    FindNext(slots, Same(filter, data), k);
  }

  const IsDeleted: Slot -> bool := (s: Slot) => !s.Live()

  /**
   The bytes the checksum is computed over: all but the last 32 of the record. With padding, these
   reach into the checksum field and take in bytes of the checksum that was there before.
   */
  function Covered(l: Layout, s: Slot): seq<byte>
    requires Fits(l, s) && l.Sane()
  {
    s.data + [s.deleted] + s.checksum[..l.pad]
  }

  lemma CoveredIsPrefix(l: Layout, s: Slot)
    requires Fits(l, s) && l.Sane()
    ensures |Encode(s)| == l.recordSize
    ensures Covered(l, s) == Encode(s)[..l.recordSize - CHECKSUM_SIZE]
  {
  }

  function Seal(l: Layout, digest: Digest, s: Slot): (sealed: Slot)
    requires Fits(l, s) && l.Sane()
    ensures Fits(l, sealed)
  {
    s.(checksum := digest.Of(Covered(l, s)))
  }

  /** The record buffer after a scan: the last record read, or what it held before. */
  function Leftover(slots: seq<Slot>, scratch: Slot): Slot {
    if slots == [] then scratch else slots[|slots| - 1]
  }

  function AddSlots(l: Layout, digest: Digest, slots: seq<Slot>, data: seq<byte>,
                    filter: (seq<byte>, seq<byte>) -> bool, scratch: Slot): (r: (Error, seq<Slot>))
    requires l.Sane() && AllFit(l, slots) && Fits(l, scratch) && |data| == l.data
    ensures AllFit(l, r.1)
  {
    if Find(slots, Same(filter, data)) < |slots| then (AlreadyExist, slots)
    else
      var record := Leftover(slots, scratch).(data := data, deleted := 0);
      (NoError, Put(slots, Find(slots, IsDeleted), Seal(l, digest, record)))
  }

  function UpdateSlots(l: Layout, digest: Digest, slots: seq<Slot>, data: seq<byte>, filter: seq<byte> -> bool)
    : (r: (Error, seq<Slot>))
    requires l.Sane() && AllFit(l, slots) && |data| == l.data
    ensures AllFit(l, r.1)
  {
    var i := Find(slots, LiveWith(filter));
    if i == |slots| then (NotFound, slots)
    else (NoError, slots[i := Seal(l, digest, slots[i].(data := data))])
  }

  function RemoveSlots(slots: seq<Slot>, filter: seq<byte> -> bool): (r: (Error, seq<Slot>))
    ensures forall l: Layout :: AllFit(l, slots) ==> AllFit(l, r.1)
  {
    var i := Find(slots, LiveWith(filter));
    if i == |slots| then (NotFound, slots) else (NoError, slots[i := slots[i].(deleted := 1)])
  }

  /** The data of the live records that pass, in slot order. */
  function LiveData(slots: seq<Slot>, accept: seq<byte> -> bool): seq<seq<byte>> {
    if slots == [] then [] else
      var last := slots[|slots| - 1];
      LiveData(slots[..|slots| - 1], accept) + if last.Live() && accept(last.data) then [last.data] else []
  }

  lemma LiveDataNext(slots: seq<Slot>, k: nat, accept: seq<byte> -> bool)
    requires k < |slots|
    ensures LiveData(slots[..k + 1], accept) ==
            LiveData(slots[..k], accept) + if slots[k].Live() && accept(slots[k].data) then [slots[k].data] else []
  {
    assert slots[..k + 1][..k] == slots[..k];
  }

  lemma {:induction false} LiveDataPrefix(slots: seq<Slot>, k: nat, accept: seq<byte> -> bool)
    requires k <= |slots|
    ensures LiveData(slots[..k], accept) <= LiveData(slots, accept)
    decreases |slots| - k
  {
    if k < |slots| {
      LiveDataNext(slots, k, accept);
      LiveDataPrefix(slots, k + 1, accept);
    } else {
      assert slots[..k] == slots;
    }
  }

  /** One more live record than an array holds: the array has the first of them. */
  lemma TooMany(slots: seq<Slot>, k: nat, accept: seq<byte> -> bool)
    requires k < |slots| && slots[k].Live() && accept(slots[k].data)
    ensures
      var found, all := LiveData(slots[..k], accept), LiveData(slots, accept);
      |found| < |all| && found == all[..|found|]
  {
    LiveDataNext(slots, k, accept);
    LiveDataPrefix(slots, k + 1, accept);
  }
}
