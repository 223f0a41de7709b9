/** A file with a cursor, and the record storage that works on it. */
module FileStorages {
  import opened Bytes
  import opened Common
  import opened RecordFile

  class File {
    var bytes: seq<byte>
    var pos: nat

    constructor (bytes: seq<byte>)
      ensures this.bytes == bytes && pos == 0
    {
      this.bytes, pos := bytes, 0;
    }

    method Seek(at: nat)
      modifies this`pos
      ensures pos == at
    {
      pos := at;
    }

    /** Reads up to `size` bytes; fewer at the end of the file. */
    method Read(size: nat) returns (data: seq<byte>)
      requires pos <= |bytes|
      modifies this`pos
      ensures pos == if old(pos) + size <= |bytes| then old(pos) + size else |bytes|
      ensures data == bytes[old(pos)..pos]
    {
      var end := if pos + size <= |bytes| then pos + size else |bytes|;
      data := bytes[pos..end];
      pos := end;
    }

    method Write(data: seq<byte>)
      requires pos <= |bytes|
      modifies this
      ensures bytes == Patched(old(bytes), old(pos), data) && pos == old(pos) + |data|
    {
      bytes := Patched(bytes, pos, data);
      pos := pos + |data|;
    }

    /** Closing and opening again: the cursor is at the start. */
    method Reopen()
      modifies this`pos
      ensures pos == 0
    {
      pos := 0;
    }
  }

  /** Where the scan of an addition found the first deleted record, if among the first k. */
  ghost predicate DeletedSoFar(l: Layout, slots: seq<Slot>, k: nat, offset: int) {
    var first := Find(slots, IsDeleted);
    if k <= first then offset == -1 else offset == HEADER_SIZE + Offset(l, first)
  }

  /** The scan goes on past record k, with the cursor after it. */
  lemma DeletedNext(l: Layout, slots: seq<Slot>, k: nat, offset: int, pos: nat)
    requires k < |slots| && DeletedSoFar(l, slots, k, offset)
    requires pos == HEADER_SIZE + Offset(l, k + 1)
    ensures DeletedSoFar(l, slots, k + 1, if offset == -1 && !slots[k].Live() then pos - l.recordSize else offset)
  {
    if k <= Find(slots, IsDeleted) {
      FindNext(slots, IsDeleted, k);
    }
  }

  class FileStorage {
    const layout: Layout
    const digest: Digest
    const file: File
    ghost var header: seq<byte>
    ghost var slots: seq<Slot>

    /** The file is its header and whole records, and they are the slots. */
    ghost predicate Valid()
      reads this, file
    {
      && layout.Sane()
      && |header| == HEADER_SIZE
      && AllFit(layout, slots)
      && file.bytes == header + EncodeAll(slots)
    }

    /** Opens the file and, when it is empty, writes a header. */
    constructor Init(layout: Layout, digest: Digest, file: File, ghost existing: seq<Slot>, newHeader: seq<byte>)
      requires layout.Sane() && |newHeader| == HEADER_SIZE && AllFit(layout, existing)
      requires file.bytes == [] ||
        (|file.bytes| >= HEADER_SIZE && file.bytes[HEADER_SIZE..] == EncodeAll(existing))
      modifies file
      ensures this.layout == layout && this.digest == digest && this.file == file
      ensures Valid() && slots == if old(file.bytes) == [] then [] else existing
      ensures file.bytes == if old(file.bytes) == [] then newHeader else old(file.bytes)
    {
      this.layout, this.digest, this.file := layout, digest, file;
      header := if file.bytes == [] then newHeader else file.bytes[..HEADER_SIZE];
      slots := if file.bytes == [] then [] else existing;
      new;
      if |file.bytes| == 0 {
        file.Seek(0);
        file.Write(newHeader);
      }
      file.Reopen();
    }

    /** Reads the record under the cursor, if there is one. */
    method ReadRecord(ghost k: nat) returns (more: bool, record: Slot)
      requires Valid() && k <= |slots| && file.pos == HEADER_SIZE + Offset(layout, k)
      modifies file`pos
      ensures more == (k < |slots|)
      ensures more ==> record == slots[k] && file.pos == HEADER_SIZE + Offset(layout, k + 1)
      ensures !more ==> file.pos == |file.bytes| == HEADER_SIZE + Offset(layout, |slots|)
    {
      ReadAt(layout, header, slots, k, file.bytes, file.pos);
      var chunk := file.Read(layout.recordSize);
      more := |chunk| == layout.recordSize;
      if more {
        record := Decode(layout, chunk);
      } else {
        record := Slot([], 0, [], []);
      }
    }

    /** Writes a record under the cursor. */
    method WriteRecord(ghost k: nat, record: Slot)
      requires Valid() && k <= |slots| && file.pos == HEADER_SIZE + Offset(layout, k) && Fits(layout, record)
      modifies this`slots, file
      ensures Valid() && slots == Put(old(slots), k, record)
    {
      WriteAt(layout, header, slots, k, record);
      file.Write(Encode(record));
      slots := Put(slots, k, record);
    }

    /** `scratch` is what the record buffer holds when it is allocated. */
    method Add(data: seq<byte>, filter: (seq<byte>, seq<byte>) -> bool, scratch: Slot) returns (err: Error)
      requires Valid() && |data| == layout.data && Fits(layout, scratch)
      modifies this`slots, file
      ensures Valid()
      ensures (err, slots) == AddSlots(layout, digest, old(slots), data, filter, scratch)
    {
      var found, record, deletedRecordOffset := Scan(data, filter, scratch);
      if found {
        return AlreadyExist;
      }
      WriteNew(record, data, deletedRecordOffset);
      return NoError;
    }

    /** The scan of an addition: up to the record that is there already, or over all records. */
    method Scan(data: seq<byte>, filter: (seq<byte>, seq<byte>) -> bool, scratch: Slot)
      returns (found: bool, record: Slot, deletedRecordOffset: int)
      requires Valid() && Fits(layout, scratch)
      modifies file`pos
      ensures found == (Find(slots, Same(filter, data)) < |slots|)
      ensures !found ==>
        && record == Leftover(slots, scratch)
        && DeletedSoFar(layout, slots, |slots|, deletedRecordOffset)
        && file.pos == HEADER_SIZE + Offset(layout, |slots|)
    {
      file.Seek(HEADER_SIZE);
      record, deletedRecordOffset := scratch, -1;
      ghost var k: nat, all := 0, slots;
      while true
        invariant Valid() && slots == all && k <= |all| && file.pos == HEADER_SIZE + Offset(layout, k)
        invariant record == if k == 0 then scratch else all[k - 1]
        invariant k <= Find(all, Same(filter, data))
        invariant DeletedSoFar(layout, all, k, deletedRecordOffset)
        decreases |slots| - k
      {
        var more, next := ReadRecord(k);
        if !more {
          break;
        }
        SameNext(all, filter, data, k);
        record := next;
        if record.Live() && filter(record.data, data) {
          return true, record, -1;
        }
        DeletedNext(layout, all, k, deletedRecordOffset, file.pos);
        if deletedRecordOffset == -1 && !record.Live() {
          deletedRecordOffset := file.pos - layout.recordSize;
        }
        k := k + 1;
      }
      return false, record, deletedRecordOffset;
    }

    /** The end of an addition: the record goes over the deleted one found, or to the end. */
    method WriteNew(buffer: Slot, data: seq<byte>, deletedRecordOffset: int)
      requires Valid() && Fits(layout, buffer) && |data| == layout.data
      requires DeletedSoFar(layout, slots, |slots|, deletedRecordOffset)
      requires file.pos == HEADER_SIZE + Offset(layout, |slots|)
      modifies this`slots, file
      ensures Valid()
      ensures slots ==
        Put(old(slots), Find(old(slots), IsDeleted), Seal(layout, digest, buffer.(data := data, deleted := 0)))
    {
      var record := buffer.(data := data, deleted := 0);
      record := Seal(layout, digest, record);
      if deletedRecordOffset >= 0 {
        file.Seek(deletedRecordOffset);
      }
      WriteRecord(Find(slots, IsDeleted), record);
      file.Reopen();
    }

    method Update(data: seq<byte>, filter: seq<byte> -> bool) returns (err: Error)
      requires Valid() && |data| == layout.data
      modifies this`slots, file
      ensures Valid()
      ensures (err, slots) == UpdateSlots(layout, digest, old(slots), data, filter)
    {
      file.Seek(HEADER_SIZE);
      ghost var k: nat := 0;
      while true
        invariant Valid() && slots == old(slots) && k <= |slots|
        invariant file.pos == HEADER_SIZE + Offset(layout, k)
        invariant k <= Find(slots, LiveWith(filter))
        decreases |slots| - k
      {
        var more, record := ReadRecord(k);
        if !more {
          break;
        }
        FindNext(slots, LiveWith(filter), k);
        if record.Live() && filter(record.data) {
          file.Seek(file.pos - layout.recordSize);
          record := Seal(layout, digest, record.(data := data));
          WriteRecord(k, record);
          return NoError;
        }
        k := k + 1;
      }
      file.Reopen();
      return NotFound;
    }

    method Remove(filter: seq<byte> -> bool) returns (err: Error)
      requires Valid()
      modifies this`slots, file
      ensures Valid()
      ensures (err, slots) == RemoveSlots(old(slots), filter)
    {
      file.Seek(HEADER_SIZE);
      ghost var k: nat := 0;
      while true
        invariant Valid() && slots == old(slots) && k <= |slots|
        invariant file.pos == HEADER_SIZE + Offset(layout, k)
        invariant k <= Find(slots, LiveWith(filter))
        decreases |slots| - k
      {
        var more, record := ReadRecord(k);
        if !more {
          break;
        }
        FindNext(slots, LiveWith(filter), k);
        if record.Live() && filter(record.data) {
          file.Seek(file.pos - layout.recordSize);
          record := record.(deleted := 1);
          WriteRecord(k, record);
          file.Reopen();
          return NoError;
        }
        k := k + 1;
      }
      return NotFound;
    }

    /** Appends each live record that passes to an array of limited capacity, in slot order. */
    method ReadRecords(accept: seq<byte> -> bool, capacity: nat) returns (err: Error, found: seq<seq<byte>>)
      requires Valid()
      modifies file`pos
      ensures var all := LiveData(slots, accept);
        if |all| <= capacity then err.IsNone() && found == all else err == Failed && found == all[..capacity]
    {
      file.Seek(HEADER_SIZE);
      found := [];
      ghost var k: nat := 0;
      while true
        invariant Valid() && k <= |slots| && file.pos == HEADER_SIZE + Offset(layout, k)
        invariant found == LiveData(slots[..k], accept) && |found| <= capacity
        decreases |slots| - k
      {
        var more, record := ReadRecord(k);
        if !more {
          break;
        }
        LiveDataNext(slots, k, accept);
        if record.Live() && accept(record.data) {
          if |found| == capacity {
            TooMany(slots, k, accept);
            return Failed, found;
          }
          found := found + [record.data];
        }
        k := k + 1;
      }
      assert slots[..k] == slots;
      return NoError, found;
    }

    method ReadRecordByFilter(filter: seq<byte> -> bool) returns (err: Error, data: seq<byte>)
      requires Valid()
      modifies file`pos
      ensures
        var i := Find(slots, LiveWith(filter));
        if i < |slots| then err.IsNone() && data == slots[i].data else err == NotFound
    {
      file.Seek(HEADER_SIZE);
      ghost var k: nat := 0;
      while true
        invariant Valid() && k <= |slots| && file.pos == HEADER_SIZE + Offset(layout, k)
        invariant k <= Find(slots, LiveWith(filter))
        decreases |slots| - k
      {
        var more, record := ReadRecord(k);
        if !more {
          break;
        }
        FindNext(slots, LiveWith(filter), k);
        if record.Live() && filter(record.data) {
          return NoError, record.data;
        }
        k := k + 1;
      }
      return NotFound, [];
    }
  }
}
