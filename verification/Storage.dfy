/** The databases of the storage, down to the bytes of their files, against a map from keys to records. */
module Storages {
  import opened Bytes
  import opened Common
  import opened RecordFile
  import opened FileStorages
  import opened KeyedStore

  /**
   The instance, service and layer databases: records found by a key (the instance id, the service
   id and version, the layer digest).
   */
  class KeyedDatabase {
    const db: FileStorage
    const key: Key
    ghost var entries: Store

    ghost predicate Valid()
      reads this, db, db.file
    {
      db.Valid() && Represents(db.slots, key, entries)
    }

    constructor (db: FileStorage, key: Key)
      requires db.Valid() && db.slots == []
      ensures Valid() && entries == map[] && this.db == db && this.key == key
    {
      this.db, this.key, entries := db, key, map[];
    }

    method Add(data: seq<byte>, scratch: Slot) returns (err: Error)
      requires Valid() && |data| == db.layout.data && Fits(db.layout, scratch)
      modifies this, db`slots, db.file
      ensures Valid()
      ensures err == if key(data) in old(entries) then AlreadyExist else NoError
      ensures entries == if err.IsNone() then old(entries)[key(data) := data] else old(entries)
    {
      AddRefines(db.layout, db.digest, db.slots, key, entries, data, scratch);
      err := db.Add(data, SameKey(key), scratch);
      entries := if err.IsNone() then entries[key(data) := data] else entries;
    }

    method Update(data: seq<byte>) returns (err: Error)
      requires Valid() && |data| == db.layout.data
      modifies this, db`slots, db.file
      ensures Valid()
      ensures err == if key(data) in old(entries) then NoError else NotFound
      ensures entries == if err.IsNone() then old(entries)[key(data) := data] else old(entries)
    {
      UpdateRefines(db.layout, db.digest, db.slots, key, entries, data);
      err := db.Update(data, WithKey(key, key(data)));
      entries := if err.IsNone() then entries[key(data) := data] else entries;
    }

    method Remove(k: seq<byte>) returns (err: Error)
      requires Valid()
      modifies this, db`slots, db.file
      ensures Valid()
      ensures err == if k in old(entries) then NoError else NotFound
      ensures entries == old(entries) - {k}
    {
      RemoveRefines(db.slots, key, entries, k);
      err := db.Remove(WithKey(key, k));
      entries := entries - {k};
    }

    method Get(k: seq<byte>) returns (err: Error, data: seq<byte>)
      requires Valid()
      modifies db.file`pos
      ensures Valid()
      ensures if k in entries then err.IsNone() && data == entries[k] else err == NotFound
    {
      SearchKey(db.slots, key, entries, k);
      err, data := db.ReadRecordByFilter(WithKey(key, k));
    }

    /** Fills an array with the accepted entries, each once; an array too small is filled to its end. */
    method GetAll(accept: seq<byte> -> bool, capacity: nat) returns (err: Error, found: seq<seq<byte>>)
      requires Valid()
      modifies db.file`pos
      ensures Valid()
      ensures forall i, j :: 0 <= i < j < |found| ==> key(found[i]) != key(found[j])
      ensures forall d :: d in found ==> accept(d) && key(d) in entries && entries[key(d)] == d
      ensures err.IsNone() ==> forall k :: k in entries && accept(entries[k]) ==> entries[k] in found
      ensures !err.IsNone() ==> err == Failed && |found| == capacity
    {
      ReadYieldsEntries(db.slots, key, entries, accept);
      err, found := db.ReadRecords(accept, capacity);
      ghost var all := LiveData(db.slots, accept);
      forall k | k in entries ensures key(entries[k]) == k {
        SearchKey(db.slots, key, entries, k);
      }
      assert forall d :: d in found ==> d in all;
    }
  }

  /** The certificate database, whose removals do not go by the key its additions check. */
  class CertDatabase {
    const db: FileStorage
    const certType: seq<byte> -> seq<byte>
    const certURL: seq<byte> -> seq<byte>

    constructor (db: FileStorage, certType: seq<byte> -> seq<byte>, certURL: seq<byte> -> seq<byte>)
      ensures this.db == db && this.certType == certType && this.certURL == certURL
    {
      this.db, this.certType, this.certURL := db, certType, certURL;
    }

    ghost predicate OfType(slots: seq<Slot>, t: seq<byte>, i: nat) {
      LiveAt(slots, i) && certType(slots[i].data) == t
    }

    ghost predicate OfURL(slots: seq<Slot>, t: seq<byte>, url: seq<byte>, i: nat) {
      OfType(slots, t, i) && certURL(slots[i].data) == url
    }

    /** One record that passes, the first, is marked as deleted; every other slot is as it was. */
    ghost predicate FirstMarked(before: seq<Slot>, after: seq<Slot>, t: seq<byte>, i: nat) {
      && OfType(before, t, i)
      && (forall j: nat :: j < i ==> !OfType(before, t, j))
      && after == before[i := before[i].(deleted := 1)]
    }

    ghost predicate FirstOfURLMarked(before: seq<Slot>, after: seq<Slot>, t: seq<byte>, url: seq<byte>, i: nat) {
      && OfURL(before, t, url, i)
      && (forall j: nat :: j < i ==> !OfURL(before, t, url, j))
      && after == before[i := before[i].(deleted := 1)]
    }

    /**
     Never fails, but removes the first record of the type only, so it clears the type if and only if
     at most one record had it. No other record is touched.
     */
    method RemoveAllCertsInfo(t: seq<byte>) returns (err: Error)
      requires db.Valid()
      modifies db`slots, db.file
      ensures db.Valid() && err.IsNone()
      ensures if exists i: nat :: OfType(old(db.slots), t, i)
              then exists i: nat :: FirstMarked(old(db.slots), db.slots, t, i)
              else db.slots == old(db.slots)
      ensures (forall i: nat :: !OfType(db.slots, t, i)) <==>
              (forall i: nat, j: nat :: OfType(old(db.slots), t, i) && OfType(old(db.slots), t, j) ==> i == j)
    {
      ghost var before := db.slots;
      RemoveClearsIff(before, WithKey(certType, t));
      RemovesFirst(before, WithKey(certType, t));
      err := db.Remove(WithKey(certType, t));
      if err == NotFound {
        err := NoError;
      }
      assert forall i: nat :: OfType(before, t, i) <==> LiveAt(before, i) && WithKey(certType, t)(before[i].data);
      assert forall i: nat :: OfType(db.slots, t, i) <==> LiveAt(db.slots, i) && WithKey(certType, t)(db.slots[i].data);
      if i: nat :| OfType(before, t, i) {
        var first: nat :|
          && LiveAt(before, first) && WithKey(certType, t)(before[first].data)
          && (forall j: nat :: j < first && LiveAt(before, j) ==> !WithKey(certType, t)(before[j].data))
          && db.slots == before[first := before[first].(deleted := 1)];
        assert FirstMarked(before, db.slots, t, first);
      }
    }

    /**
     Fails exactly when no record has the type and the URL. Additions do not look at URLs, so here
     too only the first of several such records goes. No other record is touched.
     */
    method RemoveCertInfo(t: seq<byte>, url: seq<byte>) returns (err: Error)
      requires db.Valid()
      modifies db`slots, db.file
      ensures db.Valid()
      ensures err == if exists i: nat :: OfURL(old(db.slots), t, url, i) then NoError else NotFound
      ensures if err.IsNone()
              then exists i: nat :: FirstOfURLMarked(old(db.slots), db.slots, t, url, i)
              else db.slots == old(db.slots)
      ensures (forall i: nat :: !OfURL(db.slots, t, url, i)) <==>
              (forall i: nat, j: nat :: OfURL(old(db.slots), t, url, i) && OfURL(old(db.slots), t, url, j) ==> i == j)
    {
      ghost var before := db.slots;
      var filter := (data: seq<byte>) => certType(data) == t && certURL(data) == url;
      RemoveClearsIff(before, filter);
      RemovesFirst(before, filter);
      err := db.Remove(filter);
      assert forall i: nat :: OfURL(before, t, url, i) <==> LiveAt(before, i) && filter(before[i].data);
      assert forall i: nat :: OfURL(db.slots, t, url, i) <==> LiveAt(db.slots, i) && filter(db.slots[i].data);
      if i: nat :| OfURL(before, t, url, i) {
        var first: nat :|
          && LiveAt(before, first) && filter(before[first].data)
          && (forall j: nat :: j < first && LiveAt(before, j) ==> !filter(before[j].data))
          && db.slots == before[first := before[first].(deleted := 1)];
        assert FirstOfURLMarked(before, db.slots, t, url, first);
      }
    }
  }
}
