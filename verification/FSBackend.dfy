/** The log backend over a directory of numbered files. */
module FSBackends {
  import opened Bytes
  import opened Common
  import opened LogModel
  import opened LogNames
  import opened Renaming

  /** The log directory; it holds nothing but log files. */
  class LogDir {
    var files: Directory

    constructor ()
      ensures files == map[]
    {
      files := map[];
    }

    method Remove(n: nat) returns (err: Error)
      modifies this
      ensures err == if n in old(files) then NoError else NotFound
      ensures files == old(files) - {n}
    {
      err := if n in files then NoError else NotFound;
      files := files - {n};
    }

    method Move(from: nat, to: nat) returns (err: Error)
      modifies this
      ensures err == if from in old(files) then NoError else NotFound
      ensures files == if from in old(files) then Rename(old(files), from, to) else old(files)
    {
      if from !in files {
        return NotFound;
      }
      files := Rename(files, from, to);
      return NoError;
    }

    /** Opening for append creates a missing file and leaves an existing one alone. */
    method OpenAppend(n: nat)
      modifies this
      ensures files == if n in old(files) then old(files) else old(files)[n := []]
    {
      if n !in files {
        files := files[n := []];
      }
    }

    method Append(n: nat, data: seq<byte>)
      requires n in files
      modifies this
      ensures files == old(files)[n := old(files)[n] + data]
    {
      files := files[n := files[n] + data];
    }

    method Clear()
      modifies this
      ensures files == map[]
    {
      files := map[];
    }
  }

  function MaxNumeral(l: Limits): nat {
    2 * l.files
  }

  /** The numerals listed are the run before the next one, and are all there is on disk. */
  ghost predicate Numbered(l: Limits, d: Directory, list: seq<nat>, numeral: nat) {
    && Sane(l)
    && |list| <= l.files
    && |list| <= numeral <= MaxNumeral(l)
    && list == Window(numeral - |list|, numeral)
    && (forall n: nat :: n in d <==> n in list)
  }

  ghost predicate Holds(d: Directory, list: seq<nat>) {
    forall i :: 0 <= i < |list| ==> list[i] in d
  }

  ghost function ContentsOf(d: Directory, list: seq<nat>): seq<seq<byte>>
    requires Holds(d, list)
  {
    seq(|list|, i requires 0 <= i < |list| => d[list[i]])
  }

  lemma DropOldest(l: Limits, d: Directory, list: seq<nat>, numeral: nat)
    requires Numbered(l, d, list, numeral) && list != []
    ensures Numbered(l, d - {list[0]}, list[1..], numeral)
    ensures ContentsOf(d - {list[0]}, list[1..]) == ContentsOf(d, list)[1..]
  {
    assert list == [list[0]] + list[1..];
  }

  lemma AddNewest(l: Limits, d: Directory, list: seq<nat>, numeral: nat)
    requires Numbered(l, d, list, numeral) && |list| < l.files && numeral < MaxNumeral(l)
    ensures numeral !in d
    ensures Numbered(l, d[numeral := []], list + [numeral], numeral + 1)
    ensures ContentsOf(d[numeral := []], list + [numeral]) == ContentsOf(d, list) + [[]]
  {
  }

  /** Renumbering a list without clashes keeps contents and order, and leaves numerals 0, 1, ... */
  lemma Renumbered(l: Limits, d: Directory, list: seq<nat>)
    requires Sane(l) && |list| <= l.files
    requires Distinct(list) && NoClash(list) && forall n: nat :: n in d <==> n in list
    ensures AllFound(d, list, 0) && Holds(d, list)
    ensures Numbered(l, RenameFrom(d, list, 0), Window(0, |list|), |list|)
    ensures ContentsOf(RenameFrom(d, list, 0), Window(0, |list|)) == ContentsOf(d, list)
  {
    assert list[0..] == list;
    RenumberPreserves(d, d, list, 0);
    StageEnd(d, RenameFrom(d, list, 0), list);
    var w := Window(0, |list|);
    forall n: nat ensures n in RenameFrom(d, list, 0) <==> n in w {
      if n < |list| {
        assert w[n] == n;
      }
    }
  }

  lemma RenumberedWindow(l: Limits, d: Directory, list: seq<nat>, numeral: nat)
    requires Numbered(l, d, list, numeral)
    ensures AllFound(d, list, 0)
    ensures Numbered(l, RenameFrom(d, list, 0), Window(0, |list|), |list|)
    ensures ContentsOf(RenameFrom(d, list, 0), Window(0, |list|)) == ContentsOf(d, list)
  {
    IncreasingNoClash(list);
    Renumbered(l, d, list);
  }

  lemma PlaceOne(list: seq<nat>, k: nat)
    requires k < |list|
    ensures (Window(0, k) + list[k..])[k] == list[k]
    ensures (Window(0, k) + list[k..])[k := k] == Window(0, k + 1) + list[k + 1..]
  {
  }

  /** The log after its buffer is written to its last file. */
  function Grown(log: Log): Log
    requires log.files != []
  {
    var last := |log.files| - 1;
    log.(files := log.files[last := log.files[last] + log.buffer], buffer := [])
  }

  lemma GrowNewest(l: Limits, d: Directory, list: seq<nat>, numeral: nat, log: Log)
    requires Numbered(l, d, list, numeral) && list != []
    requires log.files == ContentsOf(d, list)
    ensures numeral > 0 && numeral - 1 in d && list[|list| - 1] == numeral - 1
    ensures
      var d' := d[numeral - 1 := d[numeral - 1] + log.buffer];
      Numbered(l, d', list, numeral) && ContentsOf(d', list) == Grown(log).files
  {
    assert list[|list| - 1] == numeral - 1;
  }

  /** What a restart keeps of a listing: a full list loses its first file. */
  function Kept(l: Limits, listing: seq<nat>): seq<nat> {
    if listing != [] && |listing| == l.files then listing[1..] else listing
  }

  function KeptOnDisk(l: Limits, d: Directory, listing: seq<nat>): Directory {
    if listing != [] && |listing| == l.files then d - {listing[0]} else d
  }

  lemma KeptFiles(l: Limits, d: Directory, listing: seq<nat>)
    requires Sane(l) && Distinct(listing) && 0 < |listing| <= l.files
    requires forall n: nat :: n in d <==> n in listing
    ensures Distinct(Kept(l, listing))
    ensures Holds(d, Kept(l, listing)) && Holds(KeptOnDisk(l, d, listing), Kept(l, listing))
    ensures forall n: nat :: n in KeptOnDisk(l, d, listing) <==> n in Kept(l, listing)
    ensures ContentsOf(KeptOnDisk(l, d, listing), Kept(l, listing)) == ContentsOf(d, Kept(l, listing))
  {
    assert listing == [listing[0]] + listing[1..];
  }

  /** After a restart without clashes the kept files are numbered from 0 in listing order. */
  ghost predicate Restarted(l: Limits, before: Directory, after: Directory, kept: seq<nat>) {
    && Numbered(l, after, Window(0, |kept|), |kept|)
    && Holds(before, kept)
    && ContentsOf(after, Window(0, |kept|)) == ContentsOf(before, kept)
  }

  lemma KeptRenumbered(l: Limits, d: Directory, listing: seq<nat>)
    requires Sane(l) && Distinct(listing) && 0 < |listing| <= l.files
    requires forall n: nat :: n in d <==> n in listing
    requires NoClash(Kept(l, listing))
    ensures AllFound(KeptOnDisk(l, d, listing), Kept(l, listing), 0)
    ensures Restarted(l, d, RenameFrom(KeptOnDisk(l, d, listing), Kept(l, listing), 0), Kept(l, listing))
  {
    KeptFiles(l, d, listing);
    Renumbered(l, KeptOnDisk(l, d, listing), Kept(l, listing));
  }

  /** The log with a last file that has space for the buffer, if a new file has. */
  function HasSpace(l: Limits, log: Log): Log
    requires 1 <= l.files && log.files != []
  {
    if NeedsSpace(l, log) then Shrink(l, log).(files := Shrink(l, log).files + [[]])
    else log
  }

  lemma FlushByGrowing(l: Limits, log: Log, now: Log)
    requires 1 <= l.files && log.files != [] && now == HasSpace(l, log)
    ensures Flush(l, log) == Grown(now)
  {
    var room := Shrink(l, log);
    assert [] + log.buffer == log.buffer;
    assert (room.files + [[]])[|room.files| := log.buffer] == room.files + [log.buffer];
  }

  /** The next numeral after one more allocation; the numerals start again when they are used up. */
  function NextNumeral(l: Limits, numeral: nat): (n: nat)
    requires 1 <= l.files
  {
    (if numeral == MaxNumeral(l) then l.files - 1 else numeral) + 1
  }

  predicate NeedsSpace(l: Limits, log: Log)
    requires log.files != []
  {
    |log.files[|log.files| - 1]| + |log.buffer| > l.fileSize
  }

  /** The next numeral after one call of HandleLog. */
  function NumeralAfter(l: Limits, log: Log, numeral: nat, data: seq<byte>): nat
    requires Wellformed(l, log)
  {
    var filled := log.(buffer := log.buffer + data[..Added(l, log, data)]);
    if Complete(l, filled.buffer) && NeedsSpace(l, filled) then NextNumeral(l, numeral) else numeral
  }

  ghost function RunNumeral(l: Limits, log: Log, numeral: nat, calls: seq<seq<byte>>): nat
    requires Wellformed(l, log)
    decreases |calls|
  {
    if calls == [] then numeral
    else
      HandleConserves(l, log, calls[0]);
      RunNumeral(l, Handle(l, log, calls[0]), NumeralAfter(l, log, numeral, calls[0]), calls[1..])
  }

  lemma {:induction false} RunBoth(l: Limits, log: Log, numeral: nat, a: seq<seq<byte>>, b: seq<seq<byte>>)
    requires Wellformed(l, log)
    ensures Run(l, log, a + b) == Run(l, Run(l, log, a), b)
    ensures RunNumeral(l, log, numeral, a + b) == RunNumeral(l, Run(l, log, a), RunNumeral(l, log, numeral, a), b)
    decreases |a|
  {
    if a == [] {
      assert a + b == b;
    } else {
      assert (a + b)[1..] == a[1..] + b;
      HandleConserves(l, log, a[0]);
      RunBoth(l, Handle(l, log, a[0]), NumeralAfter(l, log, numeral, a[0]), a[1..], b);
    }
  }

  lemma NewlineOnly(l: Limits, log: Log)
    requires Wellformed(l, log) && log.buffer == []
    ensures Added(l, log, [NEWLINE]) == 1
    ensures Handle(l, log, [NEWLINE]) == Flush(l, log.(buffer := [NEWLINE]))
  {
    assert log.buffer + [NEWLINE][..1] == [NEWLINE];
  }

  /** Newlines fed one by one, until a file is started. */
  lemma {:induction false} StartNext(l: Limits, log: Log, numeral: nat) returns (calls: seq<seq<byte>>)
    requires Wellformed(l, log) && log.buffer == []
    ensures RunNumeral(l, log, numeral, calls) == NextNumeral(l, numeral)
    ensures Run(l, log, calls).buffer == []
    decreases l.fileSize - |log.files[|log.files| - 1]|
  {
    NewlineOnly(l, log);
    HandleConserves(l, log, [NEWLINE]);
    var next := Handle(l, log, [NEWLINE]);
    assert log.buffer + [NEWLINE][..1] == [NEWLINE];
    if NeedsSpace(l, log.(buffer := [NEWLINE])) {
      calls := [[NEWLINE]];
      assert calls[1..] == [];
      assert Run(l, log, calls) == Run(l, next, []);
    } else {
      assert |next.files[|next.files| - 1]| == |log.files[|log.files| - 1]| + 1;
      var rest := StartNext(l, next, numeral);
      calls := [[NEWLINE]] + rest;
      assert calls[0] == [NEWLINE] && calls[1..] == rest;
    }
  }

  /** Every numeral up to twice the limit is the next one after some run from an empty log. */
  lemma {:induction false} EveryNumeralReached(l: Limits, hi: nat) returns (calls: seq<seq<byte>>)
    requires Sane(l) && 1 <= hi <= 2 * l.files
    ensures RunNumeral(l, EMPTY_LOG, 1, calls) == hi
    ensures Run(l, EMPTY_LOG, calls).buffer == []
  {
    if hi == 1 {
      calls := [];
    } else {
      var before := EveryNumeralReached(l, hi - 1);
      var more := StartNext(l, Run(l, EMPTY_LOG, before), hi - 1);
      RunBoth(l, EMPTY_LOG, 1, before, more);
      calls := before + more;
    }
  }

  /** The directory is d, but for one file that opening it may have created. */
  ghost predicate OpenedIn(d: Directory, now: Directory) {
    now == d || exists n: nat :: n !in d && now == d[n := []]
  }

  class FSBackend {
    const limits: Limits
    const dir: LogDir
    var logBuffer: seq<byte>
    var fd: Option<nat>         // the numeral of the open file
    var fileSize: nat
    var numeral: nat            // the numeral of the next file
    var logFiles: seq<nat>
    var activated: bool
    ghost var dropped: seq<seq<byte>>
    ghost var allocations: nat
    ghost var renames: nat
    ghost var sinceRenumber: nat  // allocations since the numerals last started from 0
    ghost var base: nat           // files in the list when the count began

    ghost predicate Listed()
      reads this, dir
    {
      Numbered(limits, dir.files, logFiles, numeral)
    }

    /** Renames never outnumber allocations; two renumberings are more than `limit` allocations apart. */
    ghost predicate AccountedFor(next: nat)
      reads this
    {
      && base <= next && base <= limits.files - 1
      && next <= sinceRenumber + limits.files - 1
      && renames + next <= allocations + base
    }

    ghost predicate Accounted()
      reads this
    {
      AccountedFor(numeral)
    }

    ghost predicate Settled()
      reads this, dir
    {
      Listed() && |logFiles| == Min(numeral, limits.files) && |logBuffer| <= limits.entry
    }

    ghost predicate Open()
      reads this, dir
    {
      && Settled()
      && logFiles != []
      && fd == Some(numeral - 1)
      && numeral - 1 in dir.files
      && fileSize == |dir.files[numeral - 1]|
    }

    ghost predicate Valid()
      reads this, dir
    {
      Open() && Accounted() && |logBuffer| < limits.entry
    }

    ghost function View(): Log
      reads this, dir
      requires Listed()
    {
      Log(ContentsOf(dir.files, logFiles), logBuffer, dropped)
    }

    constructor (limits: Limits, dir: LogDir)
      ensures this.limits == limits && this.dir == dir
      ensures Unused()
    {
      this.limits, this.dir := limits, dir;
      logBuffer, fd, fileSize, numeral, logFiles, activated := [], None, 0, 0, [], false;
      dropped, allocations, renames, sinceRenumber, base := [], 0, 0, 0, 0;
    }

    ghost predicate Unused()
      reads this
    {
      && logBuffer == [] && fd.None? && numeral == 0 && logFiles == []
      && dropped == [] && allocations == renames == sinceRenumber == base == 0
    }

    /** Removes the first file of a full list. */
    method ShrinkLogFiles() returns (err: Error)
      requires logFiles != [] ==> logFiles[0] in dir.files
      modifies this`logFiles, this`dropped, dir
      ensures err.IsNone()
      ensures
        if |old(logFiles)| == 0 || |old(logFiles)| != limits.files
        then logFiles == old(logFiles) && dropped == old(dropped) && dir.files == old(dir.files)
        else
          && logFiles == old(logFiles)[1..]
          && dropped == old(dropped) + [old(dir.files)[old(logFiles)[0]]]
          && dir.files == old(dir.files) - {old(logFiles)[0]}
    {
      if |logFiles| == 0 || |logFiles| != limits.files {
        return NoError;
      }
      dropped := dropped + [dir.files[logFiles[0]]];
      err := dir.Remove(logFiles[0]);
      logFiles := logFiles[1..];
    }

    /** Renames the k-th file of the list to numeral k, until one is missing. */
    method UpdateLogFileNumerals() returns (err: Error)
      modifies this`logFiles, this`numeral, this`renames, dir
      ensures dir.files == RenameFrom(old(dir.files), old(logFiles), 0)
      ensures err.IsNone() <==> AllFound(old(dir.files), old(logFiles), 0)
      ensures |logFiles| == |old(logFiles)|
      ensures err.IsNone() ==>
        && logFiles == Window(0, |old(logFiles)|)
        && numeral == |logFiles|
        && renames == old(renames) + |logFiles|
    {
      ghost var list := logFiles;
      numeral := 0;
      while numeral < |logFiles|
        invariant numeral <= |logFiles| == |list|
        invariant logFiles == Window(0, numeral) + list[numeral..]
        invariant RenameFrom(dir.files, list, numeral) == RenameFrom(old(dir.files), list, 0)
        invariant AllFound(dir.files, list, numeral) == AllFound(old(dir.files), list, 0)
        invariant renames == old(renames) + numeral
      {
        PlaceOne(list, numeral);
        err := dir.Move(logFiles[numeral], numeral);
        if !err.IsNone() {
          return;
        }
        logFiles := logFiles[numeral := numeral];
        numeral := numeral + 1;
        renames := renames + 1;
      }
      return NoError;
    }

    method ReopenLogFile() returns (err: Error)
      modifies this`fd, this`fileSize, dir
      ensures err == if logFiles == [] then InvalidArgument else NoError
      ensures logFiles == [] ==> fd.None? && dir.files == old(dir.files)
      ensures logFiles != [] ==>
        var last := logFiles[|logFiles| - 1];
        && fd == Some(last)
        && dir.files == (if last in old(dir.files) then old(dir.files) else old(dir.files)[last := []])
        && fileSize == |dir.files[last]|
    {
      fd := None;
      if |logFiles| == 0 {
        return InvalidArgument;
      }
      var last := logFiles[|logFiles| - 1];
      dir.OpenAppend(last);
      fd, fileSize := Some(last), |dir.files[last]|;
      return NoError;
    }

    /** Room for one more file and a numeral for it. */
    method MakeRoom()
      requires Settled() && Accounted()
      modifies this`logFiles, this`numeral, this`dropped, this`allocations, this`renames, this`sinceRenumber, dir
      ensures Listed() && |logFiles| == Min(numeral, limits.files - 1) && numeral < MaxNumeral(limits)
      ensures View() == Shrink(limits, old(View()))
      ensures numeral + 1 == NextNumeral(limits, old(numeral))
      ensures AccountedFor(numeral + 1) && allocations == old(allocations) + 1
      ensures renames > old(renames) ==> old(sinceRenumber) > limits.files
    {
      if logFiles != [] {
        DropOldest(limits, dir.files, logFiles, numeral);
      }
      var err := ShrinkLogFiles();
      assert Listed() && View() == Shrink(limits, old(View()));
      allocations, sinceRenumber := allocations + 1, sinceRenumber + 1;
      if numeral == MaxNumeral(limits) {
        Renumber();
      }
    }

    /** The numerals start from 0 again; what the files hold and their order stay. */
    method Renumber()
      requires Listed()
      modifies this`logFiles, this`numeral, this`renames, this`sinceRenumber, dir
      ensures Listed() && numeral == |logFiles| == |old(logFiles)| && View() == old(View())
      ensures renames == old(renames) + |logFiles| && sinceRenumber == 1
    {
      RenumberedWindow(limits, dir.files, logFiles, numeral);
      var err := UpdateLogFileNumerals();
      sinceRenumber := 1;
    }

    /** Adds the next numeral to the list and opens its file, which is new on disk. */
    method StartFile() returns (err: Error)
      requires Listed() && |logFiles| == Min(numeral, limits.files - 1) && numeral < MaxNumeral(limits)
      requires |logBuffer| <= limits.entry
      modifies this`fd, this`fileSize, this`logFiles, this`numeral, dir
      ensures old(numeral) !in old(dir.files) && numeral == old(numeral) + 1
      ensures err.IsNone() && Open() && fileSize == 0
      ensures View() == old(View()).(files := old(View()).files + [[]])
    {
      AddNewest(limits, dir.files, logFiles, numeral);
      logFiles, numeral := logFiles + [numeral], numeral + 1;
      err := ReopenLogFile();
    }

    /**
     Starts a new file after making room for it and, when the numerals are used up, renumbering;
     that happens at most once in more than `limit` allocations.
     */
    method AllocateNewLogFile() returns (err: Error)
      requires Settled() && Accounted()
      modifies this`fd, this`fileSize, this`logFiles, this`numeral, dir
      modifies this`dropped, this`allocations, this`renames, this`sinceRenumber
      ensures err.IsNone() && Open() && Accounted() && fileSize == 0
      ensures var room := Shrink(limits, old(View())); View() == room.(files := room.files + [[]])
      ensures numeral == NextNumeral(limits, old(numeral))
      ensures allocations == old(allocations) + 1
      ensures renames > old(renames) ==> old(sinceRenumber) > limits.files
    {
      fd := None;
      MakeRoom();
      err := StartFile();
    }

    /** The write of the buffer to the open file. */
    method WriteBuffer() returns (err: Error)
      requires Open()
      modifies this`fd, this`fileSize, this`logBuffer, dir
      ensures err.IsNone() && Open() && logBuffer == []
      ensures View() == Grown(old(View()))
    {
      GrowNewest(limits, dir.files, logFiles, numeral, View());
      dir.Append(numeral - 1, logBuffer);
      logBuffer := [];
      assert Listed();
      err := ReopenLogFile();
      assert Listed();
    }

    method WriteToFile() returns (err: Error)
      requires fd.Some? ==> Open() && Accounted()
      modifies this`fd, this`fileSize, this`logFiles, this`numeral, this`logBuffer, dir
      modifies this`dropped, this`allocations, this`renames, this`sinceRenumber
      ensures old(fd).None? ==>
        && err == Failed && fd.None? && dir.files == old(dir.files)
        && logBuffer == old(logBuffer) && logFiles == old(logFiles)
      ensures old(fd).Some? ==> err.IsNone() && Valid() && View() == Flush(limits, old(View()))
      ensures old(fd).Some? ==>
        numeral == if NeedsSpace(limits, old(View())) then NextNumeral(limits, old(numeral)) else old(numeral)
      ensures old(fd).Some? ==> allocations <= old(allocations) + 1
    {
      if fd.None? {
        return Failed;
      }
      ghost var log := View();
      FlushByGrowing(limits, log, HasSpace(limits, log));
      err := GetSpace();
      assert View() == HasSpace(limits, log) && Accounted();
      err := WriteBuffer();
    }

    /** A new file when the open one has no space for the buffer. */
    method GetSpace() returns (err: Error)
      requires Open() && Accounted()
      modifies this`fd, this`fileSize, this`logFiles, this`numeral, dir
      modifies this`dropped, this`allocations, this`renames, this`sinceRenumber
      ensures Open() && Accounted() && View() == HasSpace(limits, old(View()))
      ensures numeral == if NeedsSpace(limits, old(View())) then NextNumeral(limits, old(numeral)) else old(numeral)
      ensures allocations <= old(allocations) + 1
    {
      err := NoError;
      ghost var log := View();
      assert |log.files[|log.files| - 1]| == fileSize;
      if fileSize + |logBuffer| > limits.fileSize {
        err := AllocateNewLogFile();
      }
    }

    method FillLogBuffer(log: seq<byte>) returns (added: nat)
      requires |logBuffer| <= limits.entry
      modifies this`logBuffer
      ensures added == Min(|log|, limits.entry - |old(logBuffer)|)
      ensures logBuffer == old(logBuffer) + log[..added]
    {
      var copySize := Min(|log|, limits.entry - |logBuffer|);
      if copySize > 0 {
        logBuffer := logBuffer + log[..copySize];
      }
      return copySize;
    }

    /**
     Refines Handle: the files on disk, in list order, are the files of the log. Without an open
     file nothing reaches the disk.
     */
    method HandleLog(data: seq<byte>) returns (added: nat)
      requires if fd.Some? then Valid() else |logBuffer| <= limits.entry
      modifies this, dir
      ensures old(fd).Some? ==> Valid() && View() == Handle(limits, old(View()), data)
      ensures old(fd).Some? ==> added == Added(limits, old(View()), data)
      ensures old(fd).Some? ==> numeral == NumeralAfter(limits, old(View()), old(numeral), data)
      ensures old(fd).Some? ==> renames <= allocations <= old(allocations) + 1
      ensures old(fd).None? ==> fd.None? && dir.files == old(dir.files) && logFiles == old(logFiles)
      ensures old(fd).None? ==> logBuffer == old(logBuffer) + data[..Min(|data|, limits.entry - |old(logBuffer)|)]
      ensures old(fd).None? ==> added == if Complete(limits, logBuffer) then 0 else |data|
    {
      added := FillLogBuffer(data);
      if Complete(limits, logBuffer) {
        var err := WriteToFile();
        if !err.IsNone() {
          return 0;
        }
      }
    }

    /**
     A run of calls. It refines the run of the list model, and leaves the directory with the newest
     consecutive numerals, at most as many as the limit.
     */
    method HandleAll(calls: seq<seq<byte>>)
      requires Valid()
      modifies this, dir
      ensures Valid() && View() == Run(limits, old(View()), calls)
      ensures numeral == RunNumeral(limits, old(View()), old(numeral), calls) <= 2 * limits.files
      ensures logFiles == Window(Oldest(limits.files, numeral), numeral)
    {
      assert calls[0..] == calls;
      for i := 0 to |calls|
        invariant Valid()
        invariant Run(limits, View(), calls[i..]) == Run(limits, old(View()), calls)
        invariant RunNumeral(limits, View(), numeral, calls[i..])
                  == RunNumeral(limits, old(View()), old(numeral), calls)
      {
        assert calls[i..][0] == calls[i] && calls[i..][1..] == calls[i + 1..];
        var added := HandleLog(calls[i]);
      }
      assert calls[|calls|..] == [];
    }

    /** The names found in the log directory, in the order Sort gives them. */
    ghost predicate IsListing(listing: seq<nat>)
      reads dir
    {
      && Distinct(listing) && NamesInOrder(listing)
      && (forall n: nat :: n in dir.files <==> n in listing)
      && (forall i :: 0 <= i < |listing| ==> listing[i] <= MaxNumeral(limits))
    }

    /** Fills the list with the names found, or empties it when there are too many. */
    method RestoreLogFiles(listing: seq<nat>) returns (err: Error)
      requires logFiles == [] && numeral == 0
      modifies this`logFiles, this`numeral
      ensures err == if |listing| <= limits.files then NoError else Failed
      ensures logFiles == if err.IsNone() then listing else []
      ensures logFiles == [] ==> numeral == 0
    {
      for i := 0 to |listing|
        invariant i <= limits.files && logFiles == listing[..i]
        invariant i == 0 ==> numeral == 0
      {
        if |logFiles| == limits.files {
          logFiles, numeral := [], 0;
          return Failed;
        }
        numeral := if listing[i] > numeral then listing[i] else numeral;
        logFiles := logFiles + [listing[i]];
      }
      return NoError;
    }

    /**
     Start-up on an existing directory. An empty one, or one with too many files, starts an empty log.
     When renumbering in listing order causes no clash, the log is the kept files, in listing order.
     Start-up fails exactly when no file of those found is kept, as for a limit of one.
     */
    method Init(listing: seq<nat>) returns (err: Error)
      requires Sane(limits) && Unused() && IsListing(listing)
      modifies this, dir
      ensures |listing| > limits.files ==> dir.files == map[0 := []] && !activated
      ensures |listing| <= limits.files ==> activated
      ensures |listing| == 0 || |listing| > limits.files ==> Valid() && View() == EMPTY_LOG && numeral == 1
      ensures err.IsNone() <==> !(0 < |listing| <= limits.files && Kept(limits, listing) == [])
      ensures fd.Some? == err.IsNone() && logBuffer == []
      ensures !err.IsNone() ==> err == InvalidArgument && limits.files == 1 && dir.files == map[]
      ensures 0 < |listing| <= limits.files && Kept(limits, listing) != [] ==>
        OpenedIn(RenameFrom(KeptOnDisk(limits, old(dir.files), listing), Kept(limits, listing), 0), dir.files)
      ensures 0 < |listing| <= limits.files && Kept(limits, listing) != [] && NoClash(Kept(limits, listing)) ==>
        && Valid()
        && Restarted(limits, old(dir.files), dir.files, Kept(limits, listing))
        && logFiles == Window(0, |Kept(limits, listing)|)
        && View() == Log(ContentsOf(old(dir.files), Kept(limits, listing)), [], dropped)
        && dropped == (if |listing| == limits.files then [old(dir.files)[listing[0]]] else [])
    {
      var restored := RestoreLogFiles(listing);
      activated := restored.IsNone();
      if !restored.IsNone() {
        dir.Clear();
      }
      if |logFiles| == 0 {
        err := AllocateNewLogFile();
        return;
      }
      err := StartFrom(listing);
    }

    /** Start-up with the files of a listing. */
    method StartFrom(listing: seq<nat>) returns (err: Error)
      requires Sane(limits) && logFiles == listing && logBuffer == [] && dropped == [] && renames == allocations == 0
      requires 0 < |listing| <= limits.files && IsListing(listing)
      modifies this, dir
      ensures activated == old(activated) && logBuffer == []
      ensures fd.Some? == err.IsNone() && err.IsNone() == (Kept(limits, listing) != [])
      ensures !err.IsNone() ==> err == InvalidArgument && limits.files == 1 && dir.files == map[]
      ensures Kept(limits, listing) != [] ==>
        OpenedIn(RenameFrom(KeptOnDisk(limits, old(dir.files), listing), Kept(limits, listing), 0), dir.files)
      ensures Kept(limits, listing) != [] && NoClash(Kept(limits, listing)) ==>
        && Valid()
        && Restarted(limits, old(dir.files), dir.files, Kept(limits, listing))
        && logFiles == Window(0, |Kept(limits, listing)|)
        && View() == Log(ContentsOf(old(dir.files), Kept(limits, listing)), [], dropped)
        && dropped == (if |listing| == limits.files then [old(dir.files)[listing[0]]] else [])
    {
      KeptFiles(limits, dir.files, listing);
      if NoClash(Kept(limits, listing)) {
        KeptRenumbered(limits, dir.files, listing);
      }
      err := RestoreKept();
    }

    /** The rest of Init once the list is restored: shrink, renumber, reopen. */
    method RestoreKept() returns (err: Error)
      requires logFiles != [] && logFiles[0] in dir.files && logBuffer == [] && dropped == []
      requires Sane(limits) && renames == allocations == 0
      modifies this, dir
      ensures activated == old(activated) && logBuffer == []
      ensures dropped == if |old(logFiles)| == limits.files then [old(dir.files)[old(logFiles)[0]]] else []
      ensures fd.Some? == err.IsNone() && err.IsNone() == (Kept(limits, old(logFiles)) != [])
      ensures var kept, d := Kept(limits, old(logFiles)), KeptOnDisk(limits, old(dir.files), old(logFiles));
              kept != [] ==> OpenedIn(RenameFrom(d, kept, 0), dir.files)
      ensures
        var kept, d := Kept(limits, old(logFiles)), KeptOnDisk(limits, old(dir.files), old(logFiles));
        && (kept == [] ==> err == InvalidArgument && fd.None? && dir.files == d)
        && (kept != [] && AllFound(d, kept, 0)
            && Numbered(limits, RenameFrom(d, kept, 0), Window(0, |kept|), |kept|) && |kept| < limits.files ==>
              && err.IsNone() && Valid()
              && dir.files == RenameFrom(d, kept, 0)
              && logFiles == Window(0, |kept|))
    {
      err := ShrinkLogFiles();
      err := RenumberAndOpen();
    }

    /** Renumbers what is kept, whether or not that fails, and opens its last file. */
    method RenumberAndOpen() returns (err: Error)
      requires Sane(limits) && logBuffer == [] && allocations == 0
      modifies this`logFiles, this`numeral, this`fd, this`fileSize, this`renames, this`sinceRenumber, this`base, dir
      ensures fd.Some? == err.IsNone() && err.IsNone() == (old(logFiles) != [])
      ensures old(logFiles) != [] ==> OpenedIn(RenameFrom(old(dir.files), old(logFiles), 0), dir.files)
      ensures
        var kept, d := old(logFiles), old(dir.files);
        && (kept == [] ==> err == InvalidArgument && dir.files == d)
        && (kept != [] && AllFound(d, kept, 0)
            && Numbered(limits, RenameFrom(d, kept, 0), Window(0, |kept|), |kept|) && |kept| < limits.files ==>
              && Valid() && dir.files == RenameFrom(d, kept, 0) && logFiles == Window(0, |kept|))
    {
      err := UpdateLogFileNumerals();
      renames, sinceRenumber, base := 0, 0, numeral;
      err := ReopenLogFile();
    }
  }
}
