/** Lines of a log file, and the reader that enumerates them over a list of files. */
module LogLines {
  import opened Bytes
  import opened Common
  import opened LogModel
  import opened Renaming
  import opened FSBackends

  const CARRIAGE_RETURN: byte := 13

  /** The delimiters of the reader; the NUL of its literal ends the C string. */
  predicate IsDelimiter(c: byte) {
    c == NEWLINE || c == CARRIAGE_RETURN
  }

  /** The length of the first line. */
  function LineEnd(s: seq<byte>): (e: nat)
    ensures e <= |s|
    ensures e < |s| ==> IsDelimiter(s[e])
    ensures forall i :: 0 <= i < e ==> !IsDelimiter(s[i])
  {
    if s == [] || IsDelimiter(s[0]) then 0 else 1 + LineEnd(s[1..])
  }

  function FirstLine(s: seq<byte>): seq<byte> {
    s[..LineEnd(s)]
  }

  function AfterLine(s: seq<byte>): (rest: seq<byte>)
    ensures s != [] ==> |rest| < |s|
  {
    if LineEnd(s) < |s| then s[LineEnd(s) + 1..] else []
  }

  /** The lines of a file; a delimiter at the very end starts no further line. */
  function SplitLines(s: seq<byte>): seq<seq<byte>>
    decreases |s|
  {
    if s == [] then [] else [FirstLine(s)] + SplitLines(AfterLine(s))
  }

  /** What is left of a file after its first `at` bytes; a reader may be one past its end. */
  function Rest(s: seq<byte>, at: nat): seq<byte> {
    if at <= |s| then s[at..] else []
  }

  /** The lines of the files of a list, skipping files that are gone. */
  function LinesOf(d: Directory, list: seq<nat>): seq<seq<byte>> {
    if list == [] then []
    else (if list[0] in d then SplitLines(d[list[0]]) else []) + LinesOf(d, list[1..])
  }

  ghost function AllLines(files: seq<seq<byte>>): seq<seq<byte>> {
    if files == [] then [] else SplitLines(files[0]) + AllLines(files[1..])
  }

  lemma {:induction false} AllLinesAppend(a: seq<seq<byte>>, b: seq<seq<byte>>)
    ensures AllLines(a + b) == AllLines(a) + AllLines(b)
  {
    if a == [] {
      assert a + b == b;
    } else {
      assert (a + b)[1..] == a[1..] + b;
      AllLinesAppend(a[1..], b);
      Assoc(SplitLines(a[0]), AllLines(a[1..]), AllLines(b));
    }
  }

  lemma AllLinesSnoc(files: seq<seq<byte>>, last: seq<byte>)
    ensures AllLines(files + [last]) == AllLines(files) + SplitLines(last)
  {
    AllLinesAppend(files, [last]);
    assert AllLines([last]) == SplitLines(last) + AllLines([]) == SplitLines(last);
  }

  /** The lines from byte `at` of an open file, if any, and of the files of the list. */
  function LinesLeft(d: Directory, open: Option<nat>, at: nat, list: seq<nat>): seq<seq<byte>>
    requires open.Some? ==> open.value in d
  {
    (if open.Some? then SplitLines(Rest(d[open.value], at)) else []) + LinesOf(d, list)
  }

  lemma OpenFirst(d: Directory, at: nat, list: seq<nat>)
    requires list != []
    ensures LinesLeft(d, None, at, list) ==
            LinesLeft(d, if list[0] in d then Some(list[0]) else None, 0, list[1..])
  {
  }

  lemma AtEnd(d: Directory, open: nat, at: nat, list: seq<nat>)
    requires open in d && at >= |d[open]|
    ensures LinesLeft(d, Some(open), at, list) == LinesLeft(d, None, 0, list)
  {
  }

  lemma {:induction false} ReadOne(d: Directory, open: nat, at: nat, list: seq<nat>, line: seq<byte>)
    requires open in d && at < |d[open]| && line == FirstLine(Rest(d[open], at))
    ensures LinesLeft(d, Some(open), at, list) == [line] + LinesLeft(d, Some(open), at + |line| + 1, list)
  {
    SplitFirst(d[open], at, line);
    Glue(line, SplitLines(Rest(d[open], at)), SplitLines(Rest(d[open], at + |line| + 1)), LinesOf(d, list));
  }

  lemma {:induction false} SplitFirst(file: seq<byte>, at: nat, line: seq<byte>)
    requires at < |file| && line == FirstLine(Rest(file, at))
    ensures SplitLines(Rest(file, at)) == [line] + SplitLines(Rest(file, at + |line| + 1))
  {
    RestAfterLine(file, at);
    SplitUnfold(Rest(file, at), line, Rest(file, at + |line| + 1));
  }

  lemma SplitUnfold(s: seq<byte>, line: seq<byte>, rest: seq<byte>)
    requires s != [] && line == FirstLine(s) && rest == AfterLine(s)
    ensures SplitLines(s) == [line] + SplitLines(rest)
  {
  }

  lemma Glue<T>(x: T, a: seq<T>, b: seq<T>, c: seq<T>)
    requires a == [x] + b
    ensures a + c == [x] + (b + c)
  {
  }

  lemma HeadAndTail<T>(s: seq<T>, x: T, t: seq<T>)
    requires s == [x] + t
    ensures s != [] && s[0] == x && s[1..] == t
  {
  }

  /** A line and its delimiter further, the rest of a file is what follows the line. */
  lemma RestAfterLine(file: seq<byte>, at: nat)
    requires at < |file|
    ensures Rest(file, at) != []
    ensures Rest(file, at + |FirstLine(Rest(file, at))| + 1) == AfterLine(Rest(file, at))
  {
    var e := LineEnd(file[at..]);
    if e < |file| - at {
      DropTwice(file, at, e + 1);
    }
  }

  lemma {:induction false} DiskLines(d: Directory, list: seq<nat>)
    requires Holds(d, list)
    ensures LinesOf(d, list) == AllLines(ContentsOf(d, list))
  {
    if list != [] {
      assert Holds(d, list[1..]);
      assert ContentsOf(d, list)[1..] == ContentsOf(d, list[1..]);
      DiskLines(d, list[1..]);
    }
  }

  predicate Aligned(s: seq<byte>) {
    s == [] || s[|s| - 1] == NEWLINE
  }

  lemma LineEndUnique(s: seq<byte>, e: nat)
    requires e < |s| && IsDelimiter(s[e])
    requires forall i :: 0 <= i < e ==> !IsDelimiter(s[i])
    ensures LineEnd(s) == e
  {
    assert LineEnd(s) < |s|;
  }

  lemma CutAppend(a: seq<byte>, b: seq<byte>, e: nat)
    requires e < |a|
    ensures (a + b)[..e] == a[..e] && (a + b)[e] == a[e] && (a + b)[e + 1..] == a[e + 1..] + b
    ensures forall i :: 0 <= i < e ==> (a + b)[i] == a[i]
  {
  }

  lemma {:induction false} FirstLineAppend(a: seq<byte>, b: seq<byte>)
    requires LineEnd(a) < |a|
    ensures FirstLine(a + b) == FirstLine(a) && AfterLine(a + b) == AfterLine(a) + b
  {
    var e := LineEnd(a);
    CutAppend(a, b, e);
    LineEndUnique(a + b, e);
  }

  lemma AlignedAfterLine(a: seq<byte>)
    requires Aligned(a) && a != []
    ensures LineEnd(a) < |a| && Aligned(AfterLine(a))
  {
    assert IsDelimiter(a[|a| - 1]);
  }

  /** Whole lines are split the same way whatever follows them. */
  lemma {:induction false} SplitAppend(a: seq<byte>, b: seq<byte>)
    requires Aligned(a)
    ensures SplitLines(a + b) == SplitLines(a) + SplitLines(b)
    decreases |a|
  {
    if a == [] {
      assert a + b == b;
    } else {
      var line, rest := FirstLine(a), AfterLine(a);
      AlignedAfterLine(a);
      FirstLineAppend(a, b);
      SplitUnfold(a + b, line, rest + b);
      SplitAppend(rest, b);
      Glue(line, SplitLines(a), SplitLines(rest), SplitLines(b));
    }
  }

  /** A line ends at a line feed or a carriage return, and the next one starts after it. */
  lemma SplitAtDelimiter(line: seq<byte>, d: byte, rest: seq<byte>)
    requires d == 10 || d == 13
    requires forall i :: 0 <= i < |line| ==> line[i] != 10 && line[i] != 13
    ensures SplitLines(line + [d] + rest) == [line] + SplitLines(rest)
  {
    var s := line + [d] + rest;
    LineEndUnique(s, |line|);
    assert FirstLine(s) == line && AfterLine(s) == rest;
    SplitUnfold(s, line, rest);
  }

  /** What follows the last delimiter is a line, unless it is empty. */
  lemma SplitLast(line: seq<byte>)
    requires forall i :: 0 <= i < |line| ==> line[i] != 10 && line[i] != 13
    ensures SplitLines(line) == if line == [] then [] else [line]
  {
    assert LineEnd(line) == |line|;
    assert line[..|line|] == line;
    if line != [] {
      SplitUnfold(line, line, []);
    }
  }

  /** A message of one line: no delimiter but the newline that ends it, and no longer than an entry. */
  predicate IsLine(l: Limits, line: seq<byte>) {
    |line| < l.entry && forall i :: 0 <= i < |line| ==> !IsDelimiter(line[i])
  }

  ghost function Messages(lines: seq<seq<byte>>): seq<seq<byte>> {
    seq(|lines|, i requires 0 <= i < |lines| => lines[i] + [NEWLINE])
  }

  lemma SplitOne(l: Limits, line: seq<byte>)
    requires IsLine(l, line)
    ensures SplitLines(line + [NEWLINE]) == [line]
  {
    LineEndUnique(line + [NEWLINE], |line|);
    assert FirstLine(line + [NEWLINE]) == line && AfterLine(line + [NEWLINE]) == [];
  }

  ghost predicate LineLog(l: Limits, log: Log) {
    && Wellformed(l, log) && log.buffer == []
    && forall i :: 0 <= i < |log.files| ==> Aligned(log.files[i])
  }

  ghost function Seen(log: Log): seq<seq<byte>> {
    AllLines(log.dropped) + AllLines(log.files)
  }

  lemma ShrinkSeen(l: Limits, log: Log)
    requires 1 <= l.files
    ensures Seen(Shrink(l, log)) == Seen(log)
  {
    if |log.files| >= l.files {
      AllLinesSnoc(log.dropped, log.files[0]);
    }
  }

  lemma GrowSeen(files: seq<seq<byte>>, more: seq<byte>)
    requires files != [] && Aligned(files[|files| - 1])
    ensures var last := |files| - 1;
            AllLines(files[last := files[last] + more]) == AllLines(files) + SplitLines(more)
  {
    var last := |files| - 1;
    var init := files[..last];
    assert files == init + [files[last]];
    assert files[last := files[last] + more] == init + [files[last] + more];
    AllLinesSnoc(init, files[last]);
    AllLinesSnoc(init, files[last] + more);
    SplitAppend(files[last], more);
    Assoc(AllLines(init), SplitLines(files[last]), SplitLines(more));
  }

  /** One line fed to the log is one more line in its files, at the end. */
  lemma HandleLine(l: Limits, log: Log, line: seq<byte>)
    requires LineLog(l, log) && IsLine(l, line)
    ensures LineLog(l, Handle(l, log, line + [NEWLINE]))
    ensures Seen(Handle(l, log, line + [NEWLINE])) == Seen(log) + [line]
  {
    var data := line + [NEWLINE];
    SplitOne(l, line);
    assert log.buffer + data[..Added(l, log, data)] == data;
    var filled := log.(buffer := data);
    var last := |log.files| - 1;
    if |log.files[last]| + |data| > l.fileSize {
      ShrinkSeen(l, filled);
      var room := Shrink(l, filled);
      AllLinesSnoc(room.files, data);
      Assoc(AllLines(room.dropped), AllLines(room.files), [line]);
    } else {
      GrowSeen(log.files, data);
      Assoc(AllLines(log.dropped), AllLines(log.files), [line]);
    }
  }

  lemma {:induction false} RunLines(l: Limits, log: Log, lines: seq<seq<byte>>)
    requires LineLog(l, log) && forall i :: 0 <= i < |lines| ==> IsLine(l, lines[i])
    ensures LineLog(l, Run(l, log, Messages(lines)))
    ensures Seen(Run(l, log, Messages(lines))) == Seen(log) + lines
    decreases |lines|
  {
    if lines != [] {
      HandleLine(l, log, lines[0]);
      assert Messages(lines)[1..] == Messages(lines[1..]);
      RunLines(l, Handle(l, log, lines[0] + [NEWLINE]), lines[1..]);
      Assoc(Seen(log), [lines[0]], lines[1..]);
      assert [lines[0]] + lines[1..] == lines;
    }
  }

  /** Whatever was logged line by line, the files hold exactly the last lines, in order. */
  lemma RetainedLines(l: Limits, lines: seq<seq<byte>>)
    requires Sane(l) && forall i :: 0 <= i < |lines| ==> IsLine(l, lines[i])
    ensures
      var end := Run(l, EMPTY_LOG, Messages(lines));
      var k := |AllLines(end.dropped)|;
      k <= |lines| && AllLines(end.files) == lines[k..]
  {
    RunLines(l, EMPTY_LOG, lines);
    assert EMPTY_LOG.files[1..] == [];
    assert Seen(EMPTY_LOG) == [];
    var end := Run(l, EMPTY_LOG, Messages(lines));
    assert Seen(end) == lines;
  }
}

module FSLogReaders {
  import opened Bytes
  import opened Common
  import opened LogNames
  import opened LogModel
  import opened Renaming
  import opened FSBackends
  import opened LogLines

  datatype LogEntry = LogEntry(content: seq<byte>, time: Option<int>)

  class FSLogReader {
    const dir: LogDir
    const maxFiles: nat
    const utc: seq<byte> -> Option<int>  // the time at the start of a line, if it parses
    var currentEntry: Option<LogEntry>
    var currentPos: nat
    var fd: Option<nat>
    var logFiles: seq<nat>
    ghost var left: seq<seq<byte>>  // the lines that Next has still to yield

    ghost predicate Valid()
      reads this, dir
    {
      && (fd.Some? ==> fd.value in dir.files)
      && left == LinesLeft(dir.files, fd, currentPos, logFiles)
    }

    constructor (dir: LogDir, maxFiles: nat, utc: seq<byte> -> Option<int>)
      ensures this.dir == dir && this.maxFiles == maxFiles && this.utc == utc
      ensures Valid() && left == []
    {
      this.dir, this.maxFiles, this.utc := dir, maxFiles, utc;
      currentEntry, currentPos, fd, logFiles, left := None, 0, None, [], [];
    }

    /** Lists the log files again. `listing` is what the directory holds, as Sort leaves it. */
    method Reset(listing: seq<nat>) returns (err: Error)
      requires NamesInOrder(listing) && forall n: nat :: n in dir.files <==> n in listing
      modifies this
      ensures Valid()
      ensures err == if |listing| <= maxFiles then NoError else Failed
      ensures err.IsNone() ==> left == LinesOf(dir.files, listing)
    {
      CloseFile();
      logFiles, currentEntry := [], None;
      for i := 0 to |listing|
        invariant i <= maxFiles && logFiles == listing[..i] && fd.None?
      {
        if |logFiles| == maxFiles {
          left := LinesLeft(dir.files, fd, currentPos, logFiles);
          return Failed;
        }
        logFiles := logFiles + [listing[i]];
      }
      assert logFiles == listing;
      left := LinesOf(dir.files, listing);
      return NoError;
    }

    method CloseFile()
      modifies this`fd, this`currentPos
      ensures fd.None? && currentPos == 0
    {
      fd, currentPos := None, 0;
    }

    method OpenNextFile() returns (err: Error)
      requires logFiles != []
      modifies this`currentPos, this`fd, this`logFiles
      ensures currentPos == 0 && logFiles == old(logFiles)[1..]
      ensures fd == if old(logFiles)[0] in dir.files then Some(old(logFiles)[0]) else None
      ensures err == if fd.Some? then NoError else Failed
    {
      currentPos := 0;
      fd := if logFiles[0] in dir.files then Some(logFiles[0]) else None;
      logFiles := logFiles[1..];
      return if fd.None? then Failed else NoError;
    }

    predicate HasFilesToRead()
      reads this
    {
      fd.Some? || |logFiles| > 0
    }

    /** The contract of fs::ReadLine: the line at a position of a file, or an error at its end. */
    static method ReadFileLine(file: seq<byte>, at: nat) returns (err: Error, line: seq<byte>)
      ensures err == if at < |file| then NoError else NotFound
      ensures err.IsNone() ==> line == FirstLine(Rest(file, at))
    {
      if at >= |file| {
        return NotFound, [];
      }
      return NoError, FirstLine(file[at..]);
    }

    /** The next line of the open file, or an error at its end or when a file cannot be opened. */
    method ReadLine() returns (err: Error)
      requires Valid() && HasFilesToRead()
      modifies this
      ensures Valid()
      ensures err.IsNone() ==>
        && old(left) != [] && left == old(left)[1..]
        && currentEntry == Some(LogEntry(old(left)[0], utc(old(left)[0])))
      ensures !err.IsNone() ==> left == old(left) && fd.None?
      ensures !err.IsNone() ==> |logFiles| == if old(fd).Some? then |old(logFiles)| else |old(logFiles)| - 1
    {
      if fd.None? {
        OpenFirst(dir.files, currentPos, logFiles);
        err := OpenNextFile();
        if !err.IsNone() {
          return;
        }
      }
      err := ReadOpenLine();
    }

    /** ReadLine once a file is open. */
    method ReadOpenLine() returns (err: Error)
      requires Valid() && fd.Some?
      modifies this
      ensures Valid() && logFiles == old(logFiles)
      ensures err.IsNone() ==>
        && old(left) != [] && left == old(left)[1..]
        && currentEntry == Some(LogEntry(old(left)[0], utc(old(left)[0])))
      ensures !err.IsNone() ==> left == old(left) && fd.None?
    {
      ghost var d, n, at, list := dir.files, fd.value, currentPos, logFiles;
      var line;
      err, line := ReadFileLine(dir.files[fd.value], currentPos);
      if !err.IsNone() {
        AtEnd(d, n, at, list);
        CloseFile();
        return;
      }
      ReadOne(d, n, at, list, line);
      left := LinesLeft(d, Some(n), at + |line| + 1, list);
      HeadAndTail(old(left), line, left);
      currentPos := currentPos + |line| + 1;
      currentEntry := Some(LogEntry(line, utc(line)));
    }

    /** Yields each remaining line once, in order; the measure is the files left and the bytes left. */
    method Next() returns (more: bool)
      requires Valid()
      modifies this
      ensures Valid() && more == (old(left) != [])
      ensures more ==> left == old(left)[1..]
      ensures more ==> currentEntry == Some(LogEntry(old(left)[0], utc(old(left)[0])))
      ensures !more ==> left == [] && currentEntry.None?
    {
      while HasFilesToRead()
        invariant Valid() && left == old(left)
        decreases |logFiles| + if fd.Some? then 1 else 0
      {
        var err := ReadLine();
        if err.IsNone() {
          return true;
        }
      }
      currentEntry := None;
      return false;
    }

    method GetEntry() returns (err: Error, entry: LogEntry)
      ensures err == if currentEntry.Some? then NoError else NotFound
      ensures err.IsNone() ==> entry == currentEntry.value
    {
      if currentEntry.None? {
        return NotFound, LogEntry([], None);
      }
      return NoError, currentEntry.value;
    }
  }

  /**
   Writing and reading agree: what a reader lists after any lines were logged is all of them but
   those of the removed files, once each and in order, whenever the oldest and newest numerals have equally many digits.
   */
  lemma WriteThenRead(l: Limits, lines: seq<seq<byte>>, d: Directory, hi: nat, listing: seq<nat>)
    requires Sane(l) && forall i :: 0 <= i < |lines| ==> IsLine(l, lines[i])
    requires 1 <= hi && SameDigits(Oldest(l.files, hi), hi)
    requires Numbered(l, d, Window(Oldest(l.files, hi), hi), hi)
    requires ContentsOf(d, Window(Oldest(l.files, hi), hi)) == Run(l, EMPTY_LOG, Messages(lines)).files
    requires NamesInOrder(listing) && forall n: nat :: n in d <==> n in listing
    ensures
      var k := |AllLines(Run(l, EMPTY_LOG, Messages(lines)).dropped)|;
      k <= |lines| && LinesOf(d, listing) == lines[k..]
  {
    var lo := Oldest(l.files, hi);
    var window := Window(lo, hi);
    forall n: nat ensures n in listing <==> lo <= n < hi {
      if lo <= n < hi {
        assert window[n - lo] == n;
      }
    }
    ListingOldestFirstIff(listing, lo, hi);
    DiskLines(d, window);
    RetainedLines(l, lines);
  }

  /** Every file has a line, and no two files start with the same one. */
  ghost predicate Distinguishable(d: Directory) {
    && (forall n :: n in d ==> d[n] != [])
    && (forall m, n :: m in d && n in d && m != n ==> FirstLine(d[m]) != FirstLine(d[n]))
  }

  lemma StartsWith(d: Directory, list: seq<nat>)
    requires Holds(d, list) && list != [] && d[list[0]] != []
    ensures LinesOf(d, list) != [] && LinesOf(d, list)[0] == FirstLine(d[list[0]])
  {
    SplitUnfold(d[list[0]], FirstLine(d[list[0]]), AfterLine(d[list[0]]));
  }

  /** The lines of distinguishable files tell in which order the files were read. */
  lemma {:induction false} OrderShows(d: Directory, a: seq<nat>, b: seq<nat>)
    requires Distinguishable(d) && Holds(d, a) && Holds(d, b)
    requires LinesOf(d, a) == LinesOf(d, b)
    ensures a == b
    decreases |a|
  {
    if a != [] {
      StartsWith(d, a);
    }
    if b != [] {
      StartsWith(d, b);
    }
    if a != [] {
      assert a[0] == b[0];
      assert Holds(d, a[1..]) && Holds(d, b[1..]);
      SameAfter(SplitLines(d[a[0]]), LinesOf(d, a[1..]), LinesOf(d, b[1..]));
      OrderShows(d, a[1..], b[1..]);
      assert a == [a[0]] + a[1..] && b == [b[0]] + b[1..];
    }
  }

  lemma SameAfter<T>(a: seq<T>, b: seq<T>, c: seq<T>)
    requires a + b == a + c
    ensures b == c
  {
    assert b == (a + b)[|a|..] && c == (a + c)[|a|..];
  }

  /**
   A reader yields the lines of consecutively numbered files oldest first if and only if their first
   and last numerals have equally many digits, whatever the files hold that tells them apart.
   */
  lemma {:induction false} ReadOldestFirstIff(d: Directory, lo: nat, hi: nat, listing: seq<nat>)
    requires lo < hi && NamesInOrder(listing) && HoldsExactly(listing, lo, hi)
    requires forall n: nat :: n in d <==> n in listing
    requires Distinguishable(d)
    ensures Holds(d, Window(lo, hi))
    ensures LinesOf(d, listing) == AllLines(ContentsOf(d, Window(lo, hi))) <==> SameDigits(lo, hi)
  {
    var window := Window(lo, hi);
    assert Holds(d, window) && Holds(d, listing);
    DiskLines(d, window);
    ListingOldestFirstIff(listing, lo, hi);
    if LinesOf(d, listing) == LinesOf(d, window) {
      OrderShows(d, listing, window);
    }
  }
}
