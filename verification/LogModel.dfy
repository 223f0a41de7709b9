/**
 The rotating log as a list of file contents: what HandleLog does, without numerals, names or
 descriptors, and what is conserved and retained over whole runs.
 */
module LogModel {
  import opened Bytes

  const NEWLINE: byte := 10
  const NUL: byte := 0

  /** The configured limits: number of files, file size, and size of one log entry. */
  datatype Limits = Limits(files: nat, fileSize: nat, entry: nat)

  predicate Sane(l: Limits) {
    1 <= l.files && 1 <= l.entry
  }

  /** `dropped` is a history: the contents of the files removed so far, oldest first. */
  datatype Log = Log(files: seq<seq<byte>>, buffer: seq<byte>, dropped: seq<seq<byte>>)

  const EMPTY_LOG := Log([[]], [], [])

  predicate Wellformed(l: Limits, log: Log) {
    Sane(l) && 1 <= |log.files| <= l.files && |log.buffer| < l.entry
  }

  /** Room for one more file: a full list loses its oldest file. */
  function Shrink(l: Limits, log: Log): Log
    requires 1 <= l.files
  {
    if |log.files| < l.files || log.files == [] then log
    else log.(files := log.files[1..], dropped := log.dropped + [log.files[0]])
  }

  function Flush(l: Limits, log: Log): Log
    requires 1 <= l.files && log.files != []
  {
    var last := |log.files| - 1;
    if |log.files[last]| + |log.buffer| > l.fileSize then
      var room := Shrink(l, log);
      room.(files := room.files + [log.buffer], buffer := [])
    else
      log.(files := log.files[last := log.files[last] + log.buffer], buffer := [])
  }

  function Added(l: Limits, log: Log, data: seq<byte>): (n: nat)
    requires Wellformed(l, log)
    ensures n <= |data|
  {
    Min(|data|, l.entry - |log.buffer|)
  }

  predicate Complete(l: Limits, buffer: seq<byte>) {
    |buffer| == l.entry || (buffer != [] && (buffer[|buffer| - 1] == NEWLINE || buffer[|buffer| - 1] == NUL))
  }

  function Handle(l: Limits, log: Log, data: seq<byte>): Log
    requires Wellformed(l, log)
  {
    var filled := log.(buffer := log.buffer + data[..Added(l, log, data)]);
    if Complete(l, filled.buffer) then Flush(l, filled) else filled
  }

  ghost function Retained(log: Log): seq<byte> {
    Concat(log.files) + log.buffer
  }

  ghost function Everything(log: Log): seq<byte> {
    Concat(log.dropped) + Retained(log)
  }

  lemma ConcatLast(files: seq<seq<byte>>, more: seq<byte>)
    requires files != []
    ensures var last := |files| - 1; Concat(files[last := files[last] + more]) == Concat(files) + more
  {
    var last := |files| - 1;
    var init := files[..last];
    ConcatSnoc(init, files[last]);
    ConcatSnoc(init, files[last] + more);
    assert files == init + [files[last]];
    assert files[last := files[last] + more] == init + [files[last] + more];
    Assoc(Concat(init), files[last], more);
  }

  lemma ShrinkConserves(l: Limits, log: Log)
    requires 1 <= l.files
    ensures Concat(Shrink(l, log).dropped) + Concat(Shrink(l, log).files) == Concat(log.dropped) + Concat(log.files)
  {
    if |log.files| >= l.files {
      ConcatSnoc(log.dropped, log.files[0]);
    }
  }

  lemma FlushConserves(l: Limits, log: Log)
    requires 1 <= l.files && log.files != []
    ensures Everything(Flush(l, log)) == Everything(log)
  {
    var last := |log.files| - 1;
    if |log.files[last]| + |log.buffer| > l.fileSize {
      var room := Shrink(l, log);
      ShrinkConserves(l, log);
      ConcatSnoc(room.files, log.buffer);
      Assoc(Concat(room.dropped), Concat(room.files), log.buffer);
      Assoc(Concat(log.dropped), Concat(log.files), log.buffer);
    } else {
      ConcatLast(log.files, log.buffer);
    }
  }

  /** One call neither loses nor duplicates a byte, and takes at least one if there is any. */
  lemma HandleConserves(l: Limits, log: Log, data: seq<byte>)
    requires Wellformed(l, log)
    ensures Wellformed(l, Handle(l, log, data))
    ensures Everything(Handle(l, log, data)) == Everything(log) + data[..Added(l, log, data)]
    ensures data != [] ==> Added(l, log, data) > 0
  {
    var chunk := data[..Added(l, log, data)];
    var filled := log.(buffer := log.buffer + chunk);
    Assoc(Concat(log.files), log.buffer, chunk);
    Assoc(Concat(log.dropped), Retained(log), chunk);
    if Complete(l, filled.buffer) {
      FlushConserves(l, filled);
    }
  }

  /**
   One call writes the entry out if and only if it is full or ends in a newline or a NUL; until then
   the files stay as they are.
   */
  lemma HandleWritesIff(l: Limits, log: Log, data: seq<byte>)
    requires Wellformed(l, log) && data != []
    ensures
      var after, n := Handle(l, log, data), Added(l, log, data);
      if |log.buffer| + n == l.entry || data[n - 1] == 10 || data[n - 1] == 0
      then after.buffer == []
      else n == |data| && after == log.(buffer := log.buffer + data)
  {
    var n := Added(l, log, data);
    assert n < |data| ==> |log.buffer| + n == l.entry;
    assert (log.buffer + data[..n])[|log.buffer| + n - 1] == data[n - 1];
    assert data[..|data|] == data;
  }

  ghost function Run(l: Limits, log: Log, calls: seq<seq<byte>>): (end: Log)
    requires Wellformed(l, log)
    ensures Wellformed(l, end)
    decreases |calls|
  {
    if calls == [] then log
    else
      HandleConserves(l, log, calls[0]);
      Run(l, Handle(l, log, calls[0]), calls[1..])
  }

  /** The bytes that a run of calls accepted: for each call, as many as it reported. */
  ghost function Accepted(l: Limits, log: Log, calls: seq<seq<byte>>): seq<byte>
    requires Wellformed(l, log)
    decreases |calls|
  {
    if calls == [] then []
    else
      HandleConserves(l, log, calls[0]);
      calls[0][..Added(l, log, calls[0])] + Accepted(l, Handle(l, log, calls[0]), calls[1..])
  }

  /**
   Over any run, dropped files, then retained files in order, then the buffer, are exactly the
   bytes accepted.
   */
  lemma {:induction false} RunConserves(l: Limits, log: Log, calls: seq<seq<byte>>)
    requires Wellformed(l, log)
    ensures Everything(Run(l, log, calls)) == Everything(log) + Accepted(l, log, calls)
    decreases |calls|
  {
    if calls != [] {
      var next := Handle(l, log, calls[0]);
      HandleConserves(l, log, calls[0]);
      RunConserves(l, next, calls[1..]);
      Assoc(Everything(log), calls[0][..Added(l, log, calls[0])], Accepted(l, next, calls[1..]));
    }
  }

  /** Every file there has ever been, in the order in which they were started. */
  ghost function AllFiles(log: Log): seq<seq<byte>> {
    log.dropped + log.files
  }

  /**
   From `log` to `later`, every closed file is whole, once, and at its place, the open one has only
   grown, and files went from the list to the dropped ones only where the list is full.
   */
  ghost predicate OnlyWholeFilesDropped(l: Limits, log: Log, later: Log) {
    var h, h' := AllFiles(log), AllFiles(later);
    && 0 < |h| <= |h'|
    && h[..|h| - 1] == h'[..|h| - 1]
    && h[|h| - 1] <= h'[|h| - 1]
    && log.dropped <= later.dropped
    && (later.dropped != log.dropped ==> |later.files| == l.files)
  }

  lemma FlushDropsWholeFiles(l: Limits, log: Log)
    requires 1 <= |log.files| <= l.files
    ensures 1 <= |Flush(l, log).files| <= l.files
    ensures OnlyWholeFilesDropped(l, log, Flush(l, log))
  {
    var last := |log.files| - 1;
    if |log.files[last]| + |log.buffer| > l.fileSize {
      assert AllFiles(Flush(l, log)) == AllFiles(log) + [log.buffer];
    } else {
      assert AllFiles(Flush(l, log)) == AllFiles(log)[|AllFiles(log)| - 1 := log.files[last] + log.buffer];
    }
  }

  lemma HandleDropsWholeFiles(l: Limits, log: Log, data: seq<byte>)
    requires Wellformed(l, log)
    ensures OnlyWholeFilesDropped(l, log, Handle(l, log, data))
    ensures |log.files| <= |Handle(l, log, data).files|
  {
    var filled := log.(buffer := log.buffer + data[..Added(l, log, data)]);
    FlushDropsWholeFiles(l, filled);
  }

  lemma DropsTransitive(l: Limits, a: Log, b: Log, c: Log)
    requires OnlyWholeFilesDropped(l, a, b) && OnlyWholeFilesDropped(l, b, c)
    requires |b.files| <= |c.files| <= l.files
    ensures OnlyWholeFilesDropped(l, a, c)
  {
    var h, h', h'' := AllFiles(a), AllFiles(b), AllFiles(c);
    assert h'[..|h'| - 1][..|h| - 1] == h''[..|h'| - 1][..|h| - 1];
    if |h| < |h'| {
      assert h'[..|h'| - 1][|h| - 1] == h''[..|h'| - 1][|h| - 1];
    }
  }

  /** Over any run only whole files are lost, the oldest first, none twice, and only from a full list. */
  lemma {:induction false} RunDropsWholeFiles(l: Limits, log: Log, calls: seq<seq<byte>>)
    requires Wellformed(l, log)
    ensures OnlyWholeFilesDropped(l, log, Run(l, log, calls))
    ensures |log.files| <= |Run(l, log, calls).files|
    decreases |calls|
  {
    if calls != [] {
      var next := Handle(l, log, calls[0]);
      HandleConserves(l, log, calls[0]);
      HandleDropsWholeFiles(l, log, calls[0]);
      RunDropsWholeFiles(l, next, calls[1..]);
      DropsTransitive(l, log, next, Run(l, next, calls[1..]));
    }
  }

  ghost predicate IsSuffix(s: seq<byte>, t: seq<byte>) {
    |s| <= |t| && t[|t| - |s|..] == s
  }

  /** From an empty directory, what is retained is always a suffix of what was accepted. */
  lemma RetainedIsSuffix(l: Limits, calls: seq<seq<byte>>)
    requires Sane(l)
    ensures IsSuffix(Retained(Run(l, EMPTY_LOG, calls)), Accepted(l, EMPTY_LOG, calls))
  {
    RunConserves(l, EMPTY_LOG, calls);
    var end, accepted := Run(l, EMPTY_LOG, calls), Accepted(l, EMPTY_LOG, calls);
    assert EMPTY_LOG.files[1..] == [];
    assert Everything(EMPTY_LOG) == [];
    assert accepted == Concat(end.dropped) + Retained(end);
  }

  /** A caller that feeds the unconsumed rest again. It terminates, and every byte is accepted once. */
  ghost function Feed(l: Limits, log: Log, data: seq<byte>): (end: Log)
    requires Wellformed(l, log)
    ensures Wellformed(l, end)
    ensures Everything(end) == Everything(log) + data
    decreases |data|
  {
    if data == [] then log
    else
      HandleConserves(l, log, data);
      var n := Added(l, log, data);
      var end := Feed(l, Handle(l, log, data), data[n..]);
      assert Everything(end) == Everything(log) + data by {
        Assoc(Everything(log), data[..n], data[n..]);
        assert data[..n] + data[n..] == data;
      }
      end
  }

  /**
   Retention: no file exceeds the limit, and two adjacent files together do, since the second
   was started only because its first entry did not fit the first.
   */
  ghost predicate Bounded(l: Limits, log: Log) {
    Within(l, log.files)
  }

  ghost predicate Within(l: Limits, files: seq<seq<byte>>) {
    && (forall i :: 0 <= i < |files| ==> |files[i]| <= l.fileSize)
    && PairsExceed(files, l.fileSize)
  }

  ghost predicate PairsExceed(files: seq<seq<byte>>, limit: nat) {
    forall i, j :: 0 <= i < j < |files| && j == i + 1 ==> |files[i]| + |files[j]| > limit
  }

  lemma StartBounded(l: Limits, files: seq<seq<byte>>, file: seq<byte>)
    requires Within(l, files) && |file| <= l.fileSize
    requires files != [] ==> |files[|files| - 1]| + |file| > l.fileSize
    ensures Within(l, files + [file])
  {
  }

  lemma GrowBounded(l: Limits, files: seq<seq<byte>>, more: seq<byte>)
    requires Within(l, files) && files != [] && |files[|files| - 1]| + |more| <= l.fileSize
    ensures Within(l, files[|files| - 1 := files[|files| - 1] + more])
  {
  }

  lemma FlushBounded(l: Limits, log: Log)
    requires 1 <= l.files && log.files != [] && Bounded(l, log) && |log.buffer| <= l.fileSize
    ensures Bounded(l, Flush(l, log))
  {
    var last := |log.files| - 1;
    if |log.files[last]| + |log.buffer| > l.fileSize {
      StartBounded(l, Shrink(l, log).files, log.buffer);
    } else {
      GrowBounded(l, log.files, log.buffer);
    }
  }

  lemma HandleBounded(l: Limits, log: Log, data: seq<byte>)
    requires Wellformed(l, log) && Bounded(l, log) && l.entry <= l.fileSize
    ensures Bounded(l, Handle(l, log, data))
  {
    var filled := log.(buffer := log.buffer + data[..Added(l, log, data)]);
    FlushBounded(l, filled);
  }

  lemma {:induction false} RunBounded(l: Limits, log: Log, calls: seq<seq<byte>>)
    requires Wellformed(l, log) && Bounded(l, log) && l.entry <= l.fileSize
    ensures Bounded(l, Run(l, log, calls))
    decreases |calls|
  {
    if calls != [] {
      HandleConserves(l, log, calls[0]);
      HandleBounded(l, log, calls[0]);
      RunBounded(l, Handle(l, log, calls[0]), calls[1..]);
    }
  }

  lemma OneMore(n: nat, x: nat)
    ensures (n + 1) * x == n * x + x
    ensures n * (x + 1) == n * x + n
  {
  }

  lemma {:induction false} PairsSum(files: seq<seq<byte>>, limit: nat)
    requires PairsExceed(files, limit)
    ensures |Concat(files)| >= |files| / 2 * (limit + 1)
    decreases |files|
  {
    if |files| >= 2 {
      var rest := files[2..];
      assert files[1..][1..] == rest;
      assert |Concat(files)| == |files[0]| + |files[1]| + |Concat(rest)|;
      PairsSum(rest, limit);
      assert |files| / 2 == |rest| / 2 + 1;
      OneMore(|rest| / 2, limit + 1);
    }
  }

  /**
   When one entry fits a file, a run from an empty directory that has filled its list of N files
   retains more than floor(N / 2) times the file limit whenever N is at least 2.
   */
  lemma RetentionBound(l: Limits, calls: seq<seq<byte>>)
    requires Sane(l) && l.entry <= l.fileSize
    ensures
      var end := Run(l, EMPTY_LOG, calls);
      && Bounded(l, end)
      && |Concat(end.files)| >= |end.files| / 2 * (l.fileSize + 1)
      && (|end.files| == l.files >= 2 ==> |Concat(end.files)| > l.files / 2 * l.fileSize)
  {
    RunBounded(l, EMPTY_LOG, calls);
    var end := Run(l, EMPTY_LOG, calls);
    PairsSum(end.files, l.fileSize);
    OneMore(|end.files| / 2, l.fileSize);
  }
}
