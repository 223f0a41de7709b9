/** Downloads of images that consist of several files, each of which arrives in chunks. */
module Downloaders {
  import opened Bytes
  import opened Common

  type Path = string

  const MAX_FILES: nat := 32

  /** An announced file; `at` is the position in the open file, if it is open. */
  datatype Result = Result(path: Path, at: Option<nat>, done: bool)

  datatype Chunk = Chunk(requestID: nat, path: Path, partsCount: nat, part: nat, data: seq<byte>)

  datatype Session = Session(
    requestID: nat, results: seq<Result>, finish: bool, err: Error, disk: map<Path, seq<byte>>)

  datatype Event =
    | ContentInfo(requestID: nat, files: seq<Path>, failed: bool)
    | FileChunk(chunk: Chunk, opens: bool, writes: bool, closes: bool)  // which operations on the file succeed
    | TimeOut

  /** The session once Download has sent its request and waits. */
  function Begin(requestID: nat, disk: map<Path, seq<byte>>): Session {
    Session(requestID, [], false, NoError, disk)
  }

  function SetErrorAndNotify(s: Session, err: Error): Session {
    s.(finish := true, err := err)
  }

  function FindPath(results: seq<Result>, path: Path): (i: nat)
    ensures i <= |results|
    ensures i < |results| ==> results[i].path == path
    ensures forall j :: 0 <= j < i ==> results[j].path != path
  {
    if results == [] || results[0].path == path then 0 else 1 + FindPath(results[1..], path)
  }

  predicate AllDone(results: seq<Result>) {
    forall i :: 0 <= i < |results| ==> results[i].done
  }

  function OnContentInfo(s: Session, requestID: nat, files: seq<Path>, failed: bool): (Error, Session) {
    if requestID != s.requestID then (Failed, s)
    else if failed then (Runtime, SetErrorAndNotify(s, Runtime))
    else (NoError, s.(results := s.results + Announce(files, MAX_FILES - |s.results|)))
  }

  /** The entries pushed for announced files, as far as there is room. */
  function Announce(files: seq<Path>, room: int): (r: seq<Result>)
    ensures |r| <= |files|
    ensures forall i :: 0 <= i < |r| ==> r[i] == Result(files[i], None, false)
    ensures |files| <= room ==> |r| == |files|
  {
    if files == [] || room <= 0 then [] else [Result(files[0], None, false)] + Announce(files[1..], room - 1)
  }

  /** Opening a file for writing creates it but does not truncate it; the position is its start. */
  function Opened(disk: map<Path, seq<byte>>, path: Path): map<Path, seq<byte>> {
    if path in disk then disk else disk[path := []]
  }

  function WrittenAt(content: seq<byte>, at: nat, data: seq<byte>): seq<byte>
    requires at <= |content|
  {
    content[..at] + data + if at + |data| <= |content| then content[at + |data|..] else []
  }

  /** Open files are on disk and the position is within them. */
  ghost predicate Sound(s: Session) {
    forall i :: 0 <= i < |s.results| && s.results[i].at.Some? ==>
      s.results[i].path in s.disk && s.results[i].at.value <= |s.disk[s.results[i].path]|
  }

  /** The first result of a path is the only one that is ever opened. */
  ghost predicate FirstOnly(s: Session) {
    forall i :: 0 <= i < |s.results| && s.results[i].at.Some? ==> FindPath(s.results, s.results[i].path) == i
  }

  function OnFileChunk(s: Session, c: Chunk, opens: bool, writes: bool, closes: bool): (Error, Session)
    requires Sound(s)
  {
    var i := FindPath(s.results, c.path);
    if i == |s.results| then (NotFound, SetErrorAndNotify(s, NotFound))
    else if s.results[i].at.None? && !opens then (Failed, SetErrorAndNotify(s, Failed))
    else
      var s1 := if s.results[i].at.Some? then s else
        s.(disk := Opened(s.disk, c.path), results := s.results[i := s.results[i].(at := Some(0))]);
      if !writes then (Failed, SetErrorAndNotify(s1, Failed))
      else
        var at := s1.results[i].at.value;
        var s2 := s1.(
          disk := s1.disk[c.path := WrittenAt(s1.disk[c.path], at, c.data)],
          results := s1.results[i := s1.results[i].(at := Some(at + |c.data|))]);
        if c.part != c.partsCount then (NoError, s2)
        else if !closes then (Failed, SetErrorAndNotify(s2, Failed))
        else
          var s3 := s2.(results := s2.results[i := s2.results[i].(at := None, done := true)]);
          (NoError, if AllDone(s3.results) then s3.(finish := true) else s3)
  }

  ghost predicate Valid(s: Session) {
    Sound(s) && FirstOnly(s)
  }

  function Next(s: Session, e: Event): Session
    requires Sound(s)
  {
    match e
    case ContentInfo(id, files, failed) => OnContentInfo(s, id, files, failed).1
    case FileChunk(c, opens, writes, closes) => OnFileChunk(s, c, opens, writes, closes).1
    case TimeOut => SetErrorAndNotify(s, Timeout)
  }

  /** Which result has a path depends on the paths only, and is not changed by further results. */
  lemma SamePlace(a: seq<Result>, b: seq<Result>, path: Path)
    requires |a| <= |b| && forall i :: 0 <= i < |a| ==> a[i].path == b[i].path
    ensures FindPath(a, path) < |a| ==> FindPath(b, path) == FindPath(a, path)
    ensures |a| == |b| ==> FindPath(b, path) == FindPath(a, path)
  {
  }

  /** Only the i-th result and the file of its path differ. */
  ghost predicate Touches(s: Session, t: Session, i: nat) {
    && i < |s.results| == |t.results|
    && (forall j :: 0 <= j < |s.results| && j != i ==> t.results[j] == s.results[j])
    && t.results[i].path == s.results[i].path
    && (forall q :: q != s.results[i].path ==> (q in t.disk <==> q in s.disk) && Get(t.disk, q) == Get(s.disk, q))
  }

  /** The i-th result and its file after a chunk was written at a position. */
  ghost predicate WroteChunk(s: Session, t: Session, c: Chunk, closes: bool, i: nat, at: nat) {
    && Touches(s, t, i)
    && at <= |Get(s.disk, c.path)|
    && Get(t.disk, c.path) == WrittenAt(Get(s.disk, c.path), at, c.data) && c.path in t.disk
    && t.results[i].at == (if c.part == c.partsCount && closes then None else Some(at + |c.data|))
    && t.results[i].done == (s.results[i].done || (c.part == c.partsCount && closes))
  }

  lemma FurtherChunk(s: Session, c: Chunk, opens: bool, closes: bool, i: nat)
    requires Valid(s) && i == FindPath(s.results, c.path) < |s.results| && s.results[i].at.Some?
    ensures WroteChunk(s, OnFileChunk(s, c, opens, true, closes).1, c, closes, i, s.results[i].at.value)
  {
    assert Get(s.disk, c.path) == s.disk[c.path];
  }

  lemma FirstChunk(s: Session, c: Chunk, closes: bool, i: nat)
    requires Valid(s) && i == FindPath(s.results, c.path) < |s.results| && s.results[i].at.None?
    ensures WroteChunk(s, OnFileChunk(s, c, true, true, closes).1, c, closes, i, 0)
  {
    assert Opened(s.disk, c.path)[c.path] == Get(s.disk, c.path);
  }

  lemma ChunkWritten(s: Session, c: Chunk, opens: bool, closes: bool, i: nat)
    requires Valid(s) && i == FindPath(s.results, c.path) < |s.results| && (s.results[i].at.Some? || opens)
    ensures WroteChunk(s, OnFileChunk(s, c, opens, true, closes).1, c, closes, i,
                       if s.results[i].at.Some? then s.results[i].at.value else 0)
  {
    if s.results[i].at.Some? {
      FurtherChunk(s, c, opens, closes, i);
    } else {
      FirstChunk(s, c, closes, i);
    }
  }

  lemma ChunkNotWritten(s: Session, c: Chunk, opens: bool, writes: bool, closes: bool, i: nat)
    requires Valid(s) && i == FindPath(s.results, c.path) < |s.results|
    requires !writes || (s.results[i].at.None? && !opens)
    ensures
      var t := OnFileChunk(s, c, opens, writes, closes).1;
      && Touches(s, t, i)
      && Get(t.disk, c.path) == Get(s.disk, c.path)
      && (t.results[i].at == s.results[i].at ||
          (s.results[i].at.None? && t.results[i].at == Some(0) && c.path in t.disk))
      && t.results[i].done == s.results[i].done
  {
  }

  /** What one chunk does to its file and to nothing else. */
  lemma ChunkEffect(s: Session, c: Chunk, opens: bool, writes: bool, closes: bool)
    requires Valid(s)
    ensures
      var t, i := OnFileChunk(s, c, opens, writes, closes).1, FindPath(s.results, c.path);
      if i == |s.results| then t.results == s.results && t.disk == s.disk
      else
        && Touches(s, t, i)
        && var at := if s.results[i].at.Some? then s.results[i].at.value else 0;
        && at <= |Get(s.disk, c.path)|
        && if !writes || (s.results[i].at.None? && !opens)
           then Get(t.disk, c.path) == Get(s.disk, c.path)
                && (t.results[i].at == s.results[i].at || (t.results[i].at == Some(at) && c.path in t.disk))
                && t.results[i].done == s.results[i].done
           else Get(t.disk, c.path) == WrittenAt(Get(s.disk, c.path), at, c.data) && c.path in t.disk
                && t.results[i].at == (if c.part == c.partsCount && closes then None else Some(at + |c.data|))
                && t.results[i].done == (s.results[i].done || (c.part == c.partsCount && closes))
  {
    var i := FindPath(s.results, c.path);
    if i < |s.results| {
      if !writes || (s.results[i].at.None? && !opens) {
        ChunkNotWritten(s, c, opens, writes, closes, i);
      } else {
        ChunkWritten(s, c, opens, closes, i);
      }
    }
  }

  lemma TouchesValid(s: Session, t: Session, i: nat)
    requires Valid(s) && Touches(s, t, i) && FindPath(s.results, s.results[i].path) == i
    requires t.results[i].at.Some? ==>
      t.results[i].path in t.disk && t.results[i].at.value <= |t.disk[t.results[i].path]|
    ensures Valid(t)
  {
    forall j | 0 <= j < |t.results| && t.results[j].at.Some?
      ensures FindPath(t.results, t.results[j].path) == j
      ensures t.results[j].path in t.disk && t.results[j].at.value <= |t.disk[t.results[j].path]|
    {
      SamePlace(s.results, t.results, t.results[j].path);
      if j != i {
        assert FindPath(s.results, s.results[j].path) == j;
        assert Get(t.disk, s.results[j].path) == Get(s.disk, s.results[j].path);
      }
    }
  }

  lemma {:induction false} NextValid(s: Session, e: Event)
    requires Valid(s)
    ensures Valid(Next(s, e))
  {
    var t := Next(s, e);
    if e.FileChunk? {
      var i := FindPath(s.results, e.chunk.path);
      ChunkEffect(s, e.chunk, e.opens, e.writes, e.closes);
      if i < |s.results| {
        TouchesValid(s, t, i);
      }
    } else {
      forall i | 0 <= i < |t.results| && t.results[i].at.Some? ensures FindPath(t.results, t.results[i].path) == i {
        assert t.results[i] == s.results[i];
        SamePlace(s.results, t.results, t.results[i].path);
      }
    }
  }

  ghost function Run(s: Session, events: seq<Event>): (t: Session)
    requires Valid(s)
    ensures Valid(t)
  {
    if events == [] then s
    else
      var before := Run(s, events[..|events| - 1]);
      NextValid(before, events[|events| - 1]);
      Next(before, events[|events| - 1])
  }

  /** The chunk of an event for the path, when it is written. */
  predicate Written(s: Session, e: Event, p: Path) {
    && e.FileChunk? && e.chunk.path == p && e.writes
    && var i := FindPath(s.results, p);
       i < |s.results| && (s.results[i].at.Some? || e.opens)
  }

  /** The bytes of all chunks written for a path, in order of arrival; None if there were none. */
  ghost function Received(s: Session, events: seq<Event>, p: Path): Option<seq<byte>>
    requires Valid(s)
  {
    if events == [] then None
    else
      var init, last := events[..|events| - 1], events[|events| - 1];
      var before := Received(s, init, p);
      if !Written(Run(s, init), last, p) then before
      else Some((if before.Some? then before.value else []) + last.chunk.data)
  }

  /** Whether the final part of a file was written. */
  ghost predicate Ended(s: Session, events: seq<Event>, p: Path)
    requires Valid(s)
  {
    events != [] &&
    var init, last := events[..|events| - 1], events[|events| - 1];
    Ended(s, init, p) || (Written(Run(s, init), last, p) && last.chunk.part == last.chunk.partsCount)
  }

  /** No chunk of the path was written after its final one. */
  ghost predicate Clean(s: Session, events: seq<Event>, p: Path)
    requires Valid(s)
  {
    events == [] ||
    var init, last := events[..|events| - 1], events[|events| - 1];
    Clean(s, init, p) && (Written(Run(s, init), last, p) ==> !Ended(s, init, p))
  }

  function Get(disk: map<Path, seq<byte>>, p: Path): seq<byte> {
    if p in disk then disk[p] else []
  }

  /** New content over old: what the old file had beyond the new length stays. */
  function Spliced(former: seq<byte>, added: seq<byte>): seq<byte> {
    added + if |added| <= |former| then former[|added|..] else []
  }

  lemma SpliceMore(former: seq<byte>, added: seq<byte>, data: seq<byte>)
    ensures |added| <= |Spliced(former, added)|
    ensures WrittenAt(Spliced(former, added), |added|, data) == Spliced(former, added + data)
  {
  }

  /** The open position of a path that has a result. */
  function Position(s: Session, p: Path): Option<nat> {
    var i := FindPath(s.results, p);
    if i < |s.results| then s.results[i].at else None
  }

  lemma TouchesOther(s: Session, t: Session, i: nat, p: Path)
    requires Touches(s, t, i) && s.results[i].path != p
    ensures Get(t.disk, p) == Get(s.disk, p) && Position(t, p) == Position(s, p)
    ensures FindPath(t.results, p) == FindPath(s.results, p)
  {
    SamePlace(s.results, t.results, p);
  }

  lemma NextOther(s: Session, e: Event, p: Path)
    requires Valid(s) && !(e.FileChunk? && e.chunk.path == p)
    ensures Get(Next(s, e).disk, p) == Get(s.disk, p)
    ensures Position(Next(s, e), p) == Position(s, p)
    ensures FindPath(s.results, p) < |s.results| ==> FindPath(Next(s, e).results, p) < |Next(s, e).results|
  {
    if !e.FileChunk? {
      SamePlace(s.results, Next(s, e).results, p);
    } else {
      var i := FindPath(s.results, e.chunk.path);
      ChunkEffect(s, e.chunk, e.opens, e.writes, e.closes);
      if i < |s.results| {
        TouchesOther(s, Next(s, e), i, p);
      }
    }
  }

  lemma NextOwn(s: Session, e: Event, p: Path)
    requires Valid(s) && e.FileChunk? && e.chunk.path == p
    ensures
      var t, at := Next(s, e), if Position(s, p).Some? then Position(s, p).value else 0;
      && at <= |Get(s.disk, p)|
      && (FindPath(t.results, p) < |t.results| <==> FindPath(s.results, p) < |s.results|)
      && if Written(s, e, p)
         then Get(t.disk, p) == WrittenAt(Get(s.disk, p), at, e.chunk.data)
              && Position(t, p) ==
                 (if e.chunk.part == e.chunk.partsCount && e.closes then None else Some(at + |e.chunk.data|))
         else Get(t.disk, p) == Get(s.disk, p) && (Position(t, p) == Position(s, p) || Position(t, p) == Some(at))
  {
    var i := FindPath(s.results, p);
    if i < |s.results| {
      if Written(s, e, p) {
        ChunkWritten(s, e.chunk, e.opens, e.closes, i);
      } else {
        ChunkNotWritten(s, e.chunk, e.opens, e.writes, e.closes, i);
      }
      SamePlace(s.results, Next(s, e).results, p);
    }
  }

  ghost function Got(s: Session, events: seq<Event>, p: Path): seq<byte>
    requires Valid(s)
  {
    var got := Received(s, events, p);
    if got.Some? then got.value else []
  }

  /** A file while its chunks arrive: its content, and where its next chunk goes until it has ended. */
  ghost predicate Growing(s: Session, events: seq<Event>, p: Path)
    requires Valid(s)
  {
    var t, got := Run(s, events), Got(s, events, p);
    && Get(t.disk, p) == Spliced(Get(s.disk, p), got)
    && (!Ended(s, events, p) ==>
          if Position(t, p).Some? then Position(t, p).value == |got| else got == [])
  }

  lemma {:induction false} RunGrowing(s: Session, events: seq<Event>, p: Path)
    requires Valid(s) && Clean(s, events, p) && Position(s, p).None?
    ensures Growing(s, events, p)
  {
    if events != [] {
      var init, last := events[..|events| - 1], events[|events| - 1];
      RunGrowing(s, init, p);
      var t := Run(s, init);
      if last.FileChunk? && last.chunk.path == p {
        NextOwn(t, last, p);
        SpliceMore(Get(s.disk, p), Got(s, init, p), last.chunk.data);
      } else {
        NextOther(t, last, p);
      }
    } else {
      assert Spliced(Get(s.disk, p), []) == Get(s.disk, p);
    }
  }

  /**
   Content: when no chunk of a path is written after its final one, its file is the chunks in order
   of arrival, followed by what a longer old file had beyond them. It is exactly the chunks if and
   only if the old file was not longer, as for a path that did not exist.
   */
  lemma {:induction false} FileContent(requestID: nat, disk: map<Path, seq<byte>>, events: seq<Event>, p: Path)
    requires Clean(Begin(requestID, disk), events, p)
    ensures
      var s := Begin(requestID, disk);
      var content, chunks := Get(Run(s, events).disk, p), Got(s, events, p);
      && content == Spliced(Get(disk, p), chunks)
      && (content == chunks <==> |Get(disk, p)| <= |chunks|)
  {
    RunGrowing(Begin(requestID, disk), events, p);
  }

  /** The files announced by the content infos of the request. */
  function Announced(requestID: nat, events: seq<Event>): seq<seq<Path>> {
    if events == [] then []
    else
      var init, last := events[..|events| - 1], events[|events| - 1];
      Announced(requestID, init) +
      if last.ContentInfo? && last.requestID == requestID && !last.failed then [last.files] else []
  }

  /** Where a download stands after at most one content info. */
  ghost predicate Progress(s: Session, events: seq<Event>)
    requires Valid(s)
  {
    var t, infos := Run(s, events), Announced(s.requestID, events);
    && t.requestID == s.requestID
    && |t.results| == (if infos == [] then 0 else |infos[0]|)
    && (forall i :: 0 <= i < |t.results| ==>
          t.results[i].path == infos[0][i] && (t.results[i].done ==> Ended(s, events, t.results[i].path)))
    && (t.finish && t.err.IsNone() ==> infos != [] && AllDone(t.results))
  }

  /** One more event: the state, the announcements, and which files have ended. */
  lemma OneMore(s: Session, events: seq<Event>, e: Event)
    requires Valid(s)
    ensures Run(s, events + [e]) == Next(Run(s, events), e)
    ensures Announced(s.requestID, events + [e]) ==
            Announced(s.requestID, events) +
            if e.ContentInfo? && e.requestID == s.requestID && !e.failed then [e.files] else []
    ensures forall p :: Ended(s, events, p) ==> Ended(s, events + [e], p)
    ensures forall p :: Written(Run(s, events), e, p) && e.chunk.part == e.chunk.partsCount ==>
      Ended(s, events + [e], p)
  {
    assert (events + [e])[..|events|] == events;
  }

  predicate Accepted(s: Session, e: Event) {
    e.ContentInfo? && e.requestID == s.requestID && !e.failed
  }

  /** A content info of the request adds results; whatever else is not a chunk leaves them alone. */
  lemma InfoEffect(s: Session, e: Event)
    requires Valid(s) && !e.FileChunk?
    ensures
      var t := Next(s, e);
      && t.requestID == s.requestID
      && t.results == s.results + (if Accepted(s, e) then Announce(e.files, MAX_FILES - |s.results|) else [])
      && (t.err.IsNone() ==> t.finish == s.finish && s.err.IsNone())
  {
    assert s.results + [] == s.results;
  }

  lemma OtherProgress(s: Session, events: seq<Event>, e: Event)
    requires Valid(s) && Progress(s, events) && !e.FileChunk? && !Accepted(Run(s, events), e)
    ensures Progress(s, events + [e])
  {
    OneMore(s, events, e);
    InfoEffect(Run(s, events), e);
    var t := Run(s, events);
    assert t.results + [] == t.results && Announced(s.requestID, events) + [] == Announced(s.requestID, events);
  }

  lemma FirstInfoProgress(s: Session, events: seq<Event>, e: Event)
    requires Valid(s) && Progress(s, events) && Accepted(Run(s, events), e) && |e.files| <= MAX_FILES
    requires Announced(s.requestID, events) == []
    ensures Progress(s, events + [e])
  {
    OneMore(s, events, e);
    InfoEffect(Run(s, events), e);
    assert [] + Announce(e.files, MAX_FILES) == Announce(e.files, MAX_FILES);
    assert [] + [e.files] == [e.files];
  }

  lemma {:induction false} InfoProgress(s: Session, events: seq<Event>, e: Event)
    requires Valid(s) && Progress(s, events) && e.ContentInfo? && |e.files| <= MAX_FILES
    requires |Announced(s.requestID, events + [e])| <= 1
    ensures Progress(s, events + [e])
  {
    OneMore(s, events, e);
    if Accepted(Run(s, events), e) {
      FirstInfoProgress(s, events, e);
    } else {
      OtherProgress(s, events, e);
    }
  }

  lemma TimeOutProgress(s: Session, events: seq<Event>)
    requires Valid(s) && Progress(s, events)
    ensures Progress(s, events + [TimeOut])
  {
    OtherProgress(s, events, TimeOut);
  }

  /** A result that a chunk completes has received its final part. */
  lemma ChunkEnded(s: Session, events: seq<Event>, e: Event, j: nat)
    requires Valid(s) && Progress(s, events) && e.FileChunk? && j < |Run(s, events).results|
    ensures
      var t, t' := Run(s, events), Next(Run(s, events), e);
      && |t'.results| == |t.results| && t'.results[j].path == t.results[j].path
      && (t'.results[j].done ==> Ended(s, events + [e], t.results[j].path))
  {
    OneMore(s, events, e);
    var t := Run(s, events);
    var i := FindPath(t.results, e.chunk.path);
    ChunkEffect(t, e.chunk, e.opens, e.writes, e.closes);
  }

  lemma {:induction false} ChunkProgress(s: Session, events: seq<Event>, e: Event)
    requires Valid(s) && Progress(s, events) && e.FileChunk?
    ensures Progress(s, events + [e])
  {
    OneMore(s, events, e);
    var t, t' := Run(s, events), Next(Run(s, events), e);
    ChunkFinish(t, e.chunk, e.opens, e.writes, e.closes);
    assert |t'.results| == |t.results|;
    forall j | 0 <= j < |t.results|
      ensures t'.results[j].path == t.results[j].path
      ensures t'.results[j].done ==> Ended(s, events + [e], t.results[j].path)
    {
      ChunkEnded(s, events, e, j);
    }
  }

  /** A chunk ends the download without an error only when it completes the last file. */
  lemma ChunkFinish(s: Session, c: Chunk, opens: bool, writes: bool, closes: bool)
    requires Sound(s)
    ensures
      var t := OnFileChunk(s, c, opens, writes, closes).1;
      && t.requestID == s.requestID
      && (t.finish && t.err.IsNone() ==> AllDone(t.results) || (s.finish && s.err.IsNone()))
      && (AllDone(s.results) ==> AllDone(t.results))
  {
  }

  lemma {:induction false} RunProgress(s: Session, events: seq<Event>)
    requires Valid(s) && s.results == [] && !s.finish && |Announced(s.requestID, events)| <= 1
    requires forall i :: 0 <= i < |events| && events[i].ContentInfo? ==> |events[i].files| <= MAX_FILES
    ensures Progress(s, events)
  {
    if events != [] {
      var init, last := events[..|events| - 1], events[|events| - 1];
      assert events == init + [last];
      RunProgress(s, init);
      if last.FileChunk? {
        ChunkProgress(s, init, last);
      } else if last.ContentInfo? {
        InfoProgress(s, init, last);
      } else {
        TimeOutProgress(s, init);
      }
    }
  }

  /**
   Completeness: with one content info for the request, a download that ends without an error has
   been told its files, and every one of them has received its final part.
   */
  lemma DownloadComplete(requestID: nat, disk: map<Path, seq<byte>>, events: seq<Event>)
    requires |Announced(requestID, events)| <= 1
    requires forall i :: 0 <= i < |events| && events[i].ContentInfo? ==> |events[i].files| <= MAX_FILES
    ensures
      var s := Begin(requestID, disk);
      var t, infos := Run(s, events), Announced(requestID, events);
      t.finish && t.err.IsNone() ==> |infos| == 1 && forall f :: f in infos[0] ==> Ended(s, events, f)
  {
    var s := Begin(requestID, disk);
    RunProgress(s, events);
    var t, infos := Run(s, events), Announced(requestID, events);
    if t.finish && t.err.IsNone() {
      forall f | f in infos[0] ensures Ended(s, events, f) {
        var i :| 0 <= i < |infos[0]| && infos[0][i] == f;
        assert t.results[i].done;
      }
    }
  }

  predicate IsFinal(e: Event) {
    e.FileChunk? && e.chunk.part == e.chunk.partsCount
  }

  /** Every final part that was written, and so counted, was sent for this request. */
  ghost predicate OwnPartsCounted(s: Session, events: seq<Event>)
    requires Valid(s)
  {
    events == [] ||
    var init, last := events[..|events| - 1], events[|events| - 1];
    && OwnPartsCounted(s, init)
    && (IsFinal(last) && Written(Run(s, init), last, last.chunk.path) ==> last.chunk.requestID == s.requestID)
  }

  /** Without an error every chunk was written, every finished file closed, and nothing failed or timed out. */
  lemma NoErrorWritten(s: Session, e: Event)
    requires Valid(s) && Next(s, e).err.IsNone()
    ensures s.err.IsNone() && !e.TimeOut?
    ensures e.FileChunk? ==> Written(s, e, e.chunk.path) && (IsFinal(e) ==> e.closes)
    ensures e.ContentInfo? && e.requestID == s.requestID ==> !e.failed
  {
  }

  /** What a chunk is answered, and what becomes of the download's error. */
  lemma ChunkOutcome(s: Session, c: Chunk, opens: bool, writes: bool, closes: bool)
    requires Valid(s)
    ensures
      var (err, t) := OnFileChunk(s, c, opens, writes, closes);
      var i := FindPath(s.results, c.path);
      var ok := writes && (c.part == c.partsCount ==> closes);
      && err == (if i == |s.results| then NotFound
                 else if (s.results[i].at.None? && !opens) || !ok then Failed else NoError)
      && (if err.IsNone() then t.err == s.err else t.err == err && t.finish)
  {
  }

  /** What a content info is answered: of another request it is refused, and a failed one ends the download. */
  lemma InfoOutcome(s: Session, requestID: nat, files: seq<Path>, failed: bool)
    ensures
      var (err, t) := OnContentInfo(s, requestID, files, failed);
      if requestID != s.requestID then err == Failed && t == s
      else if failed then err == Runtime && t == s.(finish := true, err := Runtime)
      else
        && err.IsNone() && (|t.results| <= MAX_FILES || t.results == s.results)
        && t == s.(results := t.results) && s.results <= t.results
  {
    AnnounceFits(files, MAX_FILES - |s.results|);
    assert s.results + [] == s.results;
  }

  lemma {:induction false} AnnounceFits(files: seq<Path>, room: int)
    ensures |Announce(files, room)| <= if room > 0 then room else 0
    decreases |files|
  {
    if files != [] && room > 0 {
      AnnounceFits(files[1..], room - 1);
    }
  }

  /** Whatever goes wrong ends the download. */
  lemma {:induction false} ErrorsFinish(requestID: nat, disk: map<Path, seq<byte>>, events: seq<Event>)
    ensures !Run(Begin(requestID, disk), events).err.IsNone() ==> Run(Begin(requestID, disk), events).finish
  {
    if events != [] {
      ErrorsFinish(requestID, disk, events[..|events| - 1]);
      ErrorStep(Run(Begin(requestID, disk), events[..|events| - 1]), events[|events| - 1]);
    }
  }

  lemma ErrorStep(s: Session, e: Event)
    requires Valid(s) && (!s.err.IsNone() ==> s.finish)
    ensures !Next(s, e).err.IsNone() ==> Next(s, e).finish
  {
    match e
    case FileChunk(c, opens, writes, closes) => ChunkStaysFinished(s, c, opens, writes, closes);
    case ContentInfo(id, files, failed) => InfoOutcome(s, id, files, failed);
    case TimeOut =>
  }

  lemma ChunkStaysFinished(s: Session, c: Chunk, opens: bool, writes: bool, closes: bool)
    requires Valid(s) && (!s.err.IsNone() ==> s.finish)
    ensures var t := OnFileChunk(s, c, opens, writes, closes).1; !t.err.IsNone() ==> t.finish
  {
    ChunkOutcome(s, c, opens, writes, closes);
  }

  lemma EndedNext(s: Session, events: seq<Event>, e: Event, p: Path)
    requires Valid(s)
    ensures Ended(s, events + [e], p) <==> Ended(s, events, p) || (Written(Run(s, events), e, p) && IsFinal(e))
  {
    assert (events + [e])[..|events|] == events;
  }

  /** Only files that have a result have ended. */
  lemma {:induction false} EndedHasResult(s: Session, events: seq<Event>, p: Path)
    requires Valid(s)
    ensures Ended(s, events, p) ==> FindPath(Run(s, events).results, p) < |Run(s, events).results|
  {
    if events != [] {
      var init, last := events[..|events| - 1], events[|events| - 1];
      EndedHasResult(s, init, p);
      if last.FileChunk? && last.chunk.path == p {
        NextOwn(Run(s, init), last, p);
      } else {
        NextOther(Run(s, init), last, p);
      }
    }
  }

  predicate DistinctPaths(files: seq<Path>) {
    forall i, j :: 0 <= i < j < |files| ==> files[i] != files[j]
  }

  /** As long as nothing goes wrong, a result is done once its file has ended, and so is the whole. */
  ghost predicate Complete(s: Session, events: seq<Event>)
    requires Valid(s)
  {
    var t := Run(s, events);
    && (t.finish <==> t.results != [] && AllDone(t.results))
    && (forall i :: 0 <= i < |t.results| ==> (t.results[i].done <==> Ended(s, events, t.results[i].path)))
  }

  predicate DistinctResults(results: seq<Result>) {
    forall i, j :: 0 <= i < j < |results| ==> results[i].path != results[j].path
  }

  lemma FindDistinct(results: seq<Result>, i: nat)
    requires DistinctResults(results) && i < |results|
    ensures FindPath(results, results[i].path) == i
  {
  }

  /** The last part of the last file finishes the download, and no other part does. */
  lemma FinalPartFinishes(s: Session, e: Event, i: nat)
    requires Valid(s) && e.FileChunk? && i == FindPath(s.results, e.chunk.path) && Written(s, e, e.chunk.path)
    requires IsFinal(e) ==> e.closes
    ensures
      var t := Next(s, e);
      && t.err == s.err && |t.results| == |s.results|
      && t.finish ==
         (s.finish || (IsFinal(e) && forall j :: 0 <= j < |s.results| && j != i ==> s.results[j].done))
  {
    var t := Next(s, e);
    ChunkWritten(s, e.chunk, e.opens, e.closes, i);
  }

  /** A result is done after a chunk if and only if its file has ended by then. */
  lemma ChunkDone(s: Session, events: seq<Event>, e: Event, j: nat)
    requires Valid(s) && Complete(s, events) && e.FileChunk? && DistinctResults(Run(s, events).results)
    requires Next(Run(s, events), e).err.IsNone() && j < |Run(s, events).results|
    ensures
      var t, t' := Run(s, events), Next(Run(s, events), e);
      && |t'.results| == |t.results| && t'.results[j].path == t.results[j].path
      && (t'.results[j].done <==> Ended(s, events + [e], t.results[j].path))
  {
    var t := Run(s, events);
    NoErrorWritten(t, e);
    ChunkWritten(t, e.chunk, e.opens, e.closes, FindPath(t.results, e.chunk.path));
    EndedNext(s, events, e, t.results[j].path);
    FindDistinct(t.results, j);
  }

  lemma DoneAfter(before: seq<Result>, after: seq<Result>, i: nat, final: bool)
    requires i < |before| == |after|
    requires forall j :: 0 <= j < |before| && j != i ==> after[j] == before[j]
    requires after[i].done == (before[i].done || final)
    ensures AllDone(after) <==>
      AllDone(before) || (final && forall j :: 0 <= j < |before| && j != i ==> before[j].done)
  {
    assert forall j :: 0 <= j < |before| && j != i ==> after[j].done == before[j].done;
  }

  lemma ChunkFinishes(s: Session, events: seq<Event>, e: Event)
    requires Valid(s) && Complete(s, events) && e.FileChunk?
    requires Next(Run(s, events), e).err.IsNone()
    ensures var t' := Next(Run(s, events), e); t'.finish <==> t'.results != [] && AllDone(t'.results)
  {
    var t, i := Run(s, events), FindPath(Run(s, events).results, e.chunk.path);
    NoErrorWritten(t, e);
    ChunkWritten(t, e.chunk, e.opens, e.closes, i);
    FinalPartFinishes(t, e, i);
    DoneAfter(t.results, Next(t, e).results, i, IsFinal(e));
  }

  lemma ChunkComplete(s: Session, events: seq<Event>, e: Event)
    requires Valid(s) && Complete(s, events) && e.FileChunk? && DistinctResults(Run(s, events).results)
    requires Next(Run(s, events), e).err.IsNone()
    ensures Complete(s, events + [e])
  {
    var t, t' := Run(s, events), Next(Run(s, events), e);
    OneMore(s, events, e);
    ChunkFinishes(s, events, e);
    assert |t'.results| == |t.results|;
    forall j | 0 <= j < |t.results|
      ensures t'.results[j].done <==> Ended(s, events + [e], t'.results[j].path)
    {
      ChunkDone(s, events, e, j);
    }
  }

  lemma OtherComplete(s: Session, events: seq<Event>, e: Event)
    requires Valid(s) && Complete(s, events) && !e.FileChunk? && !Accepted(Run(s, events), e)
    requires Next(Run(s, events), e).err.IsNone()
    ensures Complete(s, events + [e])
  {
    var t := Run(s, events);
    OneMore(s, events, e);
    InfoEffect(t, e);
    assert t.results + [] == t.results;
    forall j | 0 <= j < |t.results|
      ensures Ended(s, events, t.results[j].path) == Ended(s, events + [e], t.results[j].path)
    {
      EndedNext(s, events, e, t.results[j].path);
    }
  }

  lemma FirstInfoComplete(s: Session, events: seq<Event>, e: Event)
    requires Valid(s) && Complete(s, events) && Accepted(Run(s, events), e) && Run(s, events).results == []
    requires Next(Run(s, events), e).err.IsNone()
    ensures Complete(s, events + [e])
  {
    var t := Run(s, events);
    OneMore(s, events, e);
    InfoEffect(t, e);
    var added := Announce(e.files, MAX_FILES);
    assert [] + added == added;
    forall j | 0 <= j < |added| ensures !added[j].done && !Ended(s, events + [e], added[j].path) {
      EndedNext(s, events, e, added[j].path);
      EndedHasResult(s, events, added[j].path);
    }
  }

  lemma ResultsDistinct(s: Session, events: seq<Event>)
    requires Valid(s) && Progress(s, events)
    requires forall files <- Announced(s.requestID, events) :: DistinctPaths(files)
    ensures DistinctResults(Run(s, events).results)
  {
    var infos := Announced(s.requestID, events);
    if infos != [] {
      assert infos[0] in infos;
    }
  }

  lemma CompleteNext(s: Session, events: seq<Event>, e: Event)
    requires Valid(s) && Progress(s, events) && Complete(s, events)
    requires |Announced(s.requestID, events + [e])| <= 1 && Next(Run(s, events), e).err.IsNone()
    requires forall files <- Announced(s.requestID, events) :: DistinctPaths(files)
    ensures Complete(s, events + [e])
  {
    OneMore(s, events, e);
    if e.FileChunk? {
      ResultsDistinct(s, events);
      ChunkComplete(s, events, e);
    } else if Accepted(Run(s, events), e) {
      FirstInfoComplete(s, events, e);
    } else {
      OtherComplete(s, events, e);
    }
  }

  lemma {:induction false} RunComplete(s: Session, events: seq<Event>)
    requires Valid(s) && s.results == [] && !s.finish && |Announced(s.requestID, events)| <= 1
    requires forall i :: 0 <= i < |events| && events[i].ContentInfo? ==> |events[i].files| <= MAX_FILES
    requires forall files <- Announced(s.requestID, events) :: DistinctPaths(files)
    requires Run(s, events).err.IsNone()
    ensures Complete(s, events)
  {
    if events != [] {
      var init, last := events[..|events| - 1], events[|events| - 1];
      assert events == init + [last];
      OneMore(s, init, last);
      NoErrorWritten(Run(s, init), last);
      assert forall files <- Announced(s.requestID, init) :: files in Announced(s.requestID, events);
      RunComplete(s, init);
      RunProgress(s, init);
      CompleteNext(s, init, last);
    }
  }

  /**
   A download in which nothing goes wrong is finished if and only if it was told at least one file and
   every file it was told has received its final part; an empty list of files never finishes it.
   */
  lemma DownloadFinishesIff(requestID: nat, disk: map<Path, seq<byte>>, events: seq<Event>)
    requires |Announced(requestID, events)| <= 1
    requires forall i :: 0 <= i < |events| && events[i].ContentInfo? ==> |events[i].files| <= MAX_FILES
    requires forall files <- Announced(requestID, events) :: DistinctPaths(files)
    requires Run(Begin(requestID, disk), events).err.IsNone()
    ensures
      var s, infos := Begin(requestID, disk), Announced(requestID, events);
      Run(s, events).finish <==> |infos| == 1 && infos[0] != [] && forall f :: f in infos[0] ==> Ended(s, events, f)
  {
    var s, infos := Begin(requestID, disk), Announced(requestID, events);
    RunComplete(s, events);
    RunProgress(s, events);
    DownloadComplete(requestID, disk, events);
    var t := Run(s, events);
    forall i | 0 <= i < |t.results| ensures t.results[i].path == infos[0][i] && infos[0][i] in infos[0] {
    }
  }

  lemma {:induction false} OwnPartsAll(s: Session, events: seq<Event>)
    requires Valid(s) && Run(s, events).err.IsNone()
    ensures OwnPartsCounted(s, events) <==> forall e <- events :: IsFinal(e) ==> e.chunk.requestID == s.requestID
  {
    if events != [] {
      var init, last := events[..|events| - 1], events[|events| - 1];
      NoErrorWritten(Run(s, init), last);
      OwnPartsAll(s, init);
      assert events == init + [last];
    }
  }

  /**
   The ID of the request that a chunk carries is never looked at. So the final parts that complete a
   download were sent for it if and only if every final part that arrived meanwhile was.
   */
  lemma OwnPartsIff(requestID: nat, disk: map<Path, seq<byte>>, events: seq<Event>)
    requires Run(Begin(requestID, disk), events).finish && Run(Begin(requestID, disk), events).err.IsNone()
    ensures OwnPartsCounted(Begin(requestID, disk), events) <==>
      forall e <- events :: IsFinal(e) ==> e.chunk.requestID == requestID
  {
    OwnPartsAll(Begin(requestID, disk), events);
  }

  lemma RunTwo(s: Session, a: Event, b: Event)
    requires Valid(s)
    ensures Valid(Next(s, a)) && Run(s, [a]) == Next(s, a) && Run(s, [a, b]) == Next(Next(s, a), b)
  {
    NextValid(s, a);
    assert [a][..0] == [] && [a, b][..1] == [a];
    assert Run(s, [a]) == Next(Run(s, []), a);
  }

  lemma OneFile(s: Session, path: Path, part: Event)
    requires Valid(s) && s.results == [] && s.err.IsNone()
    requires part.FileChunk? && part.chunk.path == path && IsFinal(part) && part.opens && part.writes && part.closes
    ensures
      var t := Next(s, ContentInfo(s.requestID, [path], false));
      Valid(t) && Next(t, part).finish && Next(t, part).err.IsNone()
  {
    var info := ContentInfo(s.requestID, [path], false);
    NextValid(s, info);
    assert [path][1..] == [] && Announce([path], MAX_FILES) == [Result(path, None, false)];
    assert Next(s, info).results == [Result(path, None, false)];
  }

  lemma StalePart(s: Session, path: Path, part: Event)
    requires Valid(s) && s.results == [] && s.err.IsNone()
    requires part.FileChunk? && part.chunk.path == path && IsFinal(part) && part.opens && part.writes && part.closes
    requires part.chunk.requestID != s.requestID
    ensures
      var events := [ContentInfo(s.requestID, [path], false), part];
      && Run(s, events).finish && Run(s, events).err.IsNone()
      && !OwnPartsCounted(s, events)
  {
    var info := ContentInfo(s.requestID, [path], false);
    RunTwo(s, info, part);
    OneFile(s, path, part);
    OwnPartsAll(s, [info, part]);
    assert part in [info, part];
  }

  lemma AnnouncedOnce(requestID: nat, path: Path, part: Event)
    requires part.FileChunk?
    ensures Announced(requestID, [ContentInfo(requestID, [path], false), part]) == [[path]]
  {
    var info := ContentInfo(requestID, [path], false);
    assert [info, part][..1] == [info] && [info][..0] == [];
    assert Announced(requestID, [info]) == Announced(requestID, []) + [[path]];
  }

  /** A late final part of an earlier request can complete a download. */
  lemma StalePartCompletes(requestID: nat, earlier: nat, disk: map<Path, seq<byte>>, path: Path, data: seq<byte>)
    requires earlier != requestID
    ensures
      var s := Begin(requestID, disk);
      var part := FileChunk(Chunk(earlier, path, 1, 1, data), true, true, true);
      var events := [ContentInfo(requestID, [path], false), part];
      && Run(s, events).finish && Run(s, events).err.IsNone()
      && |Announced(requestID, events)| == 1
      && !OwnPartsCounted(s, events)
  {
    var part := FileChunk(Chunk(earlier, path, 1, 1, data), true, true, true);
    StalePart(Begin(requestID, disk), path, part);
    AnnouncedOnce(requestID, path, part);
  }

  class Downloader {
    var results: seq<Result>
    var finish: bool
    var errProcessImageRequest: Error
    var requestID: nat
    var disk: map<Path, seq<byte>>

    ghost function View(): Session
      reads this
    {
      Session(requestID, results, finish, errProcessImageRequest, disk)
    }

    constructor (disk: map<Path, seq<byte>>)
      ensures View() == Session(0, [], false, NoError, disk)
    {
      this.disk, requestID, results, finish, errProcessImageRequest := disk, 0, [], false, NoError;
    }

    /** Download up to its wait. */
    method Request(timer: Error, sent: Error) returns (err: Error)
      modifies this
      ensures err == if timer.IsNone() then sent else timer
      ensures err.IsNone() ==> View() == Begin(old(requestID) + 1, old(disk))
      ensures disk == old(disk) && results == [] && !finish
      ensures timer.IsNone() ==> errProcessImageRequest == sent
      ensures requestID == if timer.IsNone() then old(requestID) + 1 else old(requestID)
    {
      finish, results := false, [];
      if !timer.IsNone() {
        return timer;
      }
      requestID := requestID + 1;
      errProcessImageRequest := sent;
      return errProcessImageRequest;
    }

    /**
     Download after its wait. It succeeds only if the session ended without an error, and even then
     not if the timer cannot be stopped or a file left open cannot be closed.
     */
    method Finish(stopped: Error, closes: seq<bool>) returns (err: Error)
      requires finish && |closes| == |results|
      modifies this`errProcessImageRequest
      ensures err.IsNone() <==>
        && stopped.IsNone() && old(errProcessImageRequest).IsNone()
        && forall i :: 0 <= i < |results| && results[i].at.Some? ==> closes[i]
    {
      if !stopped.IsNone() {
        return stopped;
      }
      for i := 0 to |results|
        invariant errProcessImageRequest.IsNone() <==>
          old(errProcessImageRequest).IsNone() && forall j :: 0 <= j < i && results[j].at.Some? ==> closes[j]
      {
        if results[i].at.Some? && !closes[i] && errProcessImageRequest.IsNone() {
          errProcessImageRequest := Failed;
        }
      }
      return errProcessImageRequest;
    }

    method SetError(err: Error)
      modifies this`finish, this`errProcessImageRequest
      ensures View() == SetErrorAndNotify(old(View()), err)
    {
      finish, errProcessImageRequest := true, err;
    }

    method IsAllDownloadDone() returns (done: bool)
      ensures done == AllDone(results)
    {
      for i := 0 to |results|
        invariant AllDone(results[..i])
      {
        if !results[i].done {
          return false;
        }
        assert results[..i + 1] == results[..i] + [results[i]];
      }
      assert results[..|results|] == results;
      return true;
    }

    method ReceiveImageContentInfo(id: nat, files: seq<Path>, failed: bool) returns (err: Error)
      modifies this
      ensures (err, View()) == OnContentInfo(old(View()), id, files, failed)
    {
      if id != requestID {
        return Failed;
      }
      if failed {
        SetError(Runtime);
        return Runtime;
      }
      PushFiles(files);
      return NoError;
    }

    /** Each file gets an entry; PushBack drops those beyond the capacity of the array. */
    method PushFiles(files: seq<Path>)
      modifies `results
      ensures results == old(results) + Announce(files, MAX_FILES - |old(results)|)
    {
      for i := 0 to |files|
        invariant results + Announce(files[i..], MAX_FILES - |results|)
                  == old(results) + Announce(files, MAX_FILES - |old(results)|)
      {
        assert files[i..][1..] == files[i + 1..];
        if |results| < MAX_FILES {
          Assoc(results, [Result(files[i], None, false)], Announce(files[i + 1..], MAX_FILES - |results| - 1));
          results := results + [Result(files[i], None, false)];
        }
      }
      assert files[|files|..] == [];
      assert results + [] == results;
    }

    method ReceiveFileChunk(c: Chunk, opens: bool, writes: bool, closes: bool) returns (err: Error)
      requires Sound(View())
      modifies this
      ensures (err, View()) == OnFileChunk(old(View()), c, opens, writes, closes)
    {
      var i := FindPath(results, c.path);
      if i == |results| {
        SetError(NotFound);
        return NotFound;
      }
      if results[i].at.None? {
        if !opens {
          SetError(Failed);
          return Failed;
        }
        disk := Opened(disk, c.path);
        results := results[i := results[i].(at := Some(0))];
      }
      if !writes {
        SetError(Failed);
        return Failed;
      }
      var at := results[i].at.value;
      disk := disk[c.path := WrittenAt(disk[c.path], at, c.data)];
      results := results[i := results[i].(at := Some(at + |c.data|))];
      if c.part == c.partsCount {
        if !closes {
          SetError(Failed);
          return Failed;
        }
        results := results[i := results[i].(at := None, done := true)];
        var done := IsAllDownloadDone();
        if done {
          finish := true;
        }
      }
      return NoError;
    }
  }
}
