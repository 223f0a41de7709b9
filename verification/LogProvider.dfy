/** Log requests: filtering entries and sending them to the observer in numbered parts. */
module LogProviders {
  import opened Bytes
  import opened Common
  import opened LogModel
  import opened LogNames
  import opened LogLines
  import opened FSLogReaders
  import opened LogPacking

  datatype Status = Ok | Empty | Failure

  datatype PushLog = PushLog(logID: nat, part: nat, partsCount: nat, status: Status, content: seq<byte>, error: Error)

  datatype InstanceIdent = InstanceIdent(service: nat, subject: nat, instance: nat)

  datatype Instance = Instance(id: seq<byte>, ident: InstanceIdent)

  /** A filter on instances; an absent field matches anything. */
  datatype InstanceFilter = InstanceFilter(service: Option<nat>, subject: Option<nat>, instance: Option<nat>) {
    predicate Match(i: InstanceIdent) {
      && (service.Some? ==> service.value == i.service)
      && (subject.Some? ==> subject.value == i.subject)
      && (instance.Some? ==> instance.value == i.instance)
    }
  }

  /** A filter with all fields matches one instance, and a field that differs is a mismatch. */
  lemma MatchExact(f: InstanceFilter, i: InstanceIdent)
    ensures InstanceFilter(Some(i.service), Some(i.subject), Some(i.instance)).Match(i)
    ensures f.Match(i) ==> f.service in {None, Some(i.service)}
    ensures f.Match(i) ==> f.subject in {None, Some(i.subject)} && f.instance in {None, Some(i.instance)}
    ensures f.(service := None).Match(i) && f.service == Some(i.service) ==> f.Match(i)
    ensures f.(subject := None).Match(i) && f.subject == Some(i.subject) ==> f.Match(i)
    ensures f.(instance := None).Match(i) && f.instance == Some(i.instance) ==> f.Match(i)
    ensures ANY_INSTANCE.Match(i)
  {
  }

  const ANY_INSTANCE := InstanceFilter(None, None, None)

  datatype Request = Request(logID: nat, from: Option<int>, till: Option<int>, instances: InstanceFilter)

  /** Whether the entry is to be left out: kept are times in [from, till), or any if neither is set. */
  function FilterByDate(entry: LogEntry, request: Request): (skip: bool)
    ensures !skip <==>
      && entry.content != []
      && ((request.from.None? && request.till.None?) || entry.time.Some?)
      && (entry.time.Some? && request.from.Some? ==> request.from.value <= entry.time.value)
      && (entry.time.Some? && request.till.Some? ==> entry.time.value < request.till.value)
  {
    if entry.content == [] then true
    else if request.from.None? && request.till.None? then false
    else if entry.time.None? then true
    else if request.from.Some? && entry.time.value < request.from.value then true
    else request.till.Some? && (entry.time.value > request.till.value || entry.time.value == request.till.value)
  }

  const OPEN_BRACKET: byte := 91
  const CLOSE_BRACKET: byte := 93

  predicate Occurs(t: seq<byte>, s: seq<byte>) {
    |t| <= |s| && (s[..|t|] == t || (s != [] && Occurs(t, s[1..])))
  }

  function Bracketed(id: seq<byte>): seq<byte> {
    [OPEN_BRACKET] + id + [CLOSE_BRACKET]
  }

  /** Whether the entry is to be left out: kept are entries that mention the instance in brackets. */
  predicate FilterByInstanceID(entry: LogEntry, id: seq<byte>) {
    id == [] || !Occurs(Bracketed(id), entry.content)
  }

  /** The instance to filter by: the first match, or nothing if nothing is asked for or nothing matches. */
  function GetInstanceFilter(request: Request, instances: seq<Instance>): Option<seq<byte>> {
    if request.instances == ANY_INSTANCE || instances == [] then None
    else if request.instances.Match(instances[0].ident) then Some(instances[0].id)
    else GetInstanceFilter(request, instances[1..])
  }

  /** Nothing is filtered by exactly when nothing is asked for or no instance matches. */
  lemma {:induction false} NoFilterIff(request: Request, instances: seq<Instance>)
    ensures GetInstanceFilter(request, instances).None? <==>
      request.instances == ANY_INSTANCE ||
      forall i :: 0 <= i < |instances| ==> !request.instances.Match(instances[i].ident)
  {
    if request.instances != ANY_INSTANCE && instances != [] {
      NoFilterIff(request, instances[1..]);
      assert forall i :: 1 <= i < |instances| ==> instances[i] == instances[1..][i - 1];
    }
  }

  predicate Keep(entry: LogEntry, request: Request, filter: Option<seq<byte>>) {
    !FilterByDate(entry, request) && !(filter.Some? && FilterByInstanceID(entry, filter.value))
  }

  /** The entries of an answer: the lines that pass both filters, in order, each ending in a newline. */
  function Selected(lines: seq<seq<byte>>, utc: seq<byte> -> Option<int>, request: Request, filter: Option<seq<byte>>)
    : seq<Entry>
  {
    if lines == [] then []
    else
      (if Keep(LogEntry(lines[0], utc(lines[0])), request, filter) then [lines[0] + [NEWLINE]] else [])
      + Selected(lines[1..], utc, request, filter)
  }

  /** Data parts numbered from 1, part and parts count alike. */
  function DataParts(logID: nat, parts: seq<seq<byte>>): seq<PushLog> {
    seq(|parts|, i requires 0 <= i < |parts| => PushLog(logID, i + 1, i + 1, Ok, parts[i], NoError))
  }

  /** A complete answer: its data parts and one empty part that ends it. */
  function Answer(logID: nat, parts: seq<seq<byte>>): seq<PushLog> {
    DataParts(logID, parts) + [PushLog(logID, |parts| + 1, |parts| + 1, Empty, [], NoError)]
  }

  /** The one part of an answer that cannot be completed. */
  function ErrorPart(logID: nat, reason: Error): PushLog {
    PushLog(logID, 1, 1, Failure, [], reason)
  }

  ghost predicate OutcomeOf(answer: seq<PushLog>, listed: bool, faulty: bool, logID: nat, out: seq<PushLog>) {
    if !faulty then out == if listed then answer else [ErrorPart(logID, Failed)]
    else out == answer || out < answer || exists n: nat, e: Error ::
           n < |answer| && !e.IsNone() && out == answer[..n] + [ErrorPart(logID, e)]
  }

  /** Where an answer stands after some of its data parts. */
  lemma AnswerPrefix(logID: nat, before: seq<PushLog>, sent: seq<seq<byte>>, rest: seq<seq<byte>>)
    ensures before <= before + DataParts(logID, sent) < before + Answer(logID, sent + rest)
    ensures rest != [] ==>
      before + DataParts(logID, sent) + [PushLog(logID, |sent| + 1, |sent| + 1, Ok, rest[0], NoError)]
      == before + DataParts(logID, sent + [rest[0]])
    ensures before + DataParts(logID, sent) + [PushLog(logID, |sent| + 1, |sent| + 1, Empty, [], NoError)]
            == before + Answer(logID, sent)
  {
  }

  /** The entries that mention an instance of which the filter asks for, whichever instance it is. */
  function SelectedAny(lines: seq<seq<byte>>, utc: seq<byte> -> Option<int>, request: Request, instances: seq<Instance>)
    : seq<Entry>
  {
    if lines == [] then []
    else
      (if KeepAny(LogEntry(lines[0], utc(lines[0])), request, instances) then [lines[0] + [NEWLINE]] else [])
      + SelectedAny(lines[1..], utc, request, instances)
  }

  predicate KeepAny(entry: LogEntry, request: Request, instances: seq<Instance>) {
    && !FilterByDate(entry, request)
    && exists i <- instances :: request.instances.Match(i.ident) && !FilterByInstanceID(entry, i.id)
  }

  lemma SelectedFirst(lines: seq<seq<byte>>, utc: seq<byte> -> Option<int>, request: Request, filter: Option<seq<byte>>)
    requires lines != []
    ensures
      var later := Selected(lines[1..], utc, request, filter);
      Selected(lines, utc, request, filter) ==
      if Keep(LogEntry(lines[0], utc(lines[0])), request, filter) then [lines[0] + [NEWLINE]] + later else later
  {
  }

  lemma PackFirst(current: seq<byte>, entry: Entry, later: seq<Entry>, max: nat)
    ensures PackFrom(current, [entry] + later, max) ==
            if |current| + |entry| > max then [current] + PackFrom(entry, later, max)
            else PackFrom(current + entry, later, max)
  {
    assert ([entry] + later)[1..] == later;
  }

  class Observer {
    var received: seq<PushLog>
    const faulty: bool

    constructor (faulty: bool)
      ensures received == [] && this.faulty == faulty
    {
      received, this.faulty := [], faulty;
    }

    method OnLogReceived(log: PushLog) returns (err: Error)
      modifies this
      ensures err.IsNone() ==> received == old(received) + [log]
      ensures !err.IsNone() ==> faulty && received == old(received)
    {
      var fails: bool := *;
      if faulty && fails {
        return Failed;
      }
      received := received + [log];
      return NoError;
    }
  }

  class LogProvider {
    const reader: FSLogReader
    const observer: Observer
    const instances: seq<Instance>
    const maxContent: nat
    var requests: seq<Request>

    constructor (reader: FSLogReader, observer: Observer, instances: seq<Instance>, maxContent: nat)
      ensures this.reader == reader && this.observer == observer
      ensures this.instances == instances && this.maxContent == maxContent && requests == []
    {
      this.reader, this.observer, this.instances, this.maxContent := reader, observer, instances, maxContent;
      requests := [];
    }

    ghost function Entries(request: Request, listing: seq<nat>): seq<Entry>
      reads reader.dir
    {
      Selected(LinesOf(reader.dir.files, listing), reader.utc, request, GetInstanceFilter(request, instances))
    }

    /** The parts that answer a request, except the one that ends it. */
    ghost function Parts(request: Request, listing: seq<nat>): seq<seq<byte>>
      reads reader.dir
    {
      Pack(Entries(request, listing), maxContent)
    }

    method SendLogChunk(log: PushLog) returns (err: Error, log': PushLog)
      modifies observer
      ensures log'.(content := log.content) == log.(part := log.part + 1, partsCount := log.partsCount + 1)
      ensures err.IsNone() ==> log'.content == []
      ensures err.IsNone() ==> observer.received == old(observer.received) + [log'.(content := log.content)]
      ensures !err.IsNone() ==> observer.faulty && observer.received == old(observer.received)
    {
      log' := log.(part := log.part + 1, partsCount := log.partsCount + 1);
      err := observer.OnLogReceived(log');
      if err.IsNone() {
        log' := log'.(content := []);
      }
    }

    /**
     Answers one request. The observer gets the complete answer or, on an error, only a proper
     prefix of it.
     */
    method HandleLogRequest(request: Request, listing: seq<nat>) returns (err: Error)
      requires NamesInOrder(listing) && forall n: nat :: n in reader.dir.files <==> n in listing
      modifies reader, observer
      ensures err.IsNone() <== !observer.faulty && |listing| <= reader.maxFiles
      ensures err.IsNone() ==>
        observer.received == old(observer.received) + Answer(request.logID, Parts(request, listing))
      ensures !err.IsNone() ==>
        && old(observer.received) <= observer.received
        && observer.received < old(observer.received) + Answer(request.logID, Parts(request, listing))
      ensures |listing| > reader.maxFiles ==> err == Failed && observer.received == old(observer.received)
    {
      err := reader.Reset(listing);
      if !err.IsNone() {
        return;
      }
      var filter := GetInstanceFilter(request, instances);
      var log := PushLog(request.logID, 0, 0, Ok, [], NoError);
      ghost var all, sent := Parts(request, listing), [];
      ghost var before, lines := observer.received, reader.left;
      assert before + DataParts(request.logID, sent) == before;
      while true
        invariant reader.Valid() && lines == reader.left
        invariant Underway(log, before, sent) && request.logID == log.logID
        invariant all == sent + PackFrom(log.content, Selected(lines, reader.utc, request, filter), maxContent)
        decreases |lines|
      {
        var more := reader.Next();
        if !more {
          break;
        }
        var entry;
        err, entry := reader.GetEntry();
        SelectedFirst(lines, reader.utc, request, filter);
        lines := lines[1..];
        if Keep(entry, request, filter) {
          err, log, sent := AddEntry(log, entry.content, before, sent, Selected(lines, reader.utc, request, filter));
          if !err.IsNone() {
            return;
          }
        }
      }
      err := Finish(log, before, sent);
    }

    /** `log` is the next part of an answer of which the observer has the parts `sent`. */
    ghost predicate Underway(log: PushLog, before: seq<PushLog>, sent: seq<seq<byte>>)
      reads observer
    {
      && log == PushLog(log.logID, |sent|, |sent|, Ok, log.content, NoError)
      && observer.received == before + DataParts(log.logID, sent)
    }

    /** The part of the loop after the filters: cut a part if the entry does not fit, then append it. */
    method AddEntry(log: PushLog, content: seq<byte>, ghost before: seq<PushLog>, ghost sent: seq<seq<byte>>,
                    ghost later: seq<Entry>)
      returns (err: Error, log': PushLog, ghost sent': seq<seq<byte>>)
      requires Underway(log, before, sent)
      modifies observer
      ensures
        var all := sent + PackFrom(log.content, [content + [NEWLINE]] + later, maxContent);
        && (err.IsNone() ==>
              && Underway(log', before, sent') && log'.logID == log.logID
              && sent' + PackFrom(log'.content, later, maxContent) == all)
        && (!err.IsNone() ==> observer.faulty && before <= observer.received < before + Answer(log.logID, all))
    {
      err, log', sent' := NoError, log, sent;
      var line := content + [NEWLINE];
      PackFirst(log.content, line, later, maxContent);
      if |log.content| + |line| > maxContent {
        ghost var rest := [log.content] + PackFrom(line, later, maxContent);
        Assoc(sent, [log.content], PackFrom(line, later, maxContent));
        err, log' := SendDataPart(log, before, sent, rest);
        if !err.IsNone() {
          return;
        }
        sent' := sent + [log.content];
        assert [] + line == line;
      }
      log' := log'.(content := log'.content + line);
    }

    /** The end of an answer: what is left, if anything, and the part that ends it. */
    method Finish(log: PushLog, ghost before: seq<PushLog>, ghost sent: seq<seq<byte>>) returns (err: Error)
      requires Underway(log, before, sent)
      modifies observer
      ensures
        var all := sent + PackFrom(log.content, [], maxContent);
        && (err.IsNone() ==> observer.received == before + Answer(log.logID, all))
        && (!err.IsNone() ==> observer.faulty && before <= observer.received < before + Answer(log.logID, all))
    {
      var log' := log;
      if log.content != [] {
        err, log' := SendDataPart(log, before, sent, [log.content]);
        if !err.IsNone() {
          return;
        }
      }
      ghost var all := sent + PackFrom(log.content, [], maxContent);
      assert log.content == [] ==> all == sent;
      AnswerPrefix(log.logID, before, all, []);
      assert all + [] == all;
      err := SendFinalChunk(log');
    }

    /** SendLogChunk for the part that follows those of the answer already sent. */
    method SendDataPart(log: PushLog, ghost before: seq<PushLog>, ghost sent: seq<seq<byte>>,
                        ghost rest: seq<seq<byte>>)
      returns (err: Error, log': PushLog)
      requires Underway(log, before, sent) && rest != [] && rest[0] == log.content
      modifies observer
      ensures err.IsNone() ==>
        Underway(log', before, sent + [rest[0]]) && log'.logID == log.logID && log'.content == []
      ensures !err.IsNone() ==> observer.faulty
      ensures !err.IsNone() ==> before <= observer.received < before + Answer(log.logID, sent + rest)
    {
      AnswerPrefix(log.logID, before, sent, rest);
      err, log' := SendLogChunk(log);
    }

    method SendFinalChunk(log: PushLog) returns (err: Error)
      modifies observer
      ensures err.IsNone() ==>
        && var final := PushLog(log.logID, log.part + 1, log.partsCount + 1, Empty, log.content, log.error);
        && observer.received == old(observer.received) + [final]
      ensures !err.IsNone() ==> observer.faulty && observer.received == old(observer.received)
    {
      var log' := log.(status := Empty);
      err, log' := SendLogChunk(log');
    }

    method SendErrorLog(logID: nat, reason: Error) returns (err: Error)
      modifies observer
      ensures err.IsNone() ==> observer.received == old(observer.received) + [PushLog(logID, 1, 1, Failure, [], reason)]
      ensures !err.IsNone() ==> observer.faulty && observer.received == old(observer.received)
    {
      var log;
      err, log := SendLogChunk(PushLog(logID, 0, 0, Failure, [], reason));
    }

    /** What the observer may get for a request: its answer, or what was sent until an error and the error. */
    ghost predicate Outcome(request: Request, listing: seq<nat>, out: seq<PushLog>)
      reads reader.dir
    {
      OutcomeOf(Answer(request.logID, Parts(request, listing)), |listing| <= reader.maxFiles, observer.faulty,
                request.logID, out)
    }

    /** Works off the queue, first come first served; a request that fails is answered by an error. */
    method ProcessLogRequests(listing: seq<nat>) returns (ghost outs: seq<seq<PushLog>>)
      requires NamesInOrder(listing) && forall n: nat :: n in reader.dir.files <==> n in listing
      modifies this`requests, reader, observer
      ensures requests == []
      ensures |outs| == |old(requests)| && observer.received == old(observer.received) + Concat(outs)
      ensures forall i :: 0 <= i < |outs| ==> Outcome(old(requests)[i], listing, outs[i])
    {
      outs := [];
      ghost var before, queue := observer.received, requests;
      assert before + [] == before && queue[0..] == queue;
      while |requests| > 0
        invariant |outs| <= |queue| && requests == queue[|outs|..]
        invariant observer.received == before + Concat(outs)
        invariant forall i :: 0 <= i < |outs| ==> Outcome(queue[i], listing, outs[i])
        decreases |requests|
      {
        assert requests[0] == queue[|outs|];
        ghost var out := AnswerOne(requests[0], listing);
        ConcatSnoc(outs, out);
        Assoc(before, Concat(outs), out);
        DropTwice(queue, |outs|, 1);
        outs := outs + [out];
        requests := requests[1..];
      }
    }

    /** One pass of the loop. */
    method AnswerOne(request: Request, listing: seq<nat>) returns (ghost out: seq<PushLog>)
      requires NamesInOrder(listing) && forall n: nat :: n in reader.dir.files <==> n in listing
      modifies reader, observer
      ensures observer.received == old(observer.received) + out && Outcome(request, listing, out)
    {
      ghost var before, answer := observer.received, Answer(request.logID, Parts(request, listing));
      var err := HandleLogRequest(request, listing);
      out := observer.received[|before|..];
      if !err.IsNone() {
        assert before + out == observer.received && out < answer && out == answer[..|out|];
        var sendErr := SendErrorLog(request.logID, err);
        if sendErr.IsNone() {
          out := out + [ErrorPart(request.logID, err)];
        }
      }
    }
  }

  /**
   A filter on instances that no instance matches is ignored: the answer is the one to the same
   request for the whole system.
   */
  lemma {:induction false} UnmatchedFilterIgnored(request: Request, instances: seq<Instance>, lines: seq<seq<byte>>,
                                                 utc: seq<byte> -> Option<int>)
    requires forall i :: 0 <= i < |instances| ==> !request.instances.Match(instances[i].ident)
    ensures Selected(lines, utc, request, GetInstanceFilter(request, instances)) ==
            Selected(lines, utc, request.(instances := ANY_INSTANCE), None)
    decreases |instances|, |lines|
  {
    if instances != [] && request.instances != ANY_INSTANCE {
      assert !request.instances.Match(instances[0].ident);
      UnmatchedFilterIgnored(request, instances[1..], lines, utc);
    } else if lines != [] {
      UnmatchedFilterIgnored(request, instances, lines[1..], utc);
    }
  }

  lemma {:induction false} OccursFrom(t: seq<byte>, s: seq<byte>, k: nat)
    requires k + |t| <= |s| && s[k..k + |t|] == t
    ensures Occurs(t, s)
    decreases k
  {
    if k > 0 {
      assert s[1..][k - 1..k - 1 + |t|] == t;
      OccursFrom(t, s[1..], k - 1);
    }
  }

  lemma {:induction false} OccursAt(t: seq<byte>, s: seq<byte>) returns (k: nat)
    requires Occurs(t, s)
    ensures k + |t| <= |s| && s[k..k + |t|] == t
    decreases |s|
  {
    if s[..|t|] == t {
      k := 0;
    } else {
      k := OccursAt(t, s[1..]);
      k := k + 1;
    }
  }

  lemma OccursTransitive(a: seq<byte>, b: seq<byte>, c: seq<byte>)
    requires Occurs(a, b) && Occurs(b, c)
    ensures Occurs(a, c)
  {
    var i := OccursAt(a, b);
    var j := OccursAt(b, c);
    SliceTwice(c, j, |b|, i, |a|);
    OccursFrom(a, c, j + i);
  }

  /** Whatever entry mentions the second instance mentions the first as well. */
  predicate Shows(first: seq<byte>, id: seq<byte>) {
    id == [] || (first != [] && Occurs(Bracketed(first), Bracketed(id)))
  }

  /** No time is in the period asked for. */
  predicate EmptyPeriod(request: Request) {
    request.from.Some? && request.till.Some? && request.from.value >= request.till.value
  }

  /** Whatever is in the log, the answer has the entries of every instance that the request matches. */
  ghost predicate Complete(request: Request, instances: seq<Instance>) {
    forall lines: seq<seq<byte>>, utc: seq<byte> -> Option<int> ::
      Selected(lines, utc, request, GetInstanceFilter(request, instances))
      == SelectedAny(lines, utc, request, instances)
  }

  /** The instance filtered by is the first that matches. */
  lemma {:induction false} FilterIsFirst(request: Request, instances: seq<Instance>) returns (k: nat)
    requires GetInstanceFilter(request, instances).Some?
    ensures request.instances != ANY_INSTANCE
    ensures k < |instances| && request.instances.Match(instances[k].ident)
    ensures forall j :: 0 <= j < k ==> !request.instances.Match(instances[j].ident)
    ensures GetInstanceFilter(request, instances) == Some(instances[k].id)
  {
    if request.instances.Match(instances[0].ident) {
      k := 0;
    } else {
      k := FilterIsFirst(request, instances[1..]);
      k := k + 1;
      assert forall j :: 0 < j < |instances| ==> instances[j] == instances[1..][j - 1];
    }
  }

  lemma KeepAgrees(entry: LogEntry, request: Request, instances: seq<Instance>, first: seq<byte>)
    requires GetInstanceFilter(request, instances) == Some(first)
    requires EmptyPeriod(request) || forall i <- instances :: request.instances.Match(i.ident) ==> Shows(first, i.id)
    ensures Keep(entry, request, Some(first)) == KeepAny(entry, request, instances)
  {
    var k := FilterIsFirst(request, instances);
    assert instances[k] in instances;
    if KeepAny(entry, request, instances) {
      var i :| i in instances && request.instances.Match(i.ident) && !FilterByInstanceID(entry, i.id);
      assert Shows(first, i.id);
      OccursTransitive(Bracketed(first), Bracketed(i.id), entry.content);
    }
  }

  lemma {:induction false} SelectionAgrees(lines: seq<seq<byte>>, utc: seq<byte> -> Option<int>, request: Request,
                                           instances: seq<Instance>, first: seq<byte>)
    requires GetInstanceFilter(request, instances) == Some(first)
    requires EmptyPeriod(request) || forall i <- instances :: request.instances.Match(i.ident) ==> Shows(first, i.id)
    ensures Selected(lines, utc, request, Some(first)) == SelectedAny(lines, utc, request, instances)
    decreases |lines|
  {
    if lines != [] {
      KeepAgrees(LogEntry(lines[0], utc(lines[0])), request, instances, first);
      SelectionAgrees(lines[1..], utc, request, instances, first);
    }
  }

  /** An entry that mentions only an instance which is not the one filtered by. */
  lemma Overlooked(request: Request, instances: seq<Instance>, first: seq<byte>, i: Instance)
    requires GetInstanceFilter(request, instances) == Some(first) && !EmptyPeriod(request)
    requires i in instances && request.instances.Match(i.ident) && !Shows(first, i.id)
    ensures !Complete(request, instances)
  {
    var t := if request.from.Some? then request.from.value
             else if request.till.Some? then request.till.value - 1 else 0;
    var line, utc := Bracketed(i.id), (x: seq<byte>) => Some(t);
    OccursFrom(line, line, 0);
    var entry := LogEntry(line, utc(line));
    assert !FilterByInstanceID(entry, i.id) && KeepAny(entry, request, instances);
    assert !Keep(entry, request, Some(first));
    assert [line][1..] == [];
    assert Selected([line], utc, request, Some(first)) == [];
    assert SelectedAny([line], utc, request, instances) == [line + [NEWLINE]];
  }

  /**
   When several instances match, only the first one's entries are answered. For every log this is
   all that was asked for, if and only if the period is empty or whatever mentions a matching
   instance mentions the first, as when only one instance matches.
   */
  lemma AnswerCompleteIff(request: Request, instances: seq<Instance>)
    requires GetInstanceFilter(request, instances).Some?
    ensures
      var first := GetInstanceFilter(request, instances).value;
      Complete(request, instances) <==>
      EmptyPeriod(request) || forall i <- instances :: request.instances.Match(i.ident) ==> Shows(first, i.id)
  {
    var first := GetInstanceFilter(request, instances).value;
    if EmptyPeriod(request) || forall i <- instances :: request.instances.Match(i.ident) ==> Shows(first, i.id) {
      forall lines: seq<seq<byte>>, utc: seq<byte> -> Option<int>
        ensures Selected(lines, utc, request, Some(first)) == SelectedAny(lines, utc, request, instances)
      {
        SelectionAgrees(lines, utc, request, instances, first);
      }
    } else {
      var i :| i in instances && request.instances.Match(i.ident) && !Shows(first, i.id);
      Overlooked(request, instances, first, i);
    }
  }

  /** The text of an entry has "[", the ID and "]" at place k. */
  predicate MentionsAt(content: seq<byte>, id: seq<byte>, k: nat) {
    && k + |id| + 2 <= |content|
    && content[k] == 91 && content[k + 1..k + 1 + |id|] == id && content[k + 1 + |id|] == 93
  }

  lemma BracketedAt(content: seq<byte>, id: seq<byte>, k: nat)
    ensures MentionsAt(content, id, k) <==>
      k + |Bracketed(id)| <= |content| && content[k..k + |Bracketed(id)|] == Bracketed(id)
  {
    if k + |id| + 2 <= |content| {
      var part := content[k..k + |id| + 2];
      SliceTwice(content, k, |id| + 2, 1, |id|);
      assert part == [part[0]] + part[1..1 + |id|] + [part[1 + |id|]];
      assert Bracketed(id)[1..1 + |id|] == id;
    }
  }

  lemma MentionedIff(content: seq<byte>, id: seq<byte>)
    ensures Occurs(Bracketed(id), content) <==> exists k: nat :: MentionsAt(content, id, k)
  {
    if Occurs(Bracketed(id), content) {
      var k := OccursAt(Bracketed(id), content);
      BracketedAt(content, id, k);
    }
    if k: nat :| MentionsAt(content, id, k) {
      BracketedAt(content, id, k);
      OccursFrom(Bracketed(id), content, k);
    }
  }

  /** The times asked for: from the first on and before the second, or all times and entries without one. */
  predicate InPeriod(time: Option<int>, request: Request) {
    || (request.from.None? && request.till.None?)
    || (time.Some?
        && (request.from.Some? ==> request.from.value <= time.value)
        && (request.till.Some? ==> time.value < request.till.value))
  }

  /**
   An entry is in an answer if and only if it is not empty, its time is in the period and, when there
   is an instance to filter by, it has a non-empty ID and the entry mentions it in brackets.
   */
  lemma KeepIff(entry: LogEntry, request: Request, filter: Option<seq<byte>>)
    ensures Keep(entry, request, filter) <==>
      && entry.content != [] && InPeriod(entry.time, request)
      && (filter.Some? ==> filter.value != [] && exists k: nat :: MentionsAt(entry.content, filter.value, k))
  {
    if filter.Some? {
      MentionedIff(entry.content, filter.value);
    }
  }

  /** Selection goes line by line, in order... */
  lemma {:induction false} SelectedAppend(a: seq<seq<byte>>, b: seq<seq<byte>>, utc: seq<byte> -> Option<int>,
                                          request: Request, filter: Option<seq<byte>>)
    ensures Selected(a + b, utc, request, filter) ==
            Selected(a, utc, request, filter) + Selected(b, utc, request, filter)
    decreases |a|
  {
    if a == [] {
      assert a + b == b;
    } else {
      assert (a + b)[1..] == a[1..] + b;
      SelectedAppend(a[1..], b, utc, request, filter);
    }
  }

  /** ...and a line is answered with a newline if it is to be kept, and otherwise not at all. */
  lemma SelectedOne(line: seq<byte>, utc: seq<byte> -> Option<int>, request: Request, filter: Option<seq<byte>>)
    ensures
      var kept :=
        && line != [] && InPeriod(utc(line), request)
        && (filter.Some? ==> filter.value != [] && exists k: nat :: MentionsAt(line, filter.value, k));
      Selected([line], utc, request, filter) == if kept then [line + [10]] else []
  {
    assert [line][1..] == [];
    KeepIff(LogEntry(line, utc(line)), request, filter);
  }

  /** A request for the whole system gets every line of the period, in order. */
  lemma {:induction false} WholeSystemAnswer(lines: seq<seq<byte>>, utc: seq<byte> -> Option<int>, request: Request)
    requires forall line <- lines :: line != [] && InPeriod(utc(line), request)
    ensures |Selected(lines, utc, request, None)| == |lines|
    ensures forall i :: 0 <= i < |lines| ==> Selected(lines, utc, request, None)[i] == lines[i] + [10]
    decreases |lines|
  {
    if lines != [] {
      assert lines[0] in lines;
      assert lines == [lines[0]] + lines[1..];
      assert forall line <- lines[1..] :: line in lines;
      WholeSystemAnswer(lines[1..], utc, request);
      SelectedOne(lines[0], utc, request, None);
      SelectedAppend([lines[0]], lines[1..], utc, request, None);
    }
  }
}
