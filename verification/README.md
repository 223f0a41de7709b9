# Verified models of the Aos Zephyr components

These Dafny modules model the stateful parts of the Aos Zephyr application and prove what their
protocols, files and state machines keep over whole runs. `dafny verify dfyconfig.toml` checks all
of them.

| files | what they model |
|---|---|
| `Bytes`, `Common` | bytes, little-endian fields, flattening; error codes |
| `Frames`, `ChannelManager` | the frame format of the multiplexed channels; reading and writing frames over a transport with short reads and writes |
| `Channel`, `ChannelProtocol`, `ChannelDelivery` | the monitor between the manager thread and readers; every interleaving of one connection; what readers get |
| `PBHandler`, `EndToEnd` | length-prefixed messages in a channel; messages from sender to receiver |
| `LogModel`, `LogNames`, `Renaming`, `FSBackend`, `LogRestart` | the rotating log: as a list of contents, its file names, renumbering in place, the backend over a directory, start-up |
| `FSLogReader` | the line reader over the rotated files |
| `LogPacking`, `LogProvider` | cutting an answer into parts; filters, requests and the parts sent |
| `RecordFile`, `FileStorage`, `KeyedStore`, `Storage` | fixed-size records in a file, the cursor-driven operations, their meaning as a keyed map, the databases |
| `ClockSync`, `SMClient`, `NodeStatus` | the control state machines |
| `Downloader` | downloads of several files in chunks |

Code that works on fields, buffers, files and cursors is a class whose methods have the loops and
branches of the application's code. Each is proved against a function on values (`Handle`, `AddSlots`,
`OnFileChunk`, `Parse`, ...), and the theorems are about runs of these functions. Threads are steps
of a state machine: one step for each critical section, in any order.

## Where the code falls short of the expectation

Each of these is proved, with the exact condition where the expectation holds for some inputs.

- A `Channel::Read` that spans two frames never returns, because `ReadDone` replaces the length
  (`ReadReturnsIffItFits`, `Channel.Read`). Message handlers never issue such a read when each
  message travels in one frame (`PbRun`).
- Log file names are sorted as strings, so a directory that passes from one-digit to two-digit
  numerals is listed out of order. Every directory the backend can leave is listed oldest first only
  for limits up to 5 (`ListingTrustedIff`), and only then does a restart of a full directory always
  remove the oldest file (`RestartDropsOldestTrustedIff`); with the default of 8 it can remove the
  newest (`DefaultLimitLosesNewest`). The renumbering that follows overwrites no file only for limits
  up to 11 (`RestartSafeIff`). A reader shows the same disorder (`ReadOldestFirstIff`).
- The checksum of a stored record covers the record up to its last 32 bytes. When the compiler pads
  the record, that takes in bytes of the old checksum, and a record need not verify, already after
  one addition (`SealVerifiesIff`, `RunVerifiedIff`). As a remark, since the layout of the types is not
  modelled: with the 8-byte alignment of a 64-bit target all four record types are padded.
- `RemoveAllCertsInfo` and `RemoveCertInfo` remove one record each (`RemoveAllCertsInfo`,
  `RemoveCertInfo`, `RemoveClearsIff`).
- An instance filter that matches no instance is ignored, so its answer is the log of the whole
  system (`NoFilterIff`, `UnmatchedFilterIgnored`). One that matches several is answered with the
  first one's entries only (`AnswerCompleteIff`).
- A downloaded file is opened without truncation, so the tail of a longer old file stays
  (`FileContent`).
- A content info without files never finishes a download, which then waits for its time-out
  (`DownloadFinishesIff`).
- The request that a file chunk was sent for is not looked at, so a late part can complete a later
  download (`StalePartCompletes`, `OwnPartsIff`).
- With a limit of one file, start-up on a directory with one file removes it and then fails, and no
  file is open; `HandleLog` without an open file never accepts a complete entry (`Init`, `HandleLog`).

## Assumptions

- Transport: an operation moves at least one byte or fails.
  Writes of frames are serialised, as the write mutex makes them.
- Frame header: 32-bit port, 32-bit size, 32-byte checksum, little-endian. `aosprotocol.h` is not part
  of this model. The checksum is any function to 32 bytes; the reading side does not look at it.
- One connection: fresh channels, up to the first close. `Close` leaves a pending read announced.
- Steps are atomic: the sections under a mutex, and `IAMClient::OnNodeStatusChanged`, which takes no
  mutex but is called on the thread that the channel release joins.
- Files: opening for append creates or extends, rename replaces its target, whole reads and writes.
  The log directory holds log files only.
- `fs::ReadLine` gives the bytes up to the next line feed or carriage return, and fails at the end of
  the file. The delimiter literal of the source also holds a NUL, which ends the C string.
- Condition variables and timers: a wait ends only when its condition holds or its time is up.
- The clock-sync worker wakes at least every send period.
- The IAM client and the SM client read the node status before the first status change.

## Model

| member | source | states |
|---|---|---|
| `Frames.ParseEncodeAll` | src/communication/channelmanager.cpp:213-243 | for any frames within the read buffer, whatever follows them on the wire, the reading loop recovers exactly the ports and payloads written, in order, and goes on at what follows |
| `Frames.EncodeAllSnoc` | src/communication/channelmanager.cpp:109-133 | one more serialised write appends one whole frame to the stream of frames |
| `Frames.ParsePrefix` | src/communication/channelmanager.cpp:213-243 | a stream cut at any byte yields a prefix of the frames of the whole stream |
| `Frames.FrameRecoveredIff` | src/communication/channelmanager.cpp:231-233 | a written frame is recovered first if and only if its payload fits the 65 KiB read buffer |
| `Frames.HeaderFields` | src/communication/channelmanager.cpp:333-348 | port and size of a prepared header read back as they were for every payload within the read buffer |
| `Frames.ChecksumCovers` | src/communication/channelmanager.cpp:340-345 | the 32 bytes before the payload of a frame on the wire are the checksum of the bytes after the header |
| `ChannelManagers.ChannelManager.WriteTransport` | src/communication/channelmanager.cpp:304-322 | under any short writes all bytes arrive in order; after an error only a proper prefix did |
| `ChannelManagers.ChannelManager.Write` | src/communication/channelmanager.cpp:109-133 | the stream grows by exactly one whole frame and the payload size is returned; or -EIO and a proper prefix of the frame; or -EINVAL and nothing, exactly when the checksum cannot be computed |
| `ChannelManagers.ChannelManager.ReadTransport` | src/communication/channelmanager.cpp:282-302 | under any short reads the buffer holds exactly the next bytes of the stream |
| `ChannelManagers.ChannelManager.ReadFrame` | src/communication/channelmanager.cpp:225-237 | one pass reads exactly the first frame and leaves the stream at the next frame; it fails only without a whole acceptable frame or on a transport fault |
| `ChannelManagers.ChannelManager.HandleRead` | src/communication/channelmanager.cpp:213-243 | the frames processed are those of the stream, all of them when the transport does not fault and the manager is not closed, whatever becomes of each one in processing |
| `ChannelManagers.ChannelManager.ProcessData` | src/communication/channelmanager.cpp:245-280 | for any waits: what is handed over is a prefix of the payload, in pieces of exactly what the reader asked for, the last one possibly shorter; there is no error if and only if all of it was handed over |
| `Channels.Channel.Read` | src/communication/channel.cpp:46-74 | for any hand-offs: returns the size if and only if the size is 0 or the first hand-off alone supplies every byte, then with those bytes; bytes beyond the size are untouched |
| `ChannelProtocol.NextInv` | src/communication/channelmanager.cpp:245-280 | every step of manager and readers keeps the hand-off invariant: what was handed over is what was returned plus what a full reader holds |
| `ChannelProtocol.CopyPortInv` | src/communication/channelmanager.cpp:268-270 | no copy of the manager ends outside the buffer of the reader |
| `ChannelProtocol.Run` | src/communication/channelmanager.cpp:245-280 | the invariant holds after every interleaving |
| `ChannelProtocol.ManagerNeverStuck` | src/communication/channelmanager.cpp:260-277 | with a frame in hand the manager can always move on without any reader: it copies, signals, sees the request, or, exactly when there is none, times out |
| `ChannelDelivery.RunHistory` | src/communication/channelmanager.cpp:245-280 | over every interleaving the bytes handed to a port are those of the frames done and the frame in hand, and no frame is lost or reordered |
| `ChannelDelivery.Delivery` | src/communication/channelmanager.cpp:245-280 | in every interleaving, time-outs included, what reads of a port returned is a prefix of what was handed over: a prefix of each payload for the port, in order |
| `ChannelDelivery.StreamDelivery` | src/communication/channelmanager.cpp:245-280 | as long as no wait for the reader of the port times out, whatever happens on other ports, the bytes returned are a prefix of the concatenated payloads of the port, and all of them once the manager has none left and the reader is outside Read |
| `ChannelDelivery.SpanningForever` | src/communication/channel.cpp:52-73 | a read handed fewer bytes than it asked for blocks in every continuation |
| `ChannelDelivery.ReadReturnsIffItFits` | src/communication/channel.cpp:52-73 | a read about to be served has a continuation in which it returns if and only if it asks for no more than is left of the frame |
| `ChannelDelivery.ServeWhole` | src/communication/channelmanager.cpp:260-277 | a read within the rest of the frame returns exactly the next bytes of the frame |
| `PBHandlers.PbRoundTrip` | src/communication/pbhandler.cpp:137-178 | any messages within the receive buffer, empty ones included, are parsed back exactly, and the loop then stands as at the start |
| `PBHandlers.PbParseMonotone` | src/communication/pbhandler.cpp:137-178 | messages received from a stream are a prefix of those received from any longer one |
| `PBHandlers.HeaderOf` | src/communication/pbhandler.cpp:97-99 | the length prefix of a message gives its size and separates it from what follows |
| `PBHandlers.OversizeKeepsBody` | src/communication/pbhandler.cpp:157-160 | of a message above the receive buffer only the header is dropped, and its body is taken for messages |
| `PBHandlers.PBHandler.SendMessage` | src/communication/pbhandler.cpp:83-105 | sends header and body as one frame on its port, or nothing when the message does not encode into the send buffer |
| `PBHandlers.PBHandler.Run` | src/communication/pbhandler.cpp:112-182 | one connection receives exactly the messages of the bytes delivered, and every read asks for what the specification of its next read says |
| `EndToEnd.ReadMatchesFrame` | src/communication/pbhandler.cpp:146-166 | in every reachable state a reader about to be served asks for exactly the header or exactly the body of the frame in hand |
| `EndToEnd.PbRun` | src/communication/pbhandler.cpp:137-178 | no read of a message handler ever spans a frame, in any interleaving in which no wait for its reader times out |
| `EndToEnd.CanFinish` | src/communication/channelmanager.cpp:245-280 | from every state of a run the system can go on to quiescence, with the handler reading as it does and no wait timing out |
| `EndToEnd.MessageDelivery` | src/communication/pbhandler.cpp:137-178 | in every interleaving in which no wait for its reader times out the messages received are a prefix of those addressed to the port, all of them once the system is quiescent, and all of them can still be received |
| `EndToEnd.MessageRoundTrip` | src/communication/pbhandler.cpp:83-105 | any messages sent on any ports of one transport arrive at the handler of each port unchanged and in order, whatever time-outs hit other ports, and none is ever out of reach |
| `LogModel.HandleConserves` | src/logger/fsbackend.cpp:171-184 | one call neither loses nor duplicates a byte and takes at least one if there is any |
| `LogModel.HandleWritesIff` | src/logger/fsbackend.cpp:171-184 | an entry is written out if and only if it is full or ends in a newline or a NUL, and until then the files stay as they are |
| `LogModel.RunConserves` | src/logger/fsbackend.cpp:171-222 | over any run, removed files, then retained files in order, then the buffer, are exactly the bytes accepted |
| `LogModel.RunDropsWholeFiles` | src/logger/fsbackend.cpp:325-338 | over any run every closed file stays whole, once and at its place among all files ever started, the open one only grows, and files are removed oldest first and only from a full list |
| `LogModel.RetainedIsSuffix` | src/logger/fsbackend.cpp:171-222 | from an empty directory what is retained is a suffix of what was accepted |
| `LogModel.Feed` | src/logger/fsbackend.cpp:171-184 | a caller that feeds the unconsumed rest again terminates, with every byte in the log once |
| `LogModel.FlushBounded` | src/logger/fsbackend.cpp:202-222 | a flush keeps every file within the limit and every two adjacent files together above it |
| `LogModel.RunBounded` | src/logger/fsbackend.cpp:202-222 | these bounds hold over every run when an entry fits a file |
| `LogModel.RetentionBound` | src/logger/fsbackend.cpp:202-222 | a full set of N files, N at least 2, retains more than floor(N/2) times the file limit |
| `LogNames.SameLengthOrder` | src/logger/fsbackend.cpp:278-285 | names of numerals with equally many digits sort like the numerals |
| `LogNames.WindowNames` | src/logger/fsbackend.cpp:230 | consecutive numerals have names in order if and only if the first and the last have equally many digits |
| `LogNames.ListingOldestFirstIff` | src/logger/fsbackend.cpp:228-257 | a sorted listing of consecutively numbered files is oldest first if and only if first and last numeral have equally many digits |
| `LogNames.ListingTrustedIff` | src/logger/fsbackend.hpp:59 | every directory the backend can leave is listed oldest first if and only if the file limit is at most 5 |
| `Renaming.RenumberPreserves` | src/logger/fsbackend.cpp:340-357 | without clashes every file keeps its content and its place, at every stage of the renumbering |
| `Renaming.RenumberSafeIff` | src/logger/fsbackend.cpp:340-357 | renumbering in place loses no file if and only if no file later in the list holds the numeral of an earlier place |
| `Renaming.ClashLoses` | src/logger/fsbackend.cpp:344-354 | with a clash some content is nowhere in the directory afterwards |
| `Renaming.IncreasingNoClash` | src/logger/fsbackend.cpp:340-357 | numerals that increase along the list never clash |
| `FSBackends.Renumbered` | src/logger/fsbackend.cpp:340-357 | renumbering a list without clashes leaves numerals 0..n-1 with the same contents in the same order and finds every file |
| `FSBackends.FSBackend.ShrinkLogFiles` | src/logger/fsbackend.cpp:325-338 | a full list loses its first file, on disk as well; any other list is left alone |
| `FSBackends.FSBackend.UpdateLogFileNumerals` | src/logger/fsbackend.cpp:340-357 | renames the k-th file to numeral k until one is missing |
| `FSBackends.FSBackend.ReopenLogFile` | src/logger/fsbackend.cpp:359-381 | opens the last file for appending, creating it if needed, and learns its size; fails on an empty list |
| `FSBackends.FSBackend.AllocateNewLogFile` | src/logger/fsbackend.cpp:298-323 | a new empty last file after removing the oldest of a full list, all other contents kept even when renumbered; renumberings are more than limit allocations apart |
| `FSBackends.FSBackend.StartFile` | src/logger/fsbackend.cpp:316-322 | the new file name is new on disk |
| `FSBackends.FSBackend.MakeRoom` | src/logger/fsbackend.cpp:306-314 | numerals stay below twice the limit, and renames never outnumber allocations |
| `FSBackends.FSBackend.WriteToFile` | src/logger/fsbackend.cpp:202-222 | refines the flush of the list model; without an open file nothing changes on disk |
| `FSBackends.FSBackend.HandleLog` | src/logger/fsbackend.cpp:171-184 | the files on disk in list order, the buffer and the removed files are those of the list model after the call |
| `FSBackends.FSBackend.HandleAll` | src/logger/fsbackend.cpp:171-184 | any run of calls refines the run of the list model and leaves the newest consecutive numerals below twice the limit, at most as many as the limit |
| `FSBackends.EveryNumeralReached` | src/logger/fsbackend.cpp:298-323 | every numeral up to twice the limit is the next one after some run from an empty log |
| `FSBackends.FSBackend.Init` | src/logger/fsbackend.cpp:139-169 | start-up on any directory: an empty one, or one with too many files, gives the empty log; otherwise the kept files are renamed in listing order, and are the log, with their contents, when that has no clash; it fails exactly when no file found is kept |
| `LogRestart.RestartInOrderIff` | src/logger/fsbackend.cpp:161-168 | for any directory of consecutive numerals a restart keeps all files in order, all but the oldest of a full list, if and only if first and last numeral have equally many digits; contents are then kept by the renumbering |
| `LogRestart.RestartDropsOldestIff` | src/logger/fsbackend.cpp:165-165 | a full directory loses its oldest file at a restart if and only if first and last numeral have equally many digits or the first is 0 or a power of ten |
| `LogRestart.RestartDropsOldestTrustedIff` | src/logger/fsbackend.cpp:165-165 | every full directory the backend can leave loses its oldest file at a restart, if and only if the file limit is at most 5 |
| `LogRestart.RestartAcrossTenIff` | src/logger/fsbackend.cpp:166-166 | for any directory of consecutive numerals across 10 the renumbering at a restart overwrites no file, if and only if there are at most 11 files when full, or at most 10 otherwise |
| `LogRestart.RestartSafeIff` | src/logger/fsbackend.cpp:161-168 | the renumbering at a restart overwrites no file in every directory the backend can leave, if and only if the file limit is at most 11 |
| `LogRestart.DefaultLimitLosesNewest` | src/logger/fsbackend.cpp:161-168 | with the default limit of 8 a restart right after file 10 was started removes file 10, the newest |
| `LogLines.RetainedLines` | src/logger/fsbackend.cpp:171-222 | whatever was logged line by line, the retained files hold exactly the last lines in order |
| `LogLines.HandleLine` | src/logger/fsbackend.cpp:171-184 | one line fed is one more line at the end of the files |
| `LogLines.SplitAppend` | src/logprovider/fslogreader.cpp:96-102 | whole lines split the same way whatever follows them |
| `LogLines.SplitAtDelimiter` | src/logprovider/fslogreader.cpp:96 | a line ends at a line feed or a carriage return and the next one starts after it |
| `FSLogReaders.FSLogReader.Reset` | src/logprovider/fslogreader.cpp:46-57 | starts over with the lines of the files in listing order |
| `FSLogReaders.FSLogReader.ReadLine` | src/logprovider/fslogreader.cpp:86-109 | yields the next line and only that; at the end of a file, or if it cannot be opened, no line is lost |
| `FSLogReaders.FSLogReader.Next` | src/logprovider/fslogreader.cpp:31-44 | yields each remaining line once, in order, and then stops |
| `FSLogReaders.WriteThenRead` | src/logprovider/fslogreader.cpp:31-137 | after any lines were logged, a reader lists all of them but those of the removed files, once each and in order, when the oldest and newest numerals have equally many digits |
| `FSLogReaders.ReadOldestFirstIff` | src/logprovider/fslogreader.cpp:111-137 | whatever distinguishable files hold, their lines come oldest first if and only if first and last numeral have equally many digits |
| `LogPacking.PartsConserve` | src/logprovider/logprovider.cpp:191-223 | the parts together are the accepted entries in order, no entry is divided, no part is empty or too large |
| `LogPacking.PackOptimal` | src/logprovider/logprovider.cpp:210-216 | no order-preserving split into parts within the limit has fewer parts than the greedy one |
| `LogPacking.NoWorse` | src/logprovider/logprovider.cpp:210-216 | having less unsent content never costs a part |
| `LogProviders.FilterByDate` | src/logprovider/logprovider.cpp:253-281 | kept are non-empty entries with a time in [from, till), or any non-empty entry if neither is set |
| `LogProviders.KeepIff` | src/logprovider/logprovider.cpp:200-206 | an entry is kept if and only if it is not empty, its time is in the period or none is asked for and, when there is an instance to filter by, the entry has its non-empty ID in brackets |
| `LogProviders.SelectedOne` | src/logprovider/logprovider.cpp:200-216 | a line is answered with a newline if it is to be kept, and otherwise not at all |
| `LogProviders.SelectedAppend` | src/logprovider/logprovider.cpp:191-217 | selection goes line by line and keeps the order |
| `LogProviders.WholeSystemAnswer` | src/logprovider/logprovider.cpp:191-217 | a request for the whole system gets every line of the period, in order |
| `LogProviders.FilterIsFirst` | src/logprovider/logprovider.cpp:305-309 | the instance filtered by is the first that matches |
| `LogProviders.NoFilterIff` | src/logprovider/logprovider.cpp:296-312 | no instance is filtered by if and only if the request names none or no instance matches |
| `LogProviders.UnmatchedFilterIgnored` | src/logprovider/logprovider.cpp:296-312 | an instance filter that no instance matches is ignored: the answer is that for the whole system |
| `LogProviders.AnswerCompleteIff` | src/logprovider/logprovider.cpp:305-309 | when instances match, the answer has the entries of all of them for every log, if and only if the period asked for is empty or whatever mentions a matching instance also mentions the first |
| `LogProviders.LogProvider.SendLogChunk` | src/logprovider/logprovider.cpp:135-151 | numbers the part and its count one higher, delivers it, and empties its content |
| `LogProviders.LogProvider.SendErrorLog` | src/logprovider/logprovider.cpp:160-172 | delivers one error part numbered 1 of 1 with the reason |
| `LogProviders.LogProvider.HandleLogRequest` | src/logprovider/logprovider.cpp:174-226 | the observer gets the greedy parts of the selected entries numbered from 1, all with status ok, and one empty part with status empty; on an error a proper prefix of that |
| `LogProviders.LogProvider.ProcessLogRequests` | src/logprovider/logprovider.cpp:228-251 | the queue is worked off in order; each request gets its complete answer, or what was sent until an error and then one error part, and just the error part when the log files cannot be listed |
| `RecordFile.ReadAt` | src/storage/filestorage.hpp:106 | a whole read at a record offset gives that record, and past the last record there is nothing to read |
| `RecordFile.WriteAt` | src/storage/filestorage.hpp:134-144 | a record written at a record offset changes that record, or adds one at the end, and no other byte |
| `RecordFile.CoveredIsPrefix` | src/storage/filestorage.hpp:126-127 | the bytes the checksum covers are all but the last 32 of the record |
| `FileStorages.FileStorage.Init` | src/storage/filestorage.hpp:50-85 | an empty file gets a header; any other file is left alone |
| `FileStorages.FileStorage.Add` | src/storage/filestorage.hpp:95-152 | on the bytes of the file, with the cursor: refuses when a live record passes the filter, otherwise fills the first deleted slot or appends |
| `FileStorages.FileStorage.Scan` | src/storage/filestorage.hpp:106-117 | finds whether a live record passes, and otherwise the first deleted slot and the last record read |
| `FileStorages.FileStorage.Update` | src/storage/filestorage.hpp:163-217 | replaces the data of the first live record that passes, or not found |
| `FileStorages.FileStorage.Remove` | src/storage/filestorage.hpp:227-273 | marks the first live record that passes as deleted, or not found |
| `FileStorages.FileStorage.ReadRecords` | src/storage/filestorage.hpp:283-309 | visits each live record once in slot order; an array too small gets the first ones and an error |
| `FileStorages.FileStorage.ReadRecordByFilter` | src/storage/filestorage.hpp:320-347 | the first live record that passes, or not found |
| `KeyedStore.AddRefines` | src/storage/filestorage.hpp:95-152 | with key filters addition fails exactly when the key is present, otherwise the map gains the record and keys stay unique |
| `KeyedStore.UpdateRefines` | src/storage/filestorage.hpp:163-217 | update fails exactly when the key is absent, otherwise the map has the new record at its key |
| `KeyedStore.RemoveRefines` | src/storage/filestorage.hpp:227-273 | removal fails exactly when the key is absent, otherwise the map loses that key and nothing else |
| `KeyedStore.ReadYieldsEntries` | src/storage/filestorage.hpp:283-309 | reading yields exactly the accepted entries of the map, one for each key |
| `KeyedStore.StoreIsMap` | src/storage/filestorage.hpp:94-347 | from an empty store and over any operations the slots represent the map the operations compute, and there are exactly as many as there ever were live records at once |
| `KeyedStore.ApplyCounts` | src/storage/filestorage.hpp:104-144 | live records are as many as map entries, and a new slot is taken only when no deleted one is left |
| `KeyedStore.AddsAtFirstDeleted` | src/storage/filestorage.hpp:104-144 | a record goes to the first deleted slot, or to the end, undeleted and with the checksum of its bytes |
| `KeyedStore.UpdatesFirst` | src/storage/filestorage.hpp:173-205 | an update replaces data and checksum of the first record that passes and touches nothing else |
| `KeyedStore.RemovesFirst` | src/storage/filestorage.hpp:237-265 | a removal marks the first record that passes as deleted and touches nothing else |
| `KeyedStore.OthersUntouched` | src/storage/filestorage.hpp:94-273 | a live record under another key stays in its slot, byte for byte |
| `KeyedStore.RunVerified` | src/storage/filestorage.hpp:126-132 | without padding every live record verifies after every operation |
| `KeyedStore.SealVerifiesIff` | src/storage/filestorage.hpp:126-132 | a freshly written record verifies under every digest if and only if its type leaves no padding |
| `KeyedStore.RunVerifiedIff` | src/storage/filestorage.hpp:94-273 | in every run from an empty store and under every digest all live records verify, if and only if the type leaves no padding |
| `KeyedStore.RemoveClearsIff` | src/storage/storage.cpp:338-350 | one removal clears the records a filter accepts if and only if there was at most one |
| `Storages.KeyedDatabase.Add` | src/storage/storage.cpp:54-66 | byte-level addition against the map from keys to records |
| `Storages.KeyedDatabase.Update` | src/storage/storage.cpp:68-80 | byte-level update against the map |
| `Storages.KeyedDatabase.Remove` | src/storage/storage.cpp:82-90 | byte-level removal against the map |
| `Storages.KeyedDatabase.Get` | src/storage/storage.cpp:276-295 | the record of the key, or not found |
| `Storages.KeyedDatabase.GetAll` | src/storage/storage.cpp:92-109 | each accepted entry once; all of them unless the array is full |
| `Storages.CertDatabase.RemoveAllCertsInfo` | src/storage/storage.cpp:338-350 | never fails, marks the first record of the type as deleted and touches no other, and so clears the type if and only if at most one record had it |
| `Storages.CertDatabase.RemoveCertInfo` | src/storage/storage.cpp:327-336 | fails exactly when no record has type and URL; otherwise marks the first such record as deleted and touches no other, and so clears them if and only if there was at most one |
| `ClockSyncs.ClockSyncCorrect` | src/clocksync/clocksync.cpp:23-64 | for every interleaving notifications alternate beginning with synced, the last is the current state, requests follow Start only, and a clock that counts as synced was synchronised within the timeout plus one send period |
| `ClockSyncs.LossReported` | src/clocksync/clocksync.cpp:50-55 | when no sync is pending and none is accepted any more, the clock no longer counts as synced once the timeout and one send period have passed, and the last notification says so |
| `ClockSyncs.NothingWithoutReason` | src/clocksync/clocksync.cpp:38-55 | the state changes to synced only on a sync and back only after more than the timeout, and every change and nothing else is notified |
| `ClockSyncs.WakesInTime` | src/clocksync/clocksync.cpp:27-27 | time passes up to the end of the send period, where the worker wakes if nothing woke it before |
| `ClockSyncs.SyncReported` | src/clocksync/clocksync.cpp:38-48 | an accepted sync wakes the worker, and after that pass the clock counts as synced and was notified as such |
| `ClockSyncs.RequestsSent` | src/clocksync/clocksync.cpp:33-62 | once Start was called every pass sends one request unless a sync was pending, before that none does, and the pass after Stop is the last |
| `ClockSyncs.RunInv` | src/clocksync/clocksync.cpp:23-64 | the invariant behind it holds over every run, and a worker that returned changes nothing any more |
| `ClockSyncs.SilentAfterStop` | src/clocksync/clocksync.cpp:84-96 | after the worker has returned there are no notifications and no requests |
| `ClockSyncs.ClockSync.Sync` | src/clocksync/clocksync.cpp:98-119 | sets the real-time clock to the given time exactly when it is too far off, and is refused exactly when that fails |
| `ClockSyncs.ClockSync.Iteration` | src/clocksync/clocksync.cpp:24-63 | one pass of the worker is one wake step of the machine |
| `SMClients.NoLostCertificateChange` | src/smclient/smclient.cpp:898-931 | whenever the channel thread is blocked in its connected wait the client is subscribed, the TLS configuration was loaded after the last delivered change, and it is current unless a notification is on its way |
| `SMClients.SetUpOnlyWhenReady` | src/smclient/smclient.cpp:907-913 | every set-up has the clock synced, the node provisioned and the client not closing |
| `SMClients.LeavesConnected` | src/smclient/smclient.cpp:929 | a connected channel is left at the next step when the clock is unsynced, the node unprovisioned, the client closing or a certificate change noticed |
| `SMClients.ComesUp` | src/smclient/smclient.cpp:898-931 | a client that is ready comes up, with the current certificate, when what it calls succeeds |
| `SMClients.GoesDown` | src/smclient/smclient.cpp:898-931 | a closed client goes down, wherever its thread is |
| `SMClients.FlagsFollowCallbacks` | src/smclient/smclient.cpp:408-448 | the callbacks set one flag each and only they set it |
| `SMClients.RunInv` | src/smclient/smclient.cpp:898-931 | the invariant over every run of callbacks, certificate updates and thread steps |
| `SMClients.SecureChannel.SetupChannel` | src/smclient/smclient.cpp:831-865 | the set-up steps of the machine, whatever certificates arrive meanwhile; a channel set up has the current one or will be told |
| `SMClients.SecureChannel.ReleaseChannel` | src/smclient/smclient.cpp:867-896 | the release steps of the machine, whatever certificates arrive meanwhile; a channel that was started ends up stopped, and unsubscribed unless an error is returned |
| `NodeStates.StatusAgreement` | src/nodeinfoprovider/nodeinfoprovider.cpp:83-106 | in any run, for either order of subscription and even when node info cannot be sent: the IAM copy equals the status, the SM flag says provisioned or not, the file restores the status, a parked IAM channel is on the open port exactly when unprovisioned, and the status changes only as allowed |
| `NodeStates.RunAgrees` | src/nodeinfoprovider/nodeinfoprovider.cpp:259-268 | agreement of the three copies over every run |
| `NodeStates.RequestOutcome` | src/iamclient/iamclient.cpp:389-547 | a request succeeds if and only if the node and its status are the right ones and everything to be done for it can be; then the node has the status asked for, and a request that is refused changes nothing |
| `NodeStates.ChannelSteps` | src/iamclient/iamclient.cpp:285-322 | a channel is set up only with the clock synced and the client open, and a parked one is left exactly for a reconnect or on closing |
| `NodeStates.ChannelComesUp` | src/iamclient/iamclient.cpp:285-322 | from any state the channel comes up on the port for the present status when the clock is synced and the set-up succeeds, and a reconnect that was pending has happened |
| `NodeStates.GoesDown` | src/iamclient/iamclient.cpp:285-322 | a closed client goes down, wherever its thread is |
| `NodeStates.NodeInfoProvider.SetStatus` | src/nodeinfoprovider/nodeinfoprovider.cpp:83-106 | stores first, then sets, then notifies; nothing changes for the same status or when storing fails |
| `NodeStates.NodeInfoProvider.NotifyNodeStatusChanged` | src/nodeinfoprovider/nodeinfoprovider.cpp:259-268 | tells observers in order up to the first that fails |
| `NodeStates.IAMClient.OnNodeStatusChanged` | src/iamclient/iamclient.cpp:124-153 | takes the status over in every case, asks for a reconnect exactly when it passes between unprovisioned and another, and fails only when node info had to be sent |
| `NodeStates.IAMClient.ProcessStartProvisioning` | src/iamclient/iamclient.cpp:461-486 | no state changes, and no error exactly for the right node, unprovisioned, with the provision manager succeeding |
| `NodeStates.IAMClient.ProcessFinishProvisioning` | src/iamclient/iamclient.cpp:488-517 | the machine step of the request on all three components, the error reported, and without an error the node is provisioned |
| `NodeStates.IAMClient.ProcessDeprovision` | src/iamclient/iamclient.cpp:519-547 | the machine step of the request on all three components, the error reported, and without an error the node is unprovisioned |
| `NodeStates.IAMClient.ProcessPauseNode` | src/iamclient/iamclient.cpp:653-676 | the machine step of the request on all three components, the error reported, and without an error the node is paused |
| `NodeStates.IAMClient.ProcessResumeNode` | src/iamclient/iamclient.cpp:678-701 | the machine step of the request on all three components, the error reported, and without an error the node is provisioned |
| `Downloaders.DownloadComplete` | src/downloader/downloader.cpp:40-90 | with one content info for the request a session that ends without error was told its files and each of them received its final part |
| `Downloaders.DownloadFinishesIff` | src/downloader/downloader.cpp:145-208 | a download in which nothing goes wrong is finished if and only if it was told at least one file and every file it was told received its final part |
| `Downloaders.ErrorsFinish` | src/downloader/downloader.cpp:210-217 | whatever goes wrong ends the download |
| `Downloaders.ChunkOutcome` | src/downloader/downloader.cpp:92-165 | what a chunk is answered, and that only a failing one sets the error of the download |
| `Downloaders.InfoOutcome` | src/downloader/downloader.cpp:167-193 | a content info of another request is refused, a failed one ends the download, and any other only adds results |
| `Downloaders.OwnPartsIff` | src/downloader/downloader.cpp:92-165 | the final parts that complete a download were sent for its request if and only if every final part that arrived meanwhile was |
| `Downloaders.StalePartCompletes` | src/downloader/downloader.cpp:92-165 | a final part sent for another request can complete a download |
| `Downloaders.FileContent` | src/downloader/downloader.cpp:92-165 | with no chunk after the final one, a file is its chunks in order of arrival followed by what a longer old file had beyond them; it is exactly the chunks if and only if the old file was not longer |
| `Downloaders.RunGrowing` | src/downloader/downloader.cpp:133-155 | while chunks arrive the file and its position follow the bytes received |
| `Downloaders.RunProgress` | src/downloader/downloader.cpp:145-162 | only files that received their final part count as done, over every run |
| `Downloaders.Downloader.Request` | src/downloader/downloader.cpp:43-63 | a new session with the next request number and no results; without a timer no request is made |
| `Downloaders.Downloader.Finish` | src/downloader/downloader.cpp:65-89 | succeeds exactly when the session has no error, the timer stops and every file left open closes |
| `Downloaders.Downloader.IsAllDownloadDone` | src/downloader/downloader.cpp:199-208 | true exactly when every announced file is done |
| `Downloaders.Downloader.ReceiveImageContentInfo` | src/downloader/downloader.cpp:167-193 | the content-info step of the session |
| `Downloaders.Downloader.ReceiveFileChunk` | src/downloader/downloader.cpp:92-165 | the chunk step of the session |

## Left out

- ChannelProtocol.Run: readers and the manager in ProcessData are steps of a state machine on values, because they run on different threads; buffers are sequences there. Closing a channel, deleting one and reconnecting are not steps, so nothing is claimed across a reconnect.
- ChannelManagers.ChannelManager.ProcessData: how each wait for the reader ends is given; where the pieces land in the reader's buffer is in ChannelProtocol.
- ChannelDelivery.Delivery: after a time-out the rest of that frame is dropped, so only a prefix of its payload is claimed.
- Channels.Channel.Read: waits are given as the sequence of hand-offs that end them; the interleavings are in ChannelProtocol.
- ChannelManagers.ChannelManager.HandleRead: the wait for a first channel is not modelled; whether the manager closes is looked at between two frames, as in the code.
- Transports.Transport.Read: a result of zero and a wait for more bytes at the end of the stream are not modelled; the loops of the code would go on asking, so every operation here moves a byte or fails.
- Transports.Transport.Write: a result of zero is not modelled, for the same reason.
- PBHandlers.PBHandler.Run: one connection; connecting, starting and stopping are not modelled, and a message above the receive buffer is dropped without skipping its body, as in the code.
- EndToEnd.MessageRoundTrip: messages within the receive buffer and the read buffer, plaintext channels, no time-out of the manager's wait for the reader of the port itself; that threads do go on is not claimed, only that they can.
- Deadlock freedom and lock order: not claimed.
- FSBackends.FSBackend.Init: after a renumbering with a clash the contract gives the directory but not the log; RestartSafeIff, RestartAcrossTenIff and ClashLoses say when that happens and that a file is lost.
- FSBackends.FSBackend.WriteBuffer: short writes, failing closes and foreign files are excluded.
- MakeRoom, Renumber, StartFile, GetSpace, WriteBuffer, StartFrom, RestoreKept and RenumberAndOpen are parts of AllocateNewLogFile, WriteToFile and Init; HandleAll is a caller that logs one message after another.
- FSLogReaders.FSLogReader.Reset: with more names than the list holds nothing is said of the lines that follow.
- FSLogReaders.WriteThenRead: lines shorter than a log entry and fed whole; longer ones are cut by the backend.
- LogPacking.PartsConserve: entries that with their newline fit one part; larger ones depend on how the string library refuses to append.
- LogProviders.LogProvider.HandleLogRequest: queueing, subscription of the observer, and the message type of a part are not modelled.
- FileStorages.FileStorage.Init: the header's checksum is computed but never stored; the header is any 296 bytes.
- FileStorages.FileStorage.Update: durability is not modelled; the code does not reopen the file after a successful update.
- Storages.KeyedDatabase.GetAll: conversion between stored and exposed records is not modelled; the same method stands for the service and layer listings.
- ClockSyncs.ClockSync.ClockSyncNotification: the subscriber list is one history of notifications.
- ClockSyncs.ClockSync.Stop: joining the worker thread is not modelled; SilentAfterStop says what holds once it has returned.
- SMClients.NoLostCertificateChange: the channel thread is a state machine on values; its set-up and release are also methods, proved to be steps of that machine.
- NodeStates.StatusAgreement: the IAM channel thread is a state machine on values; a failing set-up, certificate subscription and TLS are one outcome.
- Downloaders.DownloadComplete: a timer that expires before the wait begins is forgotten by the code and is excluded; at most 32 files.
- TLS, sockets, vchan, certificates, protobuf encoding, OCI and node configuration, images, runner, network and monitoring: foreign libraries, plumbing or copying of fields.
