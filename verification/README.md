# Linux Defender: a verified model

Linux Defender has four programs: a kernel driver, a backend that runs file and network scans,
a server that keeps two blacklists, and a desktop client. This project models the parts of them
that carry state, protocols and text formats, and proves what they promise each other.

- **The driver's execve queue** (`HookRuns`, `HookSteps`, `HookSafety`, `HookAccounting`,
  `HookIds`, `HookSolo`, `HookQueue`). The linked list is modelled twice. `HookQueue` has the
  cells and the pointer surgery as classes, one call at a time. `HookRuns` has an explicit heap
  and cuts every call into steps with at most one access to the list or its mutex, interleaved by
  an arbitrary schedule of any number of callers and readers; the increment of `hook_id` and its
  wrap-around check are one step each. `HookSteps` has what each step keeps and `HookSafety` what
  holds in whole runs. `HookSolo` ties the two: a call that is not interrupted has the same
  effect in both.
- **The driver's syscall table** (`SyscallTable`): hijack, snapshot, compare, repair, the write
  bit of the page, and whole runs from load to unload with outside tampering.
- **The driver's ioctl entry** (`DriverIoctl`, `IoctlPromises`): requests of many clients through
  one `result` word, each evaluated in one step and stored in another, over the classes of the
  two groups above.
- **Frames and sessions** (`Wire`, `Session`, `SessionReplies`): the frame format with its
  writers and reader, and the request loops of backend and server up to a whole client session.
- **File scans** (`Listing`, `LogText`, `Blacklist`, `ScanPipeline`, `VirusTable`,
  `ScanPromises`, `ScanAgreement`, `ScanScope`, `ScanTexts`, `ScanLoops`, `HashQuestion`):
  directory walk, digests, the question to the server, text log, log reader, result maps, and
  what quick and full scan say about the same file.
- **Network results** (`Spoofing`, `Accumulators`, `AccumulatorHistory`): the spoofing counters
  and report, and the two accumulators shared by the periodic thread and the scan requests.

Imperative code is a class or a method with loops, proved equal to a function; the main results
are lemmas about these functions, over all inputs, runs or schedules. `dafny verify
dfyconfig.toml` checks everything.

## Where the code does less than it seems to promise

Each of these has a lemma with the exact condition, or a run in which the promise fails.

- `new_execve` never sets `next`, and `kmalloc` does not clear memory. The queue is intact after
  every step of a run exactly when every record it inserts happens to have a null `next`
  (`RunsRefineIff`); one call with another `next` is enough to break it (`JunkBreaksQueue`). What
  is said below about the queue in whole runs is for runs that insert null `next` words only.
- GET_HOOK dereferences null exactly when every appended record had been popped
  (`NullDereferenceIff`).
- `hook_id` is read before and bumped after the critical section. The ids follow each other
  exactly when every call that gets memory finds no other call before its increment and the
  counter within its range (`IdsInTurnIff`). Otherwise calls can repeat an id
  (`OverlapRepeatsId`) or hand out 10000 (`IdCanLeaveRange`).
- `fix_sct` accepts one index too many and then writes the word behind the table
  (`FixStaysInTableIff`).
- A client can collect another client's answer, even that of a request evaluated before its own
  (`OwnAnswerIff`, `ScanCanBeMisreported`, `EarlierKillCanOverwrite`).
- The client and the Python scanner take the frame length from the text, not from its bytes.
  Both are right exactly for ASCII text (`SendMsg`, `PythonFrameIff`). The scanner only ever sends
  hex digests within fixed ASCII text, so its requests are always right (`QuestionIsFrame`).
- A proxied request gets no reply when the server is down (`OneReplyEachIff`).
- A scan log is read back as written exactly when no path contains '@'. A newline in a path does
  no harm (`LogRoundTripIff`, `HashScanExactIff`, `YaraScanExactIff`).
- The full scan covers the paths of the quick scan, and every key of a quick map is a key of the
  full one (`FullCoversQuick`). But the full scan can say less: with a listed file `x` next to a
  directory `x@z` that holds a file, the quick scan reports `x` and the full one clears it
  (`SubdirectoryHidesVerdict`). For given directories the two agree on a name, whatever the
  contents and the table, exactly when both verdicts come from the digest of the same file, or
  both are fixed by text of paths and are the same (`HashAgreeIff`, and `YaraAgreeIff` for the
  rules), for example when no other file of the full scan is read as that name (`OwnLineAgrees`).
- A clear removes what is pending, also what the scan that clears has not copied. Nothing is lost
  in a run exactly when each clear finds nothing pending, or some scan that has copied since the
  last append and has not cleared yet (`NothingLostIff`, `ClearLoses`). With scans that do not
  overlap these are the records appended between a scan's copy and its clear
  (`AccumulatorConservation`); an overlapping scan can save them (`OverlapSavesRecord`).
- A record is delivered twice exactly when two delivering scans took copies with no clear in
  between (`DeliveredOnceIff`, `OverlapDeliversTwice`), and records leave in order exactly when
  the copies were made in the order of the clears (`DeliveredInOrderIff`).
- A clear of the spoofing map drops the sources first reported after the copy
  (`ClearDropsSources`).
- A hash scan inserts a listed file into the virus table under its own name only if that has no
  '@', and text of a path can make it insert another name (`FlagsExactIff`).
- The documentation lists request codes 103 and 104 as "free process" and "block process". The
  code uses 105 and 106 for them, and the model follows the code.

## Model

| member | source | states |
|---|---|---|
| HookSteps.ActionKeeps | Driver/spybot.c:313-375 | every single step of every caller or reader keeps the list a null-terminated chain, mutual exclusion, valid cursors, private ownership of records outside the list, and popped ++ list == appended |
| HookSafety.QueueRefinement | Driver/spybot.c:341-375 | in every run whose insertions find a null next word no thread uses a freed or unallocated address, and following the pointers from the head gives exactly the records appended and not yet popped, in order |
| HookSafety.RunsRefineIff | Driver/spybot.c:314-321 | the queue is intact after every step of a run if and only if every record was inserted with a null next word |
| HookSafety.JunkBreaksQueue | Driver/spybot.c:314-321 | from the initial state one call whose memory holds another next word, run alone, breaks the queue |
| HookSafety.ZeroingRefines | Driver/spybot.c:314-317 | when every allocation hands out memory whose next word is null, the queue is intact after every step of the run |
| HookSafety.ZeroingIsClean | Driver/spybot.c:314-317 | such a run inserts only records with a null next word, and none still outside the list has another |
| HookSafety.MutexExcludes | Driver/spybot.c:319-321 | in every run, also when the list is broken, a thread is in a critical section exactly while it holds the mutex |
| HookSafety.OnlyHolderWrites | Driver/spybot.c:319-321 | in every run, also when the list is broken, only the thread that holds the mutex changes the head or the next word of a record in memory |
| HookSafety.InsertKeepsQueueIff | Driver/spybot.c:314-321 | the write that inserts a record keeps the queue intact if and only if the record's own next word is null |
| HookSafety.OnlyHolderChanges | Driver/spybot.c:319-321 | in every run with clean insertions a step changes the list only if its thread holds the mutex, and then by one record at the tail or one at the head |
| HookSafety.NullDereferenceIff | Driver/spybot.c:229-246 | in every run with clean insertions a thread is bound to dereference null exactly after reading the head of a queue from which everything appended was popped, or after a failed allocation |
| HookSafety.AlwaysProgress | Driver/spybot.c:313-332 | no reachable state is stuck: while a thread is inside a call some thread can move, so a thread that died has not kept the mutex |
| HookSolo.HolderReleases | Driver/spybot.c:319-321 | a thread that holds the mutex has released it by the time it has taken 2 n + 4 steps of its own, where n is the length of the list, whatever other threads do in between |
| HookSolo.TraversalEnds | Driver/spybot.c:341-356 | the recursion of add_hook reaches the slot at the end of an n-record list after 2 n steps, or one step on an empty list, and has changed nothing |
| HookSolo.ExecveAlone | Driver/spybot.c:313-332 | new_execve without interruption appends one record with the current id and advances the id with wrap-around, as HookQueue.NewExecve does, and leaves the list ending in whatever the allocated memory held |
| HookSolo.GetHookAlone | Driver/spybot.c:229-246 | GET_HOOK without interruption frees and removes the first record, or dies on an empty queue, as HookQueue.GetHook does |
| HookAccounting.RecordAccounting | Driver/spybot.c:314-321 | in every run with clean insertions each allocated record is in exactly one of four places (creator, list, popper, freed) and none is freed twice |
| HookAccounting.UnloadDrains | Driver/spybot.c:538-541 | the unload loop empties the list within as many rounds as it has records and touches no other record |
| HookAccounting.UnloadFrees | Driver/spybot.c:538-541 | the unload loop frees the records of the list in order, oldest first |
| HookAccounting.UnloadFreesAllIff | Driver/spybot.c:538-541 | unloading after any run with clean insertions frees the queued records in order, and every record ever allocated if and only if no thread was holding one |
| HookIds.IdsInTurnIff | Driver/spybot.c:313-332 | in every run the i-th record allocated gets id 1000 + i mod 9000, for all i, if and only if every call that gets memory finds no other call before its increment and the counter within its range |
| HookIds.RecordsAreIssued | Driver/spybot.c:314-317 | in every run each record in memory is the one issued under its serial number |
| HookIds.UnhurriedQueueIds | Driver/spybot.c:313-332 | when no call starts too early the queue is a consecutive cyclic run of ids, and these are distinct if and only if at most 9000 records wait |
| HookIds.OverlapRepeatsId | Driver/spybot.c:317-326 | two calls that get their records with no increment or wrap-around of the counter in between get the same id, whatever else runs between them |
| HookIds.IdRange | Driver/spybot.c:326-329 | in every run the counter is at least 1000, and above 9999 only while some thread stands between its increment and its wrap-around check |
| HookIds.IdCanLeaveRange | Driver/spybot.c:326-329 | a run from the initial state in which a record gets id 10000 |
| HookIds.StepIdShape | Driver/spybot.c:326-329 | which step of a call inserts its record, bumps the counter or wraps it, and that no other step touches the counter |
| HookQueue.HookList.AddHook | Driver/spybot.c:341-356 | the recursion over slots appends the record at the tail, changes no record's data, and leaves the list ending in whatever the record's next word held |
| HookQueue.HookList.PopHook | Driver/spybot.c:364-375 | returns and removes the first record, or null on an empty list |
| HookQueue.HookList.NewExecve | Driver/spybot.c:313-332 | with memory, one fresh record with the current id, pid and parent pid is appended and the id advances with wrap-around, and the queue is intact if and only if that memory held a null next; without memory nothing changes before the null dereference |
| HookQueue.HookList.GetHook | Driver/spybot.c:229-246 | gives the first record's data and removes it, or the null dereference on an empty list |
| HookQueue.HookList.Cleanup | Driver/spybot.c:538-541 | terminates, frees exactly the queued records in order, leaves the list empty |
| SyscallTable.Driver.SyscallHijack | Driver/spybot.c:272-287 | saves and replaces the execve entry between opening and closing the page |
| SyscallTable.Driver.RemoveSyscallHijack | Driver/spybot.c:292-304 | writes the saved entry back between opening and closing the page |
| SyscallTable.Driver.SetPageRw | Driver/spybot.c:400-414 | sets the write bit unless the entry is zero, and no other bit |
| SyscallTable.Driver.SetPageRo | Driver/spybot.c:382-393 | clears the write bit and no other |
| SyscallTable.Driver.Load | Driver/spybot.c:112-116 | hijack first, then snapshot |
| SyscallTable.Driver.CreateTempSct | Driver/spybot.c:421-428 | copies every entry of the table and not the word behind it |
| SyscallTable.Driver.CompareScts | Driver/spybot.c:437-453 | the comparison loop computes the function of CompareIsLeast and changes nothing |
| SyscallTable.Driver.FixSct | Driver/spybot.c:461-481 | restores the entry from the snapshot for every accepted index, including the one past the end, and reports whether it was accepted |
| SyscallTable.CompareIsLeast | Driver/spybot.c:437-453 | the comparison reports the least differing entry, and -1 if and only if no entry differs |
| SyscallTable.ScanRepairReports | Driver/spybot.c:437-481 | from any tampered table, alternating scan and repair reports exactly the differing entries, once each, in increasing order |
| SyscallTable.ScanRepairConverges | Driver/spybot.c:437-481 | that loop ends with the table equal to the snapshot, the word behind it untouched, and a clean scan |
| SyscallTable.FixStaysInTableIff | Driver/spybot.c:465-471 | a repair leaves the word behind the table alone if and only if its argument is not the number of syscalls, or the two stray words agree |
| SyscallTable.NeverTraps | Driver/spybot.c:272-304 | over any run of load, tampering, scans, repairs and unload no store finds the page read-only, and the page is read-only after each operation |
| SyscallTable.LoadSettles | Driver/spybot.c:112-116 | load saves the execve word, writes the hook into it and nothing else into the table, and copies the entries and not the word behind them into the snapshot |
| SyscallTable.EventWords | Driver/spybot.c:461-481 | a tampering, a scan and a repair word by word: which word they write, and that they touch neither the other words nor the snapshot |
| SyscallTable.CleanAfterLoad | Driver/spybot.c:112-116 | the scan right after load reports nothing, because the snapshot is taken after the hook |
| SyscallTable.UnloadRestoresIff | Driver/spybot.c:292-304 | unload always restores the execve entry, and the whole table if and only if no other entry differs from the snapshot then; a clean scan suffices |
| DriverIoctl.Spybot.SpybotIoctl | Driver/spybot.c:174-267 | the new device state and the reply for every command, option and failed copy, over the queue and table classes |
| IoctlPromises.RepairRestores | Driver/spybot.c:217-221 | SEND of a repair makes the named word of the table that of the snapshot and changes no other word, the snapshot or the queue, and RECV answers 1; for any other argument only the answer changes, to 0 |
| IoctlPromises.ScanAnswers | Driver/spybot.c:211-215 | SEND of a scan changes only the answer, to the least entry that differs from the snapshot, or -1 if none does |
| IoctlPromises.SignalAnswers | Driver/spybot.c:193-227 | KILL, SUSPEND and CONT answer 1 exactly when the task exists, IDT_SCAN what it found, and nothing else changes |
| IoctlPromises.HookIsOldest | Driver/spybot.c:229-246 | GET_HOOK replies the oldest record and removes only it |
| IoctlPromises.RefusedChangesNothing | Driver/spybot.c:182-267 | failed copies, unknown options and unknown commands change nothing and reply EFAULT, EINVAL and ENOTTY |
| IoctlPromises.RepairAllRestores | Driver/spybot.c:211-260 | a client that alternates scan, RECV and repair of the answer ends with the table equal to the snapshot, within as many rounds as there are entries |
| DriverIoctl.Spybot.Request | Backend/RequestHandler.cpp:218-233 | an undisturbed SEND and RECV answers the request's own outcome, and 0 when the device does not open |
| DriverIoctl.WholeCall | Driver/spybot.c:174-267 | a request whose evaluation and store follow each other does what the entry does as a whole |
| DriverIoctl.RecvAnswersLatest | Driver/spybot.c:184-260 | after any interleaving of evaluations and stores of any clients RECV answers what the latest store stored, the outcome its request had when it was evaluated, or the initial value |
| DriverIoctl.OwnAnswerIff | Backend/PeriodicScanHandler.cpp:241-256 | a client whose request was stored collects its own outcome if and only if no store came later, or the last one stored the same value |
| DriverIoctl.UndisturbedScan | Backend/PeriodicScanHandler.cpp:262-279 | a scan that no later store follows reports -1 if and only if the table was clean when it was evaluated, whatever came before its store |
| DriverIoctl.ScanCanBeMisreported | Backend/PeriodicScanHandler.cpp:262-279 | a failed kill by a second client after the store makes the scan of a clean table report entry 0 |
| DriverIoctl.EarlierKillCanOverwrite | Driver/spybot.c:184-213 | so does a failed kill that was evaluated before the scan and stored after it |
| Wire.FrameRoundTrip | Backend/Helper.cpp:69-90 | reading a written frame gives back code, body and the rest of the stream |
| Wire.LittleEndianIs | Backend/JsonResponsePacketSerializer.cpp:19 | the four length bytes are those of the length, least significant first |
| Wire.FrameBytes | Backend/JsonResponsePacketSerializer.cpp:10-23 | the position of each part of a frame: the code, byte j of the length as the j-th base-256 digit, the body |
| Wire.Utf8Bytes | Backend/scans/hash-scanner.py:50 | the UTF-8 bytes of a code point, by lead byte and payload bits as in section 3 of RFC 3629 |
| Wire.ReadIsVerbatim | Backend/Helper.cpp:82-89 | the frame rebuilt from what was read is byte for byte what was on the stream |
| Wire.StreamRoundTrip | Backend/Helper.cpp:69-90 | reading the concatenated frames of any messages gives back exactly these messages and uses every byte |
| Wire.StreamIsVerbatim | Backend/Helper.cpp:69-90 | a readable stream is the concatenation of the frames read from it |
| Wire.StreamsUniquelyDecodable | Backend/Helper.cpp:69-90 | two lists of messages with the same bytes are the same list |
| Wire.SerializeResponse | Backend/JsonResponsePacketSerializer.cpp:10-23 | the three copies fill the buffer with the frame of the low code byte and the body |
| Wire.Socket.GetPart | Backend/Helper.cpp:10-28 | a read advances the stream by the count asked for |
| Wire.GetAllTheSocket | Server/Helper.cpp:52-74 | the reader succeeds exactly when a whole frame with a non-negative length is there, consumes exactly it, and rebuilds it verbatim |
| Wire.SendMsg | UIclient/Communication.cs:46-65 | the client's writer produces the same frame as the C++ one if and only if the text is ASCII; otherwise it throws before writing |
| Wire.PythonFrameIff | Backend/scans/hash-scanner.py:36-51 | the receiver of a text from the Python writer has nothing left over if and only if the text is ASCII, and then the bytes are the C++ frame |
| Session.BackendHandler | Server/Server.cpp:89-117 | the server's loop over one connection computes the final state and the bytes sent back |
| Session.HandleServerRequest | Backend/Backend.cpp:142-168 | one proxied request: the server's first reply frame goes to the client, nothing when the server is down |
| Session.ClientHandler | Backend/Backend.cpp:96-133 | the backend's loop over one client connection computes the final states and the bytes sent to the client |
| Session.HandlePacket | Backend/Backend.cpp:107-126 | one packet: error reply, backend handler or proxy, by the request id |
| Session.ServerReply | Server/Server.cpp:101-110 | one packet at the server: error reply or handler, by the request id |
| Session.SessionIsFaithful | Backend/Backend.cpp:96-168 | for every stream of well-formed requests, one reply frame per answered request, in order, with code request + 100, or 1 for an irrelevant id; proxied requests and replies are byte for byte a direct conversation with the server |
| SessionReplies.ByNumber | Server/Server.cpp:101-110 | which request numbers each side handles, passes on or rejects, and the code of each reply |
| SessionReplies.SessionReplies | Backend/Backend.cpp:96-168 | for every stream of well-formed requests the client gets exactly these replies: each with the body that its handler computes in the state the requests before it left, and with the code of its number; the final states are those of the last handlers |
| SessionReplies.ServerReplies | Server/Server.cpp:89-117 | the same for a connection to the server itself |
| SessionReplies.PartialFrame | Backend/Backend.cpp:128-132 | a stream that breaks off inside a frame is answered up to there |
| Session.OneReplyEachIff | Backend/Backend.cpp:151-156 | every request is answered if and only if the server is up for each proxied one |
| Session.ClientReads | UIclient/Communication.cs:83-97 | the client can read its input as frames, as many as requests if and only if the server was up when needed, with the promised codes |
| Session.MalformedEndsSession | Backend/Backend.cpp:128-132 | a malformed body ends the session: earlier replies stand and nothing later is answered |
| Listing.GetDirFiles | Backend/scanner.py:20-35 | the loops over the walk build the listing, and stop after the top directory when asked to |
| Listing.ListingExact | Backend/scans/hash-scanner.py:9-24 | the recursive listing has the path of every file below the directory, nothing else, and none twice |
| Listing.TopListingExact | Backend/scanner.py:27-33 | the listing without subdirectories has the paths of the directory's own files, in their order, all of them and none twice; what is no directory has none |
| Listing.ListingOrder | Backend/scanner.py:20-35 | the recursive listing has the directory's own files first, then each subdirectory that is no link with all below it |
| Listing.PathIsJoin | Backend/scanner.py:29 | the path of a file is the root, a '/' if it lacks one, and the names joined by '/' |
| Listing.PathInjective | Backend/scanner.py:29 | different name sequences give different paths |
| Listing.TopIsPrefix | Backend/scanner.py:31-33 | the listing of the top directory is a prefix of the recursive one |
| LogText.TextStream.GetLine | Backend/PeriodicScanHandler.cpp:118 | one getline with its end-of-file and failure flags |
| LogText.ReadRecords | Backend/PeriodicScanHandler.cpp:115-131 | the two-delimiter loop, decided by its second call alone, reads the records of the text |
| LogText.RecordsStep | Backend/PeriodicScanHandler.cpp:118-128 | one turn of the reader: name up to the delimiter, value up to the newline, and the rest |
| LogText.RecordsEnd | Backend/PeriodicScanHandler.cpp:118-128 | how a text can end: no delimiter or nothing after one gives no record, and a last value needs no newline |
| LogText.WriteLog | Backend/scans/hash-scanner.py:134-136 | the writer loop produces the log of the entries |
| LogText.LogRoundTripIff | Backend/PeriodicScanHandler.cpp:118-128 | a log is read back as written if and only if no name contains the delimiter and no value a newline |
| LogText.SplitJoinIff | Backend/PeriodicScanHandler.cpp:176-183 | a list of rule names survives join and split if and only if no name contains '-' and the last is not empty; the empty list survives |
| LogText.NamesIgnoreValues | Backend/PeriodicScanHandler.cpp:171-186 | the names read from a log depend on the names written and not on the values, whatever characters they contain |
| LogText.RecordsAreExpanded | Backend/PeriodicScanHandler.cpp:118-128 | whatever characters the names contain, a log is read line by line, each line cut at delimiters and the newlines after them |
| Blacklist.Table.IsMalicious | Server/SqliteHelper.cpp:69-88 | a query is positive if and only if the value is in the table |
| Blacklist.Table.Add | Server/SqliteHelper.cpp:98-139 | a save that the database accepts appends one row, also for a value that is there already; one that it refuses returns false and changes nothing |
| Blacklist.Table.FeedTask | Server/Bazaar_Abuse.py:37-51 | the insert-if-absent loop over the kept lines |
| Blacklist.FeedAddsNew | Server/Blocklist.py:36-50 | a feed run keeps the old rows and appends exactly the kept lines not listed before, once each, in the order of first occurrence |
| Blacklist.FeedsByLine | Server/Bazaar_Abuse.py:18-24 | after a run of the address feed every line of it is listed, after one of the hash feed every line that does not start with '#', and nothing else is new |
| Blacklist.FeedRows | Server/SqliteHelper.cpp:21-22 | the rows that a run adds carry its day and the name of its feed |
| Blacklist.SaveAppends | Server/SqliteHelper.cpp:98-139 | an accepted save appends one row with its value, day and source, under an id greater than all others |
| Blacklist.SecondRunChangesNothing | Server/Bazaar_Abuse.py:45-49 | running the same feed again changes nothing |
| Blacklist.QueryIffInserted | Server/SqliteHelper.cpp:42-139 | over any mix of feed runs, saves and queries, a query is positive if and only if the value was ever inserted |
| ScanPipeline.HashScanVerdicts | Backend/PeriodicScanHandler.cpp:94-135 | for paths with any characters, the keys of the hash map are the names that some scanned file is read as, and the verdict on a name is that of the last line read as it |
| ScanPipeline.HashScanExactIff | Backend/PeriodicScanHandler.cpp:94-135 | the hash map has exactly the scanned files as keys, true exactly for digests in the table, if and only if no scanned path contains '@' |
| ScanScope.SingleFilesScanned | Backend/RequestHandler.cpp:78-85 | a scan of single files covers the files that the request names, and the yara scan none of them when no rule compiled |
| ScanScope.FoldersScanned | Backend/RequestHandler.cpp:86-107 | a folder scan covers exactly the files below the named directories, or directly in them when it is not recursive |
| ScanScope.SingleFileVerdict | Backend/scans/hash-scanner.py:81-88 | the hash map of one file without '@' has that file as its only key, true exactly when its digest is in the table |
| ScanScope.SingleFileRules | Backend/scanner.py:80-99 | the yara map of one file has that file with its rules as the only entry, or nothing when no rule compiled |
| ScanTexts.SingleFileLogs | Backend/scans/hash-scanner.py:134-136 | the text of the log that each scanner leaves for one file |
| ScanTexts.RuleNamesInOrder | Backend/scanner.py:55-78 | the names of a file are those of the rule files one after the other, and RuleNamesOfOne gives that of one |
| ScanTexts.DedupOrder | Backend/scans/hash-scanner.py:105-109 | the dictionary keeps each file once, at its first place |
| ScanTexts.LinesInOrder | Backend/PeriodicScanHandler.cpp:94-118 | the logs are read path after path |
| VirusTable.FlaggedByMember | Backend/PeriodicScanHandler.cpp:121-124 | for paths with any characters, a scan makes an insert of a name into the virus table exactly when some scanned file's line has a record of that name with verdict 1 |
| VirusTable.FlagsExactIff | Backend/PeriodicScanHandler.cpp:121-124 | these inserts are of exactly the scanned files whose digest is in the table, if and only if no listed path contains '@' and no text of a path reads as a verdict of 1 on another name |
| VirusTable.Viruses.Update | Backend/Helper.cpp:98-117 | an insert that the database accepts adds one row with the name and its time stamp, a refused one returns false and changes nothing |
| VirusTable.RowsMember | Backend/Helper.cpp:98-117 | a name is in the table exactly when some insert of it was accepted |
| ScanPromises.YaraScanRules | Backend/PeriodicScanHandler.cpp:145-193 | for paths with any characters and rule names without newlines, the keys of the yara map are the names that some scanned file is read as, and the rules of a name are those of the last line read as it |
| ScanPromises.YaraScanExactIff | Backend/PeriodicScanHandler.cpp:145-193 | the yara map gives exactly the scanned files their rule lists if and only if no path contains '@', no rule name '-' or a newline, and no list ends in an empty name |
| ScanPromises.ParseConfigData | Backend/config.cpp:11-21 | the full path list is the configured one followed by the quick one |
| ScanPromises.FullCoversQuick | Backend/RequestHandler.cpp:86-107 | for any configured paths, file names and rule names, each key of the hash or yara map of the quick scan is a key of the same map of the full scan |
| ScanAgreement.HashAgreeIff | Backend/RequestHandler.cpp:86-107 | for given directories, quick and full scan give a name the same verdict for every digest and table if and only if both verdicts come from the digest of the same file, or both are fixed by text of paths and are the same |
| ScanAgreement.YaraAgreeIff | Backend/RequestHandler.cpp:86-107 | for given directories, they give a name the same rules for every set of rules with newline-free names if and only if both lists are the matches of the same file after the same text, or both are fixed by text of paths and are the same |
| ScanAgreement.OwnLineAgrees | Backend/RequestHandler.cpp:86-107 | they agree on each name that no other file of the full scan is read as |
| ScanAgreement.SubdirectoryHidesVerdict | Backend/RequestHandler.cpp:86-107 | a listed file next to a directory named after it with '@' is reported by the quick scan and cleared by the full one |
| ScanPromises.LookupSucceeds | UIclient/Communication.cs:116-119 | each key of the yara map is a key of the hash map, for every scan type and for paths with any characters |
| ScanLoops.ServerHashScan | Server/RequestHandler.cpp:73-80 | one answer per hash, in order, 1 exactly for hashes in the table |
| ScanLoops.ScanDir | Backend/scans/hash-scanner.py:90-109 | digests, one question to the server and the zip give each listed file its own status |
| ScanLoops.ZipResults | Backend/scans/hash-scanner.py:105-109 | zipping the answers back gives each file its own answer |
| ScanLoops.ScanFile | Backend/scans/hash-scanner.py:81-88 | the single-file scan asks for one digest and reports one file |
| ScanLoops.HashScanner | Backend/scans/hash-scanner.py:111-136 | the hash scanner leaves the log of its results |
| ScanLoops.ScanRules | Backend/scanner.py:55-78 | the two loops collect the first rule name of each matching rule file, in order |
| ScanLoops.ScanYara | Backend/scanner.py:80-99 | folder and single-file scans, the latter empty when no rule compiled |
| ScanLoops.YaraScanner | Backend/scanner.py:101-125 | the yara scanner leaves the log of its results |
| ScanLoops.LoadHashes | Backend/PeriodicScanHandler.cpp:118-128 | records are put into the map in order, true exactly for the value 1, and an insert into the virus table is made for the names of those, in order |
| ScanLoops.LoadRules | Backend/PeriodicScanHandler.cpp:171-186 | records are put into the map in order, each value split into rule names |
| ScanLoops.BackendHashScan | Backend/PeriodicScanHandler.cpp:94-135 | the loop over paths, logs and records computes the hash map and the inserts into the virus table |
| HashQuestion.QuestionIsFrame | Backend/scans/hash-scanner.py:36-51 | every question of the scanner is the frame that the C++ reader expects, with its text as the body |
| HashQuestion.QuestionText | Backend/scans/hash-scanner.py:47-49 | the text of a question: its key, and where each digest stands in its quotes |
| HashQuestion.AnswerText | Server/JsonResponsePacketSerializer.cpp:45-51 | the text of an answer: one digit for each status, in order, and the status code |
| HashQuestion.QuestionDecodes | Backend/scans/hash-scanner.py:47-49 | different lists of digests have different request bodies |
| HashQuestion.AnswerDecodes | Server/JsonResponsePacketSerializer.cpp:45-51 | different lists of statuses have different reply bodies |
| HashQuestion.AskOverWire | Server/Server.cpp:89-117 | what the scanner sends makes the server's loop send back exactly one frame with the status of each hash in order, and leaves the table unchanged |
| ScanLoops.SplitValue | Backend/PeriodicScanHandler.cpp:176-183 | the inner getline loop splits a value into rule names |
| ScanLoops.BackendYaraScan | Backend/PeriodicScanHandler.cpp:145-193 | the loop over paths, logs and records computes the yara map |
| Spoofing.CountersExact | Backend/network_scans/spofing-scanner.py:39-63 | after any packets each counter is the number of packets matching its protocol and source, and no other source has one |
| Spoofing.ProtocolOfIs | Backend/network_scans/spofing-scanner.py:50-57 | the chain of tests finds a protocol exactly for that protocol's ports |
| Spoofing.Sniffer.PacketCallback | Backend/network_scans/spofing-scanner.py:39-63 | one packet bumps or starts one counter, or none |
| Spoofing.ReportIs | Backend/network_scans/spofing-scanner.py:78-81 | the report lists exactly the pairs that reached five packets |
| Spoofing.ReportByPort | Backend/network_scans/spofing-scanner.py:50-81 | the report has a line for a source and a printed name exactly when five packets or more went from it to the ports 23, 21, 22 and 2222, or 3389 of that name |
| Spoofing.LastByPort | Backend/PeriodicScanHandler.cpp:341-362 | the protocol a source is mapped to, by port number |
| Spoofing.SpoofingScanExactIff | Backend/PeriodicScanHandler.cpp:341-362 | the map of a round gives each reported source its last protocol in dictionary order, if and only if no reported source contains '-' |
| Spoofing.Sniffer.Sniff | Backend/network_scans/spofing-scanner.py:39-63 | the callback over a packet sequence leaves the counters of CountersExact |
| Spoofing.Sniffer.SuspiciousConnections | Backend/network_scans/spofing-scanner.py:77-81 | the nested loops build the report |
| Accumulators.NothingLostIff | Backend/RequestHandler.cpp:91-95 | with scans that overlap in any way, every record that a clear has removed is in a reply or in a copy still to be delivered if and only if each clear found nothing pending, or a scan that had copied since the last append and had not cleared |
| Accumulators.ClearLoses | Backend/RequestHandler.cpp:94 | a clear loses a pending record exactly when no scan that has yet to clear has copied it |
| Accumulators.AccumulatorConservation | Backend/RequestHandler.cpp:91-95 | with scans that do not overlap, records delivered then pending are a subsequence of those appended, and all of them if and only if none was appended between a scan's copy and its clear |
| Accumulators.OverlapSavesRecord | Backend/RequestHandler.cpp:102-106 | a run in which a record appended between the copy and the clear of one scan is delivered by another |
| Accumulators.DeliveredOnceIff | Backend/RequestHandler.cpp:91-95 | with scans that overlap in any way, what is delivered is what was appended at the positions of the delivered copies, and no position is delivered twice if and only if no two delivered copies with records in them started at the same position |
| Accumulators.DeliveredInOrderIff | Backend/RequestHandler.cpp:91-95 | the positions are delivered in increasing order if and only if the non-empty copies started later and later; then records delivered and pending are a subsequence of those appended |
| Accumulators.OverlapDeliversTwice | Backend/RequestHandler.cpp:102-106 | two overlapping scans both deliver a record that was appended once |
| Accumulators.InputsArrive | Backend/PeriodicScanHandler.cpp:66-79 | in every run the records appended and the rounds merged are those that the schedule hands over, in order |
| Accumulators.FirstRoundWins | Backend/PeriodicScanHandler.cpp:76-79 | in every run the accumulator has for each source the entry of the first of the schedule's rounds since the last clear that reported it |
| AccumulatorHistory.RunIsHistory | Backend/RequestHandler.cpp:91-95 | in every run the pending records, the replies and the rounds behind each delivered map follow from the schedule alone: a scan takes four steps, and each copy and clear covers what came before it |
| AccumulatorHistory.RoundAlone | Backend/PeriodicScanHandler.cpp:66-79 | an uninterrupted turn of the periodic loop, step by step, does what PeriodicRound does |
| AccumulatorHistory.ScanAlone | Backend/RequestHandler.cpp:91-95 | an uninterrupted scan, step by step, delivers both accumulators and leaves them empty, as TakeResults does |
| Accumulators.DeliveredMaps | Backend/RequestHandler.cpp:93-95 | with scans that overlap in any way, each spoofing map in a reply has exactly the sources reported between the last clear before its copy and the copy, each with its first entry |
| Accumulators.ClearDropsSources | Backend/RequestHandler.cpp:95 | the sources that a clear removes and its own reply lacks are those first reported after the copy, or, when another scan has cleared since, those reported since that clear and not before the copy |
| Accumulators.PeriodicResults.PeriodicRound | Backend/PeriodicScanHandler.cpp:66-79 | one turn of the periodic loop appends the packet records and merges the spoofing round without overwriting |
| Accumulators.PeriodicResults.TakeResults | Backend/RequestHandler.cpp:91-95 | an undisturbed scan takes both accumulators and leaves them empty |

## Left out

- IdRange: the increment of hook_id and its wrap-around check are one step each; two of them that lose each other's updates are not modelled.
- QueueRefinement: for runs that insert null next words only, which RunsRefineIff shows to be exactly the runs with an intact queue. The same holds for OnlyHolderChanges, NullDereferenceIff, AlwaysProgress, HolderReleases, RecordAccounting, UnloadFreesAllIff and UnhurriedQueueIds; MutexExcludes, OnlyHolderWrites, IdsInTurnIff and IdRange hold in every run.
- RecvAnswersLatest: the evaluation of an outcome is one step, although the scans and the repair read the table word by word.
- UnhurriedQueueIds: one direction; the queue can also look right by chance when a record with a wrong id was never inserted. IdsInTurnIff is the exact statement, about all records.
- GetPart: a read returns the full count asked for or the stream is over; short reads, closed peers and partial writes are not modelled.
- SessionIsFaithful: a body that the server's parser rejects closes the server connection, and what the backend then reads from it is not modelled, so proxied bodies are taken as well formed.
- AskOverWire: the server's JSON parser and printer are taken to do their part on these two texts, which QuestionDecodes and AnswerDecodes show to be unambiguous; the Python reader of the reply is not modelled further.
- YaraAgreeIff: for rule names without newlines; the YARA language allows none in a rule name. The same holds for YaraScanRules and LookupSucceeds.
- AccumulatorConservation: for scans that do not overlap; NothingLostIff is the statement for all. A copy and an append are single steps; the data race of the unsynchronised vector itself is not modelled.
- JSON parsing and printing: bodies are bytes, handlers are functions of state and body, and a predicate says which bodies parse.
- YARA matching, SHA-256, SQL text and shell quoting: uninterpreted functions and direct table operations.
- A file that disappears or cannot be read during a scan makes a scanner stop before it writes its log; the files of a scan are taken as readable and unchanged.
- Finding the page entry, signals to tasks, device registration, printk and the concurrent module unload: kernel code; the page entry is its write bit and the rest, the signal outcome a boolean.
- compare_idts: the same loop as compare_scts over 32 entries; its result is an input of the ioctl model.
- packetScan records and net-scanner.py: each record is an opaque string.
- The client's view of a reply (ASCII decoding, result lists), the backend's own two tables, open-port scan, view models, setup scripts and the feed scheduler.
