# Verification of the video storage server

The server records camera streams to disk, each recording as a record file with two index files, replays them, schedules
recordings by calendar, answers searches, chooses disks to record on and clears full ones. This project models that
logic in Dafny and proves what it keeps. `dafny verify dfyconfig.toml` checks everything.

## How it is laid out

| files | source | what they are about |
|---|---|---|
| CaptureSpec, CaptureSafety, CaptureRuns, CaptureEvents, CaptureRows, CaptureExample, Capture | css_capture.c | a recording session: packages in a queue, one asynchronous operation at a time, what the events make of it, and its database rows |
| RecordIndex, FrameGetter, RecordReplay, CaptureReplay | css_capture.c, css_frame_getter.c | the index files, the reader, and recording followed by replay |
| MysqlPool | css_db_mysql.c | the connection pool under all interleavings of any number of threads |
| Job, JobList, Scheduler | css_job.c | merging of time windows, on values and on linked nodes, and the timer-driven run |
| MergeWindows, TriggerMemory, TwoLists | css_job.c | the merging of two linked lists as it is written, with the nodes that are freed |
| Bytes, ProtocolPackage, Stream, Wire | css_protocol_package.c, css_stream.c | the message codec, TCP reassembly, and both together |
| SearchRecord | css_search_record.c | the search answer and a reader for it |
| LinkedList, DiskManager | css_linkedlist.c, css_disk_manager.c | the doubly linked list, and the choice of disks on top of it |
| TimeText, ClearDisk | css_util.c, css_clear_disk.c | fixed-width time texts, and the clearing of a disk |
| CalendarText | css_trigger.c | the day lists of calendars |
| IntegerText, CString, RestClient, Logger | css_util.c, css_restclient.c, css_logger.c | numbers as text, chunked bodies, log rotation |
| Arithmetic, Sequences, Options | | what several of these need |

A component that the source keeps in updated fields or linked nodes is a class with those fields here; each method says
which function of the old state the new one is, and the lemmas are about those functions. The session is the largest:
`Session` in Capture.dfy has the queue, the status, the offsets and the index buffers, and every callback is proved to do
the step of the state machine in CaptureSpec.dfy, with the files on disk byte for byte what the machine says. The
theorems about whole runs are then proved of the machine (CaptureRuns.dfy), or of the events alone (CaptureEvents.dfy),
and carried over (`Capture.Live`, `CaptureReplay.RecordThenReplay`).

## Where the code does less than it promises

Each of these is a lemma with the exact condition or a concrete input.

- While a file that is due is still being waited for, the next I-frame begins yet another one, however soon it comes; and a clock that is put back makes nearly every I-frame begin a file (`CaptureEvents.CutsAgain`, `CaptureEvents.NewFileIff`).
- A job's first trigger becomes the head of the list before its calendar is looked at, so it is recorded on rest days too (`Job.FirstTriggerIff`, `Job.RestDayRecorded`).
- Merging the lists of two jobs can free a node that is still linked. It does not exactly if each window of the second list but its last either touches the first list, or is followed by one that touches only the last window of the first, while at most one window of the second list starts behind the end of the first. Then the merged list is the one meant (`TwoLists.MingleTwoLists`, `MergeWindows.SurvivesIff`, `TwoLists.LosesNode`).
- The reader takes an empty frame for the end of the file, and stays there (`RecordReplay.ReplayAll`, `RecordReplay.StopsAtEmpty`).
- A job whose stream is closed while no file is open, but one has been asked for, leaves that file's row unavailable for ever (`CaptureRows.RowsEnd`, `CaptureRows.StoppedEarly`).
- Clearing a disk returns -1 when its last pass has made room, and always for zero days (`ClearDisk.CodeIff`, `ClearDisk.FailsWithRoom`, `ClearDisk.FailsWithoutDays`).
- A fixed string that is too short makes the encoded message shorter than the length allocated for it (`ProtocolPackage.EncodedLenIff`, `ProtocolPackage.ShortString`).
- A search answer with a name of 65536 bytes or more could not be read (`SearchRecord.ResponseRoundTripIff`, `SearchRecord.LongName`); names that this program stores are never that long (`SearchRecord.StoredNamesFit`).
- A received string length near 2^32 passes the bound check, and a string outside the buffer is handed out (`ProtocolPackage.FieldsInsideIff`, `ProtocolPackage.WrappedLength`).
- A package that is cut off is refused, but inside an octet string only after its NUL has been looked for behind the buffer (`ProtocolPackage.TruncatedRefused`).
- A stream that is closed while more than 500 packages wait, or 500 with a file open, never ends its session (`CaptureRuns.EndQueuedIff`, `CaptureRuns.FullQueueStays`).
- A range of week days that takes in 7 makes every first of a month a day off, as the write behind the week's table falls on the first day of the month (`CalendarText.Holiday`, `CalendarText.FirstOfMonth`).
- A plain HTTP body that quotes the header for chunks is taken for chunks, and is never returned as it is (`RestClient.ResponseBody`, `RestClient.QuotedHeader`).
- A stray name with the ending .log makes log rotation fail (`Logger.Directory.RenameOldLogs`, `Logger.StrayFails`).
- A usable disk whose name does not fit makes the choice of a disk fail, although others may do (`DiskManager.Manager.Choose`, `DiskManager.LongPath`).
- A delay of more than 4294967 seconds wraps around (`Scheduler.DelayExactIff`); starts within a day never do.

## Model

| member | source | states |
|---|---|---|
| CaptureRuns.RunSafety | src/css_capture.c:683-806 | After any run of callbacks: the session is idle exactly if its queue is empty; otherwise exactly one operation is outstanding, the one the head asks for; all accepted frames are those of the closed files, then those of the open file, then the queued ones, in order; a frame is only being written while its file is open |
| CaptureRuns.RunEnd | src/css_capture.c:1124-1165 | When a session is gone, wherever the stop fell, every file it asked for has been closed once, they hold exactly the accepted frames, and none is open |
| CaptureRuns.IncisionBeginsSegment | src/css_capture.c:914-931 | An I-frame for which a new file is due adds one file to the plan, which begins with the stored system header and that frame, and loses no frame |
| CaptureEvents.NewFileIff | src/css_capture.c:914-931 | A frame begins a new file exactly if it is of type 1 and 1200000 ms have passed, modulo 2^32, since the time of the file last begun; with the clock put back that is nearly always so |
| CaptureEvents.FrameMeans | src/css_capture.c:773-931 | Plan and accepted frames after any frame: [system header, if any, frame] as a new file, or the frame behind the others of the last file, unless more than 500 packages wait |
| CaptureEvents.OthersMean | src/css_capture.c:362-884 | No other event changes which frames go where; the answer of the server adds the first file, with no frame yet |
| CaptureEvents.HeaderStep | src/css_capture.c:886-931 | The stored system header becomes the frame exactly if its type is 0x80, and no other event changes it |
| CaptureEvents.RunHeader | src/css_capture.c:886-931 | After every run the stored system header is the last frame of type 0x80 among the events, if there was one |
| CaptureEvents.PlanGrows | src/css_capture.c:914-931 | An event asks for at most one file, and frames join only the last one |
| CaptureEvents.PlanAsked | src/css_capture.c:914-931 | Every file of the plan but the first begins with the last frame of type 0x80 among the events before the I-frame that asked for it, if there was one, and then that I-frame |
| CaptureEvents.RunSegments | src/css_capture.c:886-931 | Every closed file but the first begins with the last frame of type 0x80 among the events before the I-frame that asked for it, if there was one, and then that I-frame |
| CaptureEvents.RunOpens | src/css_capture.c:418-451 | Through every run, the time from which the 20 minutes count is that of the file last begun, and the files still in the queue have the times they were asked for at |
| CaptureEvents.RunStartTime | src/css_capture.c:418-451 | After every run, the time from which the 20 minutes count is the one that came with the event that asked for the file last begun |
| CaptureEvents.CutsAgain | src/css_capture.c:914-931 | While a file that is due has not been begun, the next I-frame, however soon, begins yet another one |
| CaptureExample.TwoFiles | src/css_capture.c:257-1165 | A whole run: for any system header, I-frame, and I-frame 20 minutes after the first file was asked for, the session ends with two files, header and frame each |
| CaptureExample.NextFile | src/css_capture.c:914-931 | From any waiting session an I-frame that is due, with the callbacks that follow, closes the open file and leaves header and frame in the next one |
| CaptureRuns.RunKeeps | src/css_capture.c:362-931 | The session invariant is kept by every run of any events that can happen |
| CaptureRuns.StepKeeps | src/css_capture.c:362-931 | The session invariant is kept by every single event |
| CaptureRuns.FrameStep | src/css_capture.c:886-931 | A frame from the server: the header is stored if it is one, a new file is begun if due, and the frame joins the queue of an open or planned file |
| CaptureRuns.WrittenStep | src/css_capture.c:632-681 | When a write completes, its file is open and its frame is the head of the queue; the frame then belongs to the file and the next package is started on |
| CaptureRuns.IifStep | src/css_capture.c:362-379 | When the third file is open the new files are empty and the package is done, unless the row has to be written first |
| CaptureRuns.StreamClosedKeeps | src/css_capture.c:756-771 | Closing the stream queues the closing of the open file and of the session, and keeps the invariant and the plan |
| CaptureRuns.CallbackProgress | src/css_capture.c:715-806 | Once the end is queued, if each file still to be closed stays below 2 GiB, one callback can come and no other, it lowers the work left, and the files still stay below |
| CaptureRuns.SessionEnds | src/css_capture.c:756-771 | From every state in which the stream is closed and each file still to be closed stays below 2 GiB (the session may be of any length), the outstanding callbacks end the session, at most four for each queued package |
| CaptureRuns.EveryRunEnds | src/css_capture.c:756-1165 | Every run whose stream has come to its end, if the files still to be closed stay below 2 GiB, goes on to the end of its session with at most four callbacks for each queued package; then the files are those of the plan and hold all accepted frames |
| CaptureRuns.EndQueuedIff | src/css_capture.c:756-789 | The closing of the stream queues the end of the session exactly if there is room for it: fewer than 500 packages wait if a file is open, at most 500 if none is |
| CaptureRuns.FullQueueStays | src/css_capture.c:756-789 | Without that room the end is ignored, and whatever comes then the session stays for ever |
| CaptureRows.StartRows | src/css_capture.c:486-518 | When work on the head begins, a file that a package of its own closes has its row still to be marked; one that the end closes keeps it as it is |
| CaptureRows.CompletionRows | src/css_capture.c:1337-1404 | Every callback keeps the rows: one for each file that has been opened and entered, available exactly if its file has been closed and the update has come |
| CaptureRows.EndRows | src/css_capture.c:756-771 | The closing of the stream settles whether the end will find a file open: exactly if none is open now and one has been asked for |
| CaptureRows.RowsEnd | src/css_capture.c:1124-1165 | When a job's session is gone, every closed file has one row, and each is available but the last one, which is not exactly if no file was open when the stream was closed |
| CaptureRows.StoppedEarly | src/css_capture.c:1124-1165 | A job stopped before its first file is open leaves a closed file with an unavailable row |
| CaptureSafety.StartKeeps | src/css_capture.c:715-752 | Starting on the queue, which may close files and go on to the next package at once, keeps the invariant and the plan |
| CaptureSafety.AddAndStartKeeps | src/css_capture.c:773-789 | A package added in an order that makes sense keeps the invariant, whether the queue was empty or busy |
| CaptureSafety.HeadDone | src/css_capture.c:791-806 | Working off the head moves its frame to the file, or its file to the closed ones, and changes neither the plan nor the accepted frames |
| CaptureSafety.ClosePackage | src/css_capture.c:486-518 | Closing the file keeps frames and plan, and either waits for the row or goes on at once |
| CaptureSafety.LastPackage | src/css_capture.c:1124-1165 | The closing of the session leaves no open file and only planned files behind |
| CaptureSafety.QueueLonger | src/css_capture.c:773-789 | A package at the end of the queue changes the files that the queue will make by just that package |
| Capture.Session.constructor | src/css_capture.c:257-277 | A new session is in the initial state, with no buffers |
| Capture.Session.PackageAdd | src/css_capture.c:773-789 | A package joins the tail unless the queue holds more than 500, and the count is the length of the queue |
| Capture.Session.RemoveHeader | src/css_capture.c:791-806 | The head goes, the next package is the head, and the count goes down |
| Capture.Session.DoPackage | src/css_capture.c:715-752 | The head is started if it has not been, as the specification starts it |
| Capture.Session.CloseFileWork | src/css_capture.c:486-518 | Both indexes are flushed and the three files closed once; then the row, or the next package |
| Capture.Session.CloseThree | src/css_capture.c:486-518 | The closed file set is the one the frames of the open file lay out, index buffers included |
| Capture.Session.Close | src/css_capture.c:1124-1165 | What is open is flushed and closed, the queue is dropped, the session is gone |
| Capture.Session.WriteCif | src/css_capture.c:579-630 | Flushed bytes and live buffer together grow by the frame's 20-byte record, whose offset is the frame's start in the record file; the .cif offset grows by 20 |
| Capture.Session.WriteIif | src/css_capture.c:530-577 | Flushed bytes and live buffer together grow by a 12-byte record that points at the frame's .cif record |
| Capture.Session.OnResponse | src/css_capture.c:864-884 | The server's answer opens the first file |
| Capture.Session.OnFrameIn | src/css_capture.c:886-931 | The frame callback does the step of the specification, and the files and buffers still hold what it says |
| Capture.Session.OnStop | src/css_capture.c:1096-1122 | The stop of a connected session stops reading and closes the stream |
| Capture.Session.OnStreamClosed | src/css_capture.c:756-771 | The stream's end does the step of the specification |
| Capture.Session.OnRecordOpened | src/css_capture.c:400-417 | The first of the three files is open, and the .cif file is asked for |
| Capture.Session.OnCifOpened | src/css_capture.c:381-398 | The second of the three files is open, and the .iif file is asked for |
| Capture.Session.OnIifOpened | src/css_capture.c:362-379 | All three are open: the file counts as open, and the row or the next package follows |
| Capture.Session.OnRowWritten | src/css_capture.c:1346-1399 | The row is written: the package is done |
| Capture.Session.OnWritten | src/css_capture.c:632-681 | The frame is in the record file, its index records are in the buffers, the offsets have grown, and the next package starts |
| Capture.Session.Handle | src/css_capture.c:362-931 | Every event that can happen does the step of the specification; files, buffers, offsets and queue stay what the specification says |
| Capture.Live | src/css_capture.c:257-1165 | For every run, the files a live session has closed are byte for byte the layout of the frames the specification gives them; when it is gone these are all accepted frames |
| RecordIndex.CifRecord | src/css_capture.c:579-630 | A .cif record has 20 bytes |
| RecordIndex.CifBytesOf | src/css_capture.c:579-630 | Where each part of the 20 bytes of a .cif record stands, and that it is the number written |
| RecordIndex.IifBytesOf | src/css_capture.c:530-577 | Where each part of the 12 bytes of an .iif record stands, and that it is the number written |
| RecordIndex.IifLength | src/css_capture.c:530-577 | The .iif file has 12 bytes for each frame of type 1, and none for others |
| RecordIndex.CifRoundTrip | src/css_frame_getter.c:219-233 | Decoding a .cif record gives back offset, length, type and time |
| RecordIndex.IifRoundTrip | src/css_frame_getter.c:206-217 | Decoding an .iif record gives back .cif offset and time |
| RecordIndex.RecordTiling | src/css_capture.c:655-678 | The frames tile the record file without gap or overlap, frame i at the sum of the earlier sizes |
| RecordIndex.CifEntryAt | src/css_capture.c:579-630 | Entry i of a written .cif file, decoded, is the start, length, type and time of frame i |
| RecordIndex.IifEntryAt | src/css_capture.c:530-577 | The entry of each I-frame in a written .iif file, decoded, is the offset of its own .cif record, and its time |
| RecordIndex.IndexAgreement | src/css_capture.c:530-678 | Following an .iif entry into the .cif file and that record into the record file leads to the I-frame's own bytes |
| FrameGetter.Chain.constructor | src/css_frame_getter.c:68-77 | An empty chain |
| FrameGetter.Chain.Move2Next | src/css_frame_getter.c:91-109 | The unread records lose their first; a finished bucket is released as soon as there is another; the end is reported exactly at the last record |
| FrameGetter.Chain.ReleaseHeaderBucket | src/css_frame_getter.c:111-122 | The first bucket goes, and its size with it |
| FrameGetter.Chain.RestByBucket | src/css_frame_getter.c:447-467 | How the number of unread records follows from the buckets: beyond the second bucket's size while two are live |
| FrameGetter.Chain.BuildCifQueue | src/css_frame_getter.c:180-204 | The bucket holds the decoded records of the buffer, in order, a partial one left off |
| FrameGetter.Chain.AddCifBucket | src/css_frame_getter.c:139-152 | The bucket's records follow the unread ones; sum and rest grow by their number; at most two buckets are live |
| FrameGetter.Getter.ReadCifBucket | src/css_frame_getter.c:357-387 | The next bucket is loaded exactly if records are left in the file, from where the last ended |
| FrameGetter.Getter.Refill | src/css_frame_getter.c:447-467 | After a refill more than the low level is loaded, or all there is; it fails exactly for an empty file |
| FrameGetter.Getter.NextFrame | src/css_frame_getter.c:438-516 | For every index that has a whole record or is empty and does not start with year 0, and every record file: the next record's bytes with its type and its time since the first record, in order; at an empty record, and once all whole records are read, end of file without an advance. Part of a record at the end of the index is passed over |
| RecordReplay.EntryOfLayout | src/css_capture.c:579-681 | The reader's view of a written file: record i says where frame i is, and reading there gives its bytes |
| RecordReplay.ReplayAll | src/css_frame_getter.c:438-516 | Replaying a written file gives its frames before the first empty one, each with its bytes, type and time since the first, in order; that is the whole recording exactly if no frame is empty |
| RecordReplay.StopsAtEmpty | src/css_frame_getter.c:469-500 | Of three frames, the second empty, the replay shows one |
| CaptureReplay.ClosedFilesRecordable | src/css_capture.c:886-931 | Every file that any run of a session closes is one the reader can take, given non-zero years and sizes that fit |
| CaptureReplay.RecordThenReplay | src/css_capture.c:486-681 | End to end: run a session on any events, replay any file it closed, and get back the frames that the run put there |
| MysqlPool.Init | src/css_db_mysql.c:30-47 | Ten permits, ten free slots |
| MysqlPool.StepInv | src/css_db_mysql.c:60-85 | The pool invariant is kept by every atomic step of any thread, with any number of threads; the release clears its slot outside the mutex |
| MysqlPool.RunInv | src/css_db_mysql.c:60-85 | The invariant holds after every interleaving |
| MysqlPool.PoolSafety | src/css_db_mysql.c:60-85 | In every interleaving no connection is held by two threads, and css_mysql_get never returns NULL |
| MysqlPool.PoolConservation | src/css_db_mysql.c:37-45 | In every interleaving free permits, threads past the wait without a slot, slots in use, and threads about to post add up to ten |
| MysqlPool.NotAllBlocked | src/css_db_mysql.c:60-85 | Whenever a thread is blocked, another one that is inside a call or holds a connection is not |
| MysqlPool.StepRank | src/css_db_mysql.c:60-85 | Every step but the start of a new call lowers the work left, so that scans do not go on for ever |
| MysqlPool.CallsComplete | src/css_db_mysql.c:60-85 | From every point of every interleaving all calls under way can be completed, with at most 17 steps for each thread, and then all ten permits and slots are free |
| MysqlPool.AnyOrderCompletes | src/css_db_mysql.c:60-85 | Any steps that calls take are no more than the ranks add up to, at most 17 for each thread, and where no call can go on all are complete |
| Job.InsertCovers | src/css_job.c:642-689 | Merging a window into any list covers the seconds of both and no others |
| Job.InsertSeparated | src/css_job.c:642-689 | Merging a window into a sorted, strictly separated list leaves one |
| Job.InsertPositive | src/css_job.c:642-689 | Merging positive windows makes no empty one |
| Job.Canonical | src/css_job.c:642-689 | Two separated lists of positive windows with equal cover are equal |
| Job.FoldMeans | src/css_job.c:520-555 | Folding in a job's windows gives a separated list that covers exactly the seconds of the windows |
| Job.CoversSeconds | src/css_job.c:642-689 | Covered are the seconds from a window's start on for its length, of any of the windows |
| Job.SeparatedGaps | src/css_job.c:642-689 | Separated are windows each of which starts behind the end of the one before |
| Job.EntriesHold | src/css_job.c:515-549 | The windows used are those of the first trigger and of all whose calendar asks for work |
| Job.OrderIndependent | src/css_job.c:520-555 | The merged list depends neither on the order of a job's windows nor on repetitions |
| Job.FirstTriggerIff | src/css_job.c:515-549 | The merged list covers what the wanted triggers ask for exactly if the first trigger is wanted too, or adds nothing: it becomes the head before its calendar is looked at |
| Job.RestDayRecorded | src/css_job.c:515-549 | A job whose only trigger is for a rest day is recorded all the same |
| JobList.EarlierFirst | src/css_job.c:655-664 | The two nodes exchange start and length if the cursor's starts later; list and pending window mean what they did |
| JobList.Absorb | src/css_job.c:666-671 | The cursor's node takes over the pending window |
| JobList.TakeNext | src/css_job.c:673-678 | The node behind the cursor is copied out and unlinked, and is the next to be merged |
| JobList.Append | src/css_job.c:681-684 | The pending node becomes the last |
| JobList.Turn | src/css_job.c:653-686 | One turn keeps list and pending node well formed, works towards the merged list, and shortens what is left |
| JobList.MingleToList | src/css_job.c:642-689 | The loop over linked nodes ends, leaves a well-formed list with the same head, whose windows are those of the merge specification |
| JobList.FromEntries | src/css_job.c:511-549 | The loop over a job's triggers builds the merged list of its first window and all later ones that are wanted |
| JobList.Copy | src/css_job.c:575-588 | A copy of new nodes with the same windows |
| MergeWindows.Again | src/css_job.c:653-686 | Merging a window that lies within one of the list changes no window, frees the node behind that one and makes a new last one |
| MergeWindows.InsertAllSettles | src/css_job.c:629-640 | Working in windows behind the last one gives the same list as letting the last one take over what it reaches |
| MergeWindows.InsertLast | src/css_job.c:653-686 | To a window behind the one worked in, the last window of the list looks the same before and after |
| MergeWindows.SurvivesIff | src/css_job.c:629-640 | The condition on the course of the merges is one on the two lists as they are at the start: behind a window that touches none of the first list comes nothing, or one that touches the last of that list only, and at most one window starts behind the end of that list |
| TriggerMemory.Memory.Turn | src/css_job.c:653-686 | One turn of the merging loop on nodes in memory, wherever they stand: exchange, taking over, copying out, freeing, linking; no freed node is touched |
| TriggerMemory.Step | src/css_job.c:653-686 | Every turn keeps what the loop needs, or ends it as Memory.Mingle says |
| TriggerMemory.Memory.Mingle | src/css_job.c:642-689 | Merging a node, in the list or not: the list is as the merge specification says, node for node, if the node is taken over (by the one before it, if it is in the list); else a node of the list has been freed while it is linked, or an outside node is now the last with all that is linked behind it. Every other node is as it was |
| TwoLists.ApartEnd | src/css_job.c:634-637 | A window of the second list that touches nothing takes the rest of that list with it: both are one list, in which the next merge starts |
| TwoLists.JointLeft | src/css_job.c:634-637 | If the next window touches the last one before it only, and at most one window is left over behind, the list has all windows and the rest of the second list is no longer in it |
| TwoLists.JointAstray | src/css_job.c:634-637 | If more are left over, those taken over are nodes outside that still lead into the list |
| TwoLists.AstrayOn | src/css_job.c:634-637 | Their merges change no window, and end at a node that is in the list |
| TwoLists.Pass | src/css_job.c:634-637 | Every pass of the loop goes on to a later phase or a shorter rest, ends with the merged list, or has freed a linked node |
| TwoLists.MingleTwoLists | src/css_job.c:629-640 | As it is written, for all pairs of separated lists: no linked node is freed exactly if the condition of MergeWindows.SurvivesIff holds, and then the list has the windows that working in one by one gives, is separated, and covers exactly the seconds of both lists |
| TwoLists.EitherOrder | src/css_job.c:691-708 | Two jobs of one channel, merged in either order, give the same list, if the condition holds both ways |
| TwoLists.LosesNode | src/css_job.c:629-640 | Recordings at 8, 10 and 12 o'clock, the last two in the second list: the last node is freed while the one before it points to it |
| TwoLists.NoHarm | src/css_job.c:629-640 | A second list of one window meets the condition, and so does one whose windows all touch the first |
| Scheduler.DelayExactIff | src/css_job.c:776-778 | The 32-bit delay is exact exactly if the wait is at most 4294967 seconds |
| Scheduler.DealMeans | src/css_job.c:770-806 | One call drops only windows that are over or recorded; it begins a recording exactly if now is covered, from now to the end of its window |
| Scheduler.DealArms | src/css_job.c:770-806 | On a separated list within range every delay armed is positive, exact, and leads to the start of the next window; 0 is returned exactly if nothing was left to do |
| Scheduler.BegunInside | src/css_job.c:770-806 | Calls at any times whatever begin recordings that are disjoint and lie inside the cover |
| Scheduler.PunctualCovers | src/css_job.c:770-806 | With punctual timers the recorded seconds are exactly the covered ones from the start time on |
| Scheduler.PunctualWhole | src/css_job.c:1156-1166 | Started no later than the first window, the recordings are exactly the windows, so the total is their sum |
| Scheduler.JobRecords | src/css_job.c:505-555 | From a job's triggers to its recordings: each second from the start on that the first trigger's window holds, or that of a trigger whose calendar asks for work, is recorded, once |
| Scheduler.RecordJob | src/css_job.c:511-588 | The whole path on linked nodes: a job's list is built, copied to a channel and run with a punctual timer; recorded are exactly the seconds from the start on that the first trigger's window holds or that of a wanted one, and each recording ends before the next one starts |
| Scheduler.Channel.constructor | src/css_job.c:557-563 | A channel gets its own copy of the job's list |
| Scheduler.Channel.Pop | src/css_job.c:786-788 | The head window goes |
| Scheduler.Channel.DealThisTrigger | src/css_job.c:770-806 | The loop over the channel's nodes leaves the windows, begins the recording and arms the timer that the specification says |
| Scheduler.RunPunctually | src/css_job.c:764-806 | The channel, called at once and then by its timer, begins exactly the recordings of the punctual run |
| Stream.Resume | src/css_stream.c:121-175 | Cutting a byte sequence into packages can be resumed: only the unfinished bytes matter |
| Stream.FramesOfConcat | src/css_stream.c:121-175 | Packages joined and cut again are the same packages |
| Stream.FramesOfPrefix | src/css_stream.c:121-175 | Of a prefix, exactly the complete packages come out |
| Stream.DeclaredLength | src/css_stream.c:121-175 | Behind any prefix of a stream of packages of at least 5 bytes, a length that becomes complete is at least 5 |
| Stream.Stream.constructor | src/css_stream.c:15-29 | A stream that waits for a length |
| Stream.Stream.OnRead | src/css_stream.c:121-175 | After every read within the room offered, the packages handed on are exactly the complete ones of all bytes received; a zero length is reported as out of memory |
| Stream.Stream.HeadRead | src/css_stream.c:133-165 | While the four length bytes come in; with the last of them the buffer is ready and holds them |
| Stream.Stream.BodyRead | src/css_stream.c:166-174 | The package is handed on exactly when its last byte has come |
| Stream.Stream.OnError | src/css_stream.c:124-130 | An error is passed on, the buffer is dropped, and the next bytes are a length |
| Stream.Transfer | src/css_stream.c:106-175 | However the bytes are cut into reads that alloc_cb allows, all packages come out |
| ProtocolPackage.EncodeInt | src/css_protocol_package.c:6-62 | The bytes of the integer, most significant first; nothing else changes |
| ProtocolPackage.DecodeInt | src/css_protocol_package.c:14-103 | The number that the bytes denote |
| ProtocolPackage.EncodeField | src/css_protocol_package.c:115-146 | One field is written behind the others, and how far the encoder moves on |
| ProtocolPackage.DecodeField | src/css_protocol_package.c:229-237 | One field is read as the specification reads it, with the source's 32-bit bound check and refusals |
| ProtocolPackage.CalculateLen | src/css_protocol_package.c:174-190 | The length that a sender allocates |
| ProtocolPackage.DecodeText | src/css_protocol_package.c:229-237 | A string is handed out in place, inside the buffer or not; the bound check and the position behind it are computed in 32 bits when the length was received |
| ProtocolPackage.EncodedLenIff | src/css_protocol_package.c:115-190 | The length sent is the length calculated exactly if no fixed string is shorter and no octet string longer than its field |
| ProtocolPackage.ShortString | src/css_protocol_package.c:115-190 | Two characters in a field of eight: 22 bytes are sent of the 28 allocated |
| ProtocolPackage.LongString | src/css_protocol_package.c:115-137 | A string longer than its field is cut off at the field's end; an octet string still ends with a NUL there |
| ProtocolPackage.Encode | src/css_protocol_package.c:209-270 | The message is encoded, every field at its offset, and the length field holds the encoded length; it is refused exactly if some field finds less room than is counted for it |
| ProtocolPackage.Decode | src/css_protocol_package.c:229-246 | All fields in order, or that the bytes are too short |
| ProtocolPackage.DecodeHeader | src/css_protocol_package.c:298-318 | Too short below 20 bytes, else the five header fields |
| ProtocolPackage.DecodePackage | src/css_protocol_package.c:272-296 | The schema is found by the command number in the bytes |
| ProtocolPackage.FieldsInsideIff | src/css_protocol_package.c:229-246 | Whatever bytes come: if they are decoded, every field lies inside the buffer, one behind the other, exactly if no received length leads beyond 2^32 |
| ProtocolPackage.WrappedLength | src/css_protocol_package.c:229-237 | A received length of 2^32 - 16 passes the check: the string handed out is not in the buffer, and the decoder goes back into the header |
| ProtocolPackage.FieldRoundTrip | src/css_protocol_package.c:115-172 | A field written anywhere is read back there |
| ProtocolPackage.MessageRoundTrip | src/css_protocol_package.c:209-246 | Over any schema, decoding an encoded well-formed message gives it back, with the encoded length in its length field |
| ProtocolPackage.PackageRoundTrip | src/css_protocol_package.c:248-296 | So does a receiver that knows only the bytes |
| ProtocolPackage.TruncatedRefused | src/css_protocol_package.c:229-246 | Decoding any proper prefix of an encoding fails at the field that is cut: with UV_EAI_MEMORY, unless the cut is inside an octet string, whose NUL is then looked for behind the buffer |
| ProtocolPackage.CutPackageRefused | src/css_protocol_package.c:272-296 | A receiver that knows only the bytes takes no package that is cut off for a message; without octet strings it answers UV_EAI_MEMORY |
| Wire.EndToEnd | src/css_stream.c:106-175 | Messages encoded, joined, cut and decoded are the same messages |
| Wire.PrefixDelivers | src/css_stream.c:121-175 | After any byte prefix exactly the complete messages have been handed on |
| Wire.Send | src/css_protocol_package.c:248-343 | Allocating the calculated length and encoding gives the whole message and nothing else |
| Wire.SendAndReceive | src/css_stream.c:106-175 | The whole path on any list of messages, with reads of any sizes, yields the messages sent |
| Wire.CodecTest | src/css_protocol_package.c:430-466 | The source's own test message: its 45 bytes on the wire, and what a receiver makes of them |
| Bytes.ValueOfBigEndian | src/css_protocol_package.c:6-21 | Encoding and decoding in n bytes is reduction modulo 256^n |
| Bytes.BigEndianAt | src/css_protocol_package.c:6-62 | The most significant byte comes first |
| Bytes.UnsignedRoundTrip | src/css_protocol_package.c:6-103 | An unsigned number in range is read back |
| Bytes.SignedRoundTrip | src/css_protocol_package.c:23-97 | A signed number in range is read back |
| LinkedList.List.constructor | src/css_linkedlist.c:19-25 | An empty list |
| LinkedList.List.Push | src/css_linkedlist.c:27-46 | The element joins the end; head, tail, size and both links of every node stay right |
| LinkedList.List.GetEntity | src/css_linkedlist.c:48-61 | The node at the index, or -1 outside |
| LinkedList.List.Get | src/css_linkedlist.c:63-71 | The element at the index, or -1 outside |
| LinkedList.List.Pop | src/css_linkedlist.c:73-87 | The first element goes and is returned; -1 if there is none |
| LinkedList.List.IsEmpty | src/css_linkedlist.c:89-93 | Whether there is no element |
| LinkedList.List.Unlink | src/css_linkedlist.c:109-126 | In all four cases the chain without the node is linked in both directions |
| LinkedList.List.RemoveEntity | src/css_linkedlist.c:105-128 | The sequence without the node |
| LinkedList.List.Remove | src/css_linkedlist.c:130-142 | The first node with this data goes; -1 and no change if there is none |
| LinkedList.List.RemoveAt | src/css_linkedlist.c:144-153 | The element at the index goes; -1 outside |
| LinkedList.List.InsertAt | src/css_linkedlist.c:154-171 | The element comes before the one at the index, for every index but 0; -1 outside |
| LinkedList.List.Visit | src/css_linkedlist.c:185-188 | A callback that removes what it is given removes the node visited, also among equal elements |
| LinkedList.List.Foreach | src/css_linkedlist.c:177-190 | Every element is visited once, in order, also if the callback removes it; what is left is what it kept |
| DiskManager.Manager.constructor | src/css_disk_manager.c:91-119 | One disk for each configured path, in order |
| DiskManager.Manager.GetDisk | src/css_disk_manager.c:138-156 | Of the disks not yet looked at the first usable one is chosen and is now the last; if there is none the list has been turned once round |
| DiskManager.Manager.Choose | src/css_disk_manager.c:158-167 | With names that fit it succeeds exactly if some disk is usable, with the first usable one in turn; if none is, the order is as before; a name that does not fit fails the call |
| DiskManager.Manager.ChooseWell | src/css_disk_manager.c:121-167 | The disk chosen is the first whose error tag is not 1 and whose usage is within the limit; it and those before it have gone behind the others |
| DiskManager.Manager.Destroy | src/css_disk_manager.c:203-218 | Every disk is visited once and the list is empty |
| DiskManager.ChoiceRotates | src/css_disk_manager.c:138-156 | A choice takes the first of the usable disks and moves it behind the others |
| DiskManager.PicksCycle | src/css_disk_manager.c:138-156 | With fixed health the choices go round the usable disks |
| DiskManager.Fair | src/css_disk_manager.c:138-156 | With fixed health two usable disks' numbers of choices never differ by more than one, and no other disk is chosen |
| DiskManager.Manager.ChooseOften | src/css_disk_manager.c:158-167 | Choices in a row with fixed health, names that fit and some usable disk are the picks that Fair is about |
| DiskManager.LongPath | src/css_disk_manager.c:145-167 | A disk with room whose path has 20 characters makes the call fail, although the other disk would do |
| ClearDisk.RoomDays | src/css_clear_disk.c:65-72 | From d days down to the two-hour limit there are d + 22 steps |
| ClearDisk.HoursOf | src/css_clear_disk.c:65-72 | Pass i goes back by 24 hours for each day left, and in the last day by an hour less each time |
| ClearDisk.PassesMean | src/css_clear_disk.c:43-74 | The passes stop at the first usage within the limit, or when the hours have run down |
| ClearDisk.CodeIff | src/css_clear_disk.c:33-83 | At most d + 22 passes, each started only while usage exceeds the limit; 0 exactly if usage is within the limit at first or after some pass but the last |
| ClearDisk.FailsWithRoom | src/css_clear_disk.c:76-83 | The last pass can bring usage within the limit and the call still returns -1 |
| ClearDisk.FailsWithoutDays | src/css_clear_disk.c:81-83 | With clear_file_day 0 nothing is deleted and the call returns -1 |
| ClearDisk.ChangeFilename | src/css_clear_disk.c:15-31 | The text in the buffer gets the new type behind its last dot, or at its end without one; -1 for the empty text |
| ClearDisk.RenamedIs | src/css_clear_disk.c:15-31 | The new type stands behind the last dot, or at the end of a text without one; the empty text stays |
| ClearDisk.NamesRecorded | src/css_capture.c:444-446 | From a recording's row the clearing finds exactly the three names that the recorder gave its files, whatever dots the path has |
| ClearDisk.RecordedApart | src/css_capture.c:444-446 | Recordings with different names share no file |
| ClearDisk.Store.Select | src/css_db_mysql.c:221-251 | The rows of the volume that begin before the cut time |
| ClearDisk.Store.DeleteById | src/css_db_mysql.c:184-190 | Exactly the rows with the id go |
| ClearDisk.Store.Remove | src/css_clear_disk.c:55-62 | The recording's file, both index files and its row go, nothing else |
| ClearDisk.Store.RemoveAll | src/css_clear_disk.c:52-63 | The same for every row of the list |
| ClearDisk.Status.Pass | src/css_clear_disk.c:45-63 | A pass over the list, which still holds the rows of earlier passes, deletes just what the new cut time dooms |
| ClearDisk.Status.Clear | src/css_clear_disk.c:33-79 | What is gone is exactly the volume's rows that began before one of the passes' cut times, and their files; -1 if the hours have run down |
| ClearDisk.Status.ClearDays | src/css_clear_disk.c:81-83 | Clearing starts clear_file_day times 24 hours back |
| ClearDisk.DoomedIff | src/css_clear_disk.c:45-50 | By the texts of the cut times a row goes exactly if it is of the volume and its moment is before now(i) less the hours of some pass i |
| ClearDisk.ClearInTime | src/css_clear_disk.c:33-83 | In moments: a recording goes exactly if it is of this disk and began before now(i) - 3600 hours(i) for some pass i that was made, with hours(i) in days and then hours; which passes are made; the code; and the files |
| ClearDisk.RecentStays | src/css_clear_disk.c:43-47 | A recording that began less than two hours before every pass stays |
| ClearDisk.OlderGoToo | src/css_clear_disk.c:49-50 | With a recording go all of its disk that began no later |
| TimeText.PrintOrder | src/css_util.c:161-175 | Texts of one fixed-width format compare as their fields do, for any format |
| TimeText.StampOrder | src/css_util.c:161-175 | Time texts compare as the moments do, as long as the calendar advances |
| TimeText.StampReads | src/css_util.c:161-175 | The text has 23 characters; its digits read back as year, month, day, hour, minute, second and milliseconds, with the format's characters between |
| TimeText.PrintedMoment | src/css_util.c:161-175 | How one moment is printed |
| TimeText.OneDay | src/css_util.c:161-175 | The clock of a day is a calendar that advances, as the comparisons require |
| TimeText.LessAt | src/css_db_mysql.c:221-251 | Texts compare by the first character in which they differ |
| CalendarText.TrimSpace | src/css_trigger.c:3-17 | All spaces go, and nothing else |
| CalendarText.SpacesGone | src/css_trigger.c:245-252 | The source's own test |
| CalendarText.AtoiNum | src/css_trigger.c:110-112 | A number written without leading zeros is read back, with the width the parser assumes |
| CalendarText.MonthItem | src/css_trigger.c:111-134 | One day or range marks exactly its days and is passed over |
| CalendarText.FormatMonth | src/css_trigger.c:97-138 | For every list of days and ranges, however spaced, exactly the days denoted are marked |
| CalendarText.MonthOfTest | src/css_trigger.c:273-287 | The source's own test: 6,8,11-20, and no other day |
| CalendarText.WeekItem | src/css_trigger.c:153-188 | One day or range of a week; Sunday, written 7, is entry 0 |
| CalendarText.FormatWeek | src/css_trigger.c:140-189 | For every list of days and ranges of the week exactly the days denoted are marked, and the entry behind the week exactly if a range takes in 7 |
| CalendarText.WeekOfTest | src/css_trigger.c:288-305 | The source's own test: 6,1-3,7, and no other day; 7 is entry 0 |
| CalendarText.YearEntry | src/css_trigger.c:76-93 | One month's list ends at the next semicolon and changes no other month |
| CalendarText.FormatYear | src/css_trigger.c:64-95 | For every list of months and their days exactly the days denoted are marked; the empty text is refused |
| CalendarText.YearOfTest | src/css_trigger.c:254-271 | The source's own test: 5:1,3;7:1,2,10-20,25;6:2, and no other day |
| CalendarText.Calendar.constructor | src/css_job.c:445-446 | A calendar without a mark |
| CalendarText.Calendar.NeedsWork | src/css_trigger.c:42-48 | A holiday calendar needs no work on a day that one of its tables marks |
| CalendarText.Holiday | src/css_job.c:450-477 | From the texts of a holiday calendar to its verdict, for every week list: it is the intended one, no work on the days that a list names, unless the day is the first of a month, a range of week days takes in Sunday, and no list names the day |
| CalendarText.DayOffIs | src/css_trigger.c:42-48 | What it is that the texts name a day: it is a number of one of the lists or inside one of its ranges, Sunday being day 7 |
| CalendarText.FirstOfMonth | src/css_trigger.c:168-173 | With the week list 6-7 a first of the month that is a Wednesday is a day off |
| SearchRecord.LengthIsTotal | src/css_search_record.c:75-97 | The answer has exactly as many bytes as were counted |
| SearchRecord.RecordRoundTripIff | src/css_search_record.c:131-148 | A record is read back whole exactly if its name is shorter than 65536 bytes; otherwise its length fields contradict each other |
| SearchRecord.ResponseRoundTripIff | src/css_search_record.c:75-108 | The whole answer is read back, every record in order, exactly if all names are |
| SearchRecord.LongName | src/css_search_record.c:131-148 | The answer with a name of 65536 bytes is not read back |
| SearchRecord.StoredNamesFit | src/css_search_record.c:75-108 | Answers whose names are shorter than 256 characters, as stored ones are, are always read back |
| SearchRecord.AnswerParts | src/css_search_record.c:75-108 | Where length, command, zero result and number of records stand in the answer, and that the records follow |
| SearchRecord.RecordSlices | src/css_search_record.c:131-148 | Where each field of a record stands, and the four zero bytes behind it |
| SearchRecord.ErrorAnswer | src/css_search_record.c:110-124 | The answer to a failed search is 24 bytes: their number, the command 0x80060006, twelve zeros and the error itself; a reader does not take it for records |
| SearchRecord.EncodeRecord | src/css_search_record.c:131-148 | The record's bytes follow what was written, its size less 4 in front |
| SearchRecord.EncodeHeader | src/css_search_record.c:126-129 | Length and command in front of a header that is otherwise zero |
| SearchRecord.Measure | src/css_search_record.c:81-86 | The number of records and the length of the answer |
| SearchRecord.EncodeOk | src/css_search_record.c:75-108 | The buffer has the counted length and holds header, zero result, number and records |
| SearchRecord.EncodeError | src/css_search_record.c:110-124 | The buffer holds the answer that ErrorAnswer is about |
| IntegerText.TableDigits | src/css_util.c:79-81 | The 71-character table gives the digit for a remainder of either sign |
| IntegerText.DigitIs | src/css_util.c:79-81 | The digits are 0 to 9 and then a to z |
| IntegerText.QuotientMeans | src/css_util.c:77-81 | Division towards zero leaves a remainder whose magnitude is the next digit |
| IntegerText.TextRoundTrip | src/css_util.c:67-118 | Every integer is read back from its text in every base from 2 to 36 |
| IntegerText.PrintedTexts | src/css_util.c:67-118 | Some texts as they are printed |
| IntegerText.NoLeadingZero | src/css_util.c:67-118 | No text starts with a zero but that of 0 |
| IntegerText.Step | src/css_util.c:102-106 | One digit, without overflow for any 64-bit value |
| IntegerText.Generate | src/css_util.c:101-109 | Digits and sign, in reverse |
| IntegerText.Reverse | src/css_util.c:111-115 | The text is turned round in place |
| IntegerText.Lltoa | src/css_util.c:94-118 | The buffer holds the integer's text, for the least value too, and the empty text for a base that is none |
| IntegerText.AtoiDecimal | src/css_logger.c:271-272 | atoi reads back a number that was printed |
| IntegerText.AtoiText | src/css_trigger.c:77-121 | atoi reads back a number behind white space, with a sign, up to the first character that is no digit |
| RestClient.HexDigits | src/css_restclient.c:326-334 | The digits are 0 to 9 and a to f in either case, with these values, and no other character is one |
| RestClient.HexOfPrinted | src/css_restclient.c:316-348 | Any number as it is printed in base 16 is read back |
| RestClient.HexOfCapitals | src/css_restclient.c:331-333 | And so it is in capitals |
| RestClient.HexStr2Int | src/css_restclient.c:316-348 | On any text: the hexadecimal number behind any line ends, in either case, 0 if there is none; and how far its line is taken to reach |
| RestClient.Dechunk | src/css_restclient.c:283-303 | On any text: the pieces that the size lines ask for, joined, up to the first size that is 0 or not there |
| RestClient.UnchunkedData | src/css_restclient.c:283-303 | Of a chunked body (section 4.1 of RFC 7230, without extensions) that is the chunks' data, joined |
| RestClient.PrintedChunk | src/css_restclient.c:283-303 | Data with its length printed in base 16 in front, in either case, is a chunk |
| RestClient.TenCharacters | src/css_restclient.c:283-303 | The chunked body a, ten characters, 0 gives back the ten characters |
| RestClient.StrStr | src/css_restclient.c:283-291 | The first occurrence, or none |
| RestClient.ResponseBody | src/css_restclient.c:283-311 | For any body: what the chunk loop makes of it if the response says anywhere that it is chunked, else all that follows the first blank line; that is the intended body exactly if the text, where it occurs, occurs in the header |
| RestClient.QuotedHeader | src/css_restclient.c:283-311 | A plain body that quotes the header's text behind a tag is lost |
| Logger.LogNameIndex | src/css_logger.c:266-275 | A log's name is taken to have its own number |
| Logger.FixFound | src/css_logger.c:264-269 | The ending is found where it first occurs |
| Logger.FirstAndLast | src/css_logger.c:281-283 | The newest log is 0.log and the oldest 19.log |
| Logger.Directory.FindLogs | src/css_logger.c:261-278 | A number is flagged exactly if some name with the ending starts with it |
| Logger.MovedMore | src/css_logger.c:279-301 | Moving the j-th log up finds the place free and keeps all others |
| Logger.Directory.Shift | src/css_logger.c:281-297 | The j-th log goes one up, the last one out |
| Logger.Directory.RenameOldLogs | src/css_logger.c:252-304 | Every log goes one up, the last one out, none is written over and no other file changes; it fails exactly if a name is taken for a log that is not there, and then the logs above that one have gone up and no other file has changed |
| Logger.StrayFails | src/css_logger.c:264-276 | In a directory with old.log and no log 0 the rotation fails |
| Logger.Logger.NewFile | src/css_logger.c:309-334 | The numbered files are the twenty newest logs, the newest first, and log 0 is new |
| Logger.Logger.Write | src/css_logger.c:223-230 | The text is added to the newest log |
| Logger.Logger.DumpToFile | src/css_logger.c:163-233 | The text goes to the newest log, and once that has more than 16777216 characters a new one begins; file i.log is the log from i rotations ago, and text is lost only with the oldest logs |

## Left out

- CaptureRuns.RunSafety: file and database operations succeed, the server answers once and before any frame, one stop comes per session, each file stays below 2 GiB, and a queue that is full when a new file is due is not considered, nor in RunEnd, CaptureRows.RowsEnd and Capture.Live one that has no room for the end (CaptureRuns.FullQueueStays says what then happens); a full queue otherwise drops the frame, as in the code. The failure paths of the session release what other callbacks still use, and the statements do not hold there.
- Capture.Session.OnStop: does not model a stop before the connection or a second stop, which closes the session at once.
- Capture.Session.CloseThree: index flushes are taken to land in the order in which they are submitted, and the clock, the calendar fields and the incision time are given from outside; malloc succeeds.
- Capture.Session.OnRowWritten: of the database rows CaptureRows has whether they are available; times, names and the play length are not modelled.
- FrameGetter.Getter.NextFrame: an index that holds only part of a record, for which the source reads an entry that is not there, and one that starts with year 0, which no recorder writes and at which the source goes back to its first record, are excluded; a read returns the smaller of what is asked for and what is there; the reader does not use the .iif file, nor does the model; positions, the prefetch that the source has commented out, and find_right_I are left out.
- Stream.Stream.OnRead: declared lengths 1 to 3 are excluded, as the source would write past its buffer; a declared length of 4 is never handed on, as no room is offered for it, and whole runs are stated for lengths of at least 5.
- ProtocolPackage.EncodeField: a byte-array length that would wrap around, and an octet string field of length 0, which would write in front of its place, are excluded; the generated table of schemas is an arbitrary list of fields that starts with the 20-byte header.
- ProtocolPackage.DecodeField: buffers are smaller than 2 GiB, so that positions fit in a C int; a string without its NUL, which the source reads beyond the buffer, is not followed there.
- MysqlPool.PoolSafety: the connections themselves and the queries are foreign calls; the scan, the mutex and the semaphore are taken as sequentially consistent steps.
- TwoLists.MingleTwoLists: addresses are never used again, malloc succeeds, and sums of start and length stay below 2^32; the run is followed up to the first freed node that is still linked, as what the source does then is undefined. Calendars, which move with a node and not with its window, are left out: nothing reads them after the merge.
- JobList.MingleToList: sums of start and length stay below 2^32.
- JobList.FromEntries: the XML tree, the lookup of calendars, and a trigger with an unknown calendar, at which the source loops for ever, are left out; so is a job with entries and no trigger, for which it copies a null list.
- Scheduler.Channel.DealThisTrigger: the start of a recording is a log entry; its failure is not handled in the source either. Time is the second of one day.
- LinkedList.List.InsertAt: index 0 of a non-empty list is excluded, as the source follows a null link there; null lists, which every function answers with -1, are not modelled, and the size is unbounded.
- DiskManager.Manager.Choose: the building of the path below the disk and the creation of directories are left out; the health of disks is whatever the status fields say.
- ClearDisk.Status.Clear: the clock and the usage readings are given for each pass; database and file deletions succeed; file names leave room for their new type in the source's buffer.
- TimeText.StampOrder: the calendar is a parameter that advances with time; time zones and daylight saving are left out.
- CalendarText.FormatMonth: texts are those that a list of days and ranges prints to, with spaces anywhere; what the parser does to other texts (it may write outside the table) is not stated. The overlapping copy inside trim_space is taken to move text down by one.
- CalendarText.TrimSpace: works on a text value, not in the caller's buffer; likewise CalendarText.FormatYear does not show that the source puts a NUL over each semicolon.
- CalendarText.FormatWeek: the write behind the week is taken to fall on the next field of the record, as compilers lay it out.
- CalendarText.Holiday: one date text for each table; special-day calendars and css_format_start_time are left out.
- SearchRecord.EncodeOk: the answer's length stays below 2^31; failure to allocate is left out.
- RestClient.ResponseBody: the sizes that are asked for add up to less than the 20480 characters of the source's buffer. Works on text values; responses are free of NUL bytes and fit the source's buffers; the status line is left out.
- Logger.Directory.RenameOldLogs: names whose number is negative are excluded, as the source would write in front of its table; writes are complete before a rename; line buffers, locking and the reopening of an existing log are left out.
- MongoDB, alarms, the HTTP client's sockets, command dispatch, configuration, css_replay.c, css_file_writer.c, css_ini_file.c and the format of log lines: only easier claims, or foreign calls.
- svtimesubms (src/css_util.c:231-245), which adds the seconds it should subtract, is used by nothing modelled here.
