# DRAKRUN: verified models

Models in Dafny of the parts of drakrun in which something can silently go wrong: reading a
process's log lines through an index and a readahead stream, building the process tree from an
event stream, the serial protocol between host and guest, the networks of the machines, and
three algorithms that evaluate an analysis. Check everything with

    dafny verify dfyconfig.toml

| file | what it models |
|---|---|
| `Common.dfy`, `Sorting.dfy` | options, bytes, windows of a sequence, the pigeonhole principle; the stable sort |
| `BinaryStream.dfy` | a local file, an S3 body, and `SeekableStreamingBody` over it |
| `ScatteredRead.dfy` | `scattered_read_file` |
| `LogIndex.dfy`, `LogLines.dfy`, `Attribution.dfy` | `index_log_file`, the method filter, what both mean in terms of the lines; the per-PID cache |
| `IndexContainer.dfy`, `Serializer.dfy` | the packed log index, for any serializer and for a concrete one |
| `Utf8.dfy`, `LogPager.dfy`, `LogService.dfy` | the text a browser makes of bytes; the log viewer's loader; the whole way from the logs to the viewer |
| `ProcessTree.dfy`, `Identity.dfy`, `Lifetimes.dfy`, `Biography.dfy`, `TreeDict.dfy` | the process tree as a value: replay, what stays fixed, lifetimes, what the tree says in terms of the entries, printing and parsing |
| `ProcessObjects.dfy`, `DictReader.dfy` | the same tree as objects updated in place |
| `TreeSearch.dfy` | the searches of the tree view |
| `Framing.dfy`, `Session.dfy`, `SessionSync.dfy`, `OutputDelivery.dfy`, `SessionLimit.dfy`, `SessionInput.dfy`, `SessionAnswers.dfy`, `StdinDelivery.dfy` | frames, the two peers as one transition system, and what holds of all its runs |
| `Handles.dfy` | pipe and process handles of one `process_execute` |
| `Network.dfy`, `NetworkSteps.dfy`, `NetworkOperations.dfy` | bridges and firewall rules: whole operations, interleaved commands, and how the former are runs of the latter |
| `Dumps.dfy` | which memory dumps are kept |
| `Http.dfy`, `HttpCalls.dfy` | correlation of HTTP calls through handles; the report in terms of the calls and their arguments |

How the pieces fit. `LogService.ViewProcessLog` composes index, container, S3 stream, scattered
read and pager into one statement: when these are ASCII, the viewer shows exactly the lines of the
process that pass the filter, each once, in file order. What "the lines of the process" are is
decided by `LogIndex.Owner`; `Attribution.CacheAgrees` says exactly when that is the process that
covers the event, `Lifetimes.LifetimesApartExactly` when there is at most one such process, and
`LogService.ViewByEvent` puts them together: what is shown are the lines whose events the process
covers. Objects that the program updates in place are classes; a ghost field (or a parameter)
holds the value they stand for, and each method is proved to change it as the specification
function says, so that the lemmas about values hold of the objects.

Specification functions are not the last word either. What each of them means is stated once
more in terms of the input alone, as a condition on the fields of lines, entries, calls, rules
and events: `LogLines.SelectedExactly` and `LogLines.ValuesExactly` for the index,
`Biography.ReplayTold` and `Biography.CoversExactly` for the tree, `Network.HasNetwork` for the
rules, `HttpCalls.GetHttpInfoByCalls` for the HTTP report, `Dumps.CountedExactly` and
`Dumps.LeftOut` for the dumps, `SessionAnswers.AnswersAreTrue` and
`OutputDelivery.ReadIsHandedOn` for the session.

## What the models show about the code

* `read(None)` of the S3 stream returns the right bytes but can leave a wrong window behind: the
  stream stays valid if and only if the window happens to equal the end of the object
  (`BinaryStream.SeekableStreamingBody.ReadAll`), which for every object of a length means that the
  window was empty or the body used up (`BinaryStream.ReadAllKeepsWindow`); otherwise a later seek
  reads bytes that lie too early (`BinaryStream.ReadAllThenSeek`). Index and logs are read with a
  length.
* The guest takes command lines of at most 2046 bytes, the host sends up to 2048
  (drakrun/tools/drakshell/drakshell.c:415, drakrun/lib/drakshell.py:297). A session stays in step
  in every run exactly when no command has 2047 or 2048 bytes (`SessionLimit.InSyncExactly`).
* The guest's stdin buffer holds 1024 bytes, the host passes on up to 2048
  (drakrun/tools/drakshell/drakshell.c:391, drakrun/lib/drakshell.py:178), and what is sent to a
  process can arrive after its end, where the guest answers it. A session stays in step in every
  run exactly when its commands fit and, of every process that is sent anything, each piece of
  stdin in front of a termination has at most 1024 bytes and no call follows
  (`SessionInput.StaysInStepExactly`). Output delivery holds nevertheless.
* When the host cannot be told that an interactive process has started, the guest leaves four
  handles open (`Handles.ProcessExecute`, `Handles.UnreportedStart`;
  drakrun/tools/drakshell/drakshell.c:428-430).
* Rebinding a process below itself is not prevented; it is the only entry that destroys the
  forest, and processes on the cycle are then not printed (`TreeDict.AlwaysForestExactly`,
  `TreeDict.PrintedExactly`, `TreeDict.CycleExample`).
* A process created at event id 1 ends its predecessor at event 0, which counts as no end.
  Lifetimes of a PID stay apart if and only if no process created at event 1 is given the PID of
  one that was found running (`Lifetimes.LifetimesApartExactly`).
* The per-PID cache of the indexer attributes a line to the process that covers its event if and
  only if no earlier line of the PID belongs to a process that began after that event
  (`Attribution.CacheAgrees`, `Attribution.OutOfOrderExample`).
* A machine can be started if and only if it has a saved network description or no bridge: what a
  start leaves behind that failed behind the bridge, no later start or stop repairs
  (`NetworkSteps.StartableExactly`, `NetworkOperations.StuckExample`).
* A memory dump or an HTTP call whose process is not in the tree ends the whole plugin
  (`Dumps.Prefilter`, `Http.GetHttpInfo`).
* The log viewer's loader adds the code units of a decoded text to a byte offset
  (drakrun/web/frontend/src/LogViewer.jsx:14-16). Of a log in valid UTF-8 it shows each line once
  exactly when the log is ASCII (`LogPager.LogLoader.Run`, `LogService.ViewProcessLog`,
  `LogPager.LogLoader.ShowTwice`).
* It stops moving in front of a line that is longer than a range (`LogPager.ProgressExactly`).
  Behind the end of a log it never finishes: it waits for a status 416, and `process_logs` answers
  with no bytes instead (`LogService.FetchBehindEnd`, `LogService.ViewProcessLog`).

## Model

| member | source | states |
|---|---|---|
| BinaryStream.SeekableStreamingBody.constructor | drakrun/web/storage.py:30-36 | the first window holds the beginning of the object, 128 KiB of it or all |
| BinaryStream.SeekableStreamingBody.Readahead | drakrun/web/storage.py:38-50 | however the body cuts its pieces, the window takes exactly the next min(128 KiB, rest) bytes out of it |
| BinaryStream.SeekableStreamingBody.Read | drakrun/web/storage.py:59-71 | terminates, and returns what a plain file returns at that position, also past the end; keeps the stream valid |
| BinaryStream.SeekableStreamingBody.ReadAll | drakrun/web/storage.py:53-58 | returns the rest of the object, but moves the believed start of the window by the length of the body; the stream stays valid if and only if the window is also the end of the object |
| BinaryStream.SeekableStreamingBody.Seek | drakrun/web/storage.py:73-102 | the position is the offset, within the window, behind it and past the end of the object; keeps the stream valid |
| BinaryStream.SeekableStreamingBody.Tell | drakrun/web/storage.py:104-105 | the position |
| BinaryStream.BinaryIO.Answer | drakrun/web/storage.py:52-105 | one read, seek or tell answers as the plain file would and leaves the same future |
| BinaryStream.BinaryIO.Run | drakrun/web/storage.py:52-105 | over every sequence of reads, seeks and tells and every fragmentation of the body, the replies are those of a plain file; the same for a local file |
| BinaryStream.ReadAllKeepsWindow | drakrun/web/storage.py:53-58 | the condition of ReadAll holds for every object of a length if and only if the window was empty or reached up to the end |
| BinaryStream.ReadAllThenSeek | drakrun/web/storage.py:53-82 | otherwise a seek into the believed window reads the byte that lies too early by the length of the drained body |
| ScatteredRead.ReadWithin | drakrun/analyzer/postprocessing/indexer.py:138-142 | seek and read give the requested piece of the block, of exactly that length |
| ScatteredRead.ReadBlock | drakrun/analyzer/postprocessing/indexer.py:134-144 | one block more extends the output to the cut of one block more |
| ScatteredRead.ScatteredReadFile | drakrun/analyzer/postprocessing/indexer.py:126-144 | the joined output is concat(blocks)[skip : skip+length], over a local file and over the S3 stream |
| ScatteredRead.CutAppend | drakrun/analyzer/postprocessing/indexer.py:135-144 | what one block adds to a cut is the window that the loop computes, and nothing in front of skip |
| ScatteredRead.CutExactly | drakrun/analyzer/postprocessing/indexer.py:126-144 | the slice has the elements skip, skip+1 and so on, as many as length and text allow |
| ScatteredRead.PagesReassemble | drakrun/analyzer/postprocessing/indexer.py:126-144 | consecutive windows put together are one window, and the whole once they are long enough |
| LogIndex.AddLineCoalesced | drakrun/analyzer/postprocessing/indexer.py:58-70 | blocks stay nonempty, sorted, disjoint and maximally coalesced |
| LogIndex.AddLineText | drakrun/analyzer/postprocessing/indexer.py:49-70 | for every filter, the entry's bytes grow by the line exactly when its method passes |
| LogIndex.OtherLine | drakrun/analyzer/postprocessing/indexer.py:33-50 | a line of another process, or a skipped one, leaves an entry right |
| LogIndex.OwnLine | drakrun/analyzer/postprocessing/indexer.py:49-70 | a line of the process leaves its entry right for one line more, the values being the methods in order of first sight |
| LogIndex.LineIndexed | drakrun/analyzer/postprocessing/indexer.py:23-72 | one pass of the loop keeps all entries right, for lines of every kind |
| LogIndex.IndexLogFile | drakrun/analyzer/postprocessing/indexer.py:14-73 | exactly the processes with lines are indexed; each entry is coalesced, duplicate-free, parallel, and serves every filter |
| LogIndex.FilterIndicesExact | drakrun/web/api.py:230-234 | a number is looked up if and only if its method is in the filter |
| LogIndex.FilteredBlocksExact | drakrun/web/api.py:227-239 | reading the filtered blocks gives exactly the process's selected text, which LogLines.SelectedExactly says line by line |
| LogLines.SelectedExactly | drakrun/web/api.py:227-239 | the text selected is that of exactly the lines of the process whose apiName is in the filter, or of all its lines without one, in file order |
| LogLines.ValuesExactly | drakrun/analyzer/postprocessing/indexer.py:32-56 | the values are exactly the apiName fields of the process's lines, each once, in the order of their first lines |
| Attribution.CacheIsLatest | drakrun/analyzer/postprocessing/indexer.py:37-47 | the cache names for every PID the process that began last among those that cover its lines so far |
| Attribution.CacheAgrees | drakrun/analyzer/postprocessing/indexer.py:37-47 | a line goes to the process that covers its event if and only if no earlier line of the PID belongs to a process that began after that event |
| Attribution.InOrderNotOvertaken | drakrun/analyzer/postprocessing/indexer.py:37-47 | with the events of each PID in order there is no such earlier line |
| Attribution.LinesFindTheirProcess | drakrun/analyzer/postprocessing/indexer.py:37-47 | for a chronological log without a PID taken over at event 1 and events in order, attribution is the tree's lookup, and a line is skipped exactly when that is None |
| Attribution.SelectedIsCovered | drakrun/analyzer/postprocessing/indexer.py:33-50 | then the text selected for a process and a filter is that of the lines whose events it covers |
| Attribution.LinesOfProcess | drakrun/analyzer/postprocessing/indexer.py:30-50 | for such logs a line goes to a process if and only if it names its PID, not 0, and an event at which it was alive by the entries of the process log |
| Attribution.OutOfOrderExample | drakrun/analyzer/postprocessing/indexer.py:37-47 | a line out of order that goes to a process that began after the event |
| IndexContainer.Pack | drakrun/analyzer/postprocessing/indexer.py:90-100 | the container is a table of offsets followed by the entries at those offsets |
| IndexContainer.PackRow | drakrun/analyzer/postprocessing/indexer.py:94-98 | the offsets of one process continue those of the processes before it |
| IndexContainer.EntryInBlob | drakrun/analyzer/postprocessing/indexer.py:95-98 | the bytes of an entry lie at the offset that the table names, whatever follows |
| IndexContainer.Unpack | drakrun/analyzer/postprocessing/indexer.py:112-114 | reading in chunks until an object is complete yields the object and its exact length |
| IndexContainer.GetLogIndexForProcess | drakrun/analyzer/postprocessing/indexer.py:111-123 | returns exactly the stored entry, None for an absent log or process number, over either kind of file |
| IndexContainer.GetPluginNamesForProcess | drakrun/analyzer/postprocessing/indexer.py:103-108 | the names of the process's logs in order, none past the last process |
| Serializer.SoundSerializer | drakrun/analyzer/postprocessing/indexer.py:95-100 | a serializer as the container needs it exists: the results about the container are not empty |
| LogService.BuildTables | drakrun/analyzer/postprocessing/indexer.py:76-88 | every process has an entry for exactly the logs, drakrun's own excepted, that mention it, in the order of the logs, and the right one |
| LogService.ProcessLogs | drakrun/web/api.py:216-255 | the response is the slice skip, length of the texts of exactly the process's lines that are asked for, in file order; None when no line is the process's or the log is drakrun's own |
| LogService.IndexAndServe | drakrun/web/api.py:216-255 | the same from the raw logs on, with index and log both behind S3 streams |
| LogService.ProcessInfoLogs | drakrun/web/api.py:200-210 | the values of each of the process's logs, the index being read from the start again for each |
| LogService.IndexAndInform | drakrun/analyzer/postprocessing/indexer.py:76-123 | from the raw logs on: a process is told the methods of its lines for exactly the logs that have any |
| LogService.BuildLogIndex | drakrun/analyzer/postprocessing/indexer.py:76-100 | the container holds the right tables of all processes |
| LogService.ViewProcessLog | drakrun/web/frontend/src/LogViewer.jsx:6-25 | when the lines of the process that pass the filter are ASCII, the viewer shows exactly these, each once and in file order; with a range for every byte, and valid UTF-8, if and only if they are ASCII; it never finishes |
| LogService.FetchBehindEnd | drakrun/web/api.py:240-253 | once all was shown, one more fetch shows nothing if and only if the (valid) text is ASCII, and leaves the loader unfinished |
| LogService.ViewByEvent | drakrun/web/frontend/src/LogViewer.jsx:6-25 | the same for the lines whose events the process covers, for a chronological log without a PID taken over at event 1 and events in order |
| Utf8.OneUnitEachExactly | drakrun/web/frontend/src/LogViewer.jsx:10-16 | of valid UTF-8 there are as many code units, which the loader counts, as bytes, which the server counts, if and only if it is ASCII |
| Utf8.UnitsAre | drakrun/web/frontend/src/LogViewer.jsx:10-16 | a code point is one code unit, or above the first plane a high and a low surrogate |
| LogPager.CompleteLength | drakrun/web/frontend/src/LogViewer.jsx:14 | one past the last newline, 0 without one |
| LogPager.LogLoader.Next | drakrun/web/frontend/src/LogViewer.jsx:8-23 | one step of the generator: yields the text up to its last newline and moves by its code units, ends on 416, throws on other errors |
| LogPager.LogLoader.Run | drakrun/web/frontend/src/LogViewer.jsx:6-25 | with ranges that hold the longest line: of an ASCII log always the first lines, one more with each fetch and all in the end; after as many fetches as bytes a log in valid UTF-8 was shown exactly if and only if it is ASCII |
| LogPager.LogLoader.ShowTwice | drakrun/web/frontend/src/LogViewer.jsx:10-16 | an example of a line with one character of two bytes, whose newline is shown again |
| LogPager.PieceIsDecoded | drakrun/web/frontend/src/LogViewer.jsx:14-15 | cutting the text behind its last newline is decoding the bytes up to theirs, also when the range ends within a character |
| LogPager.FetchMoves | drakrun/web/frontend/src/LogViewer.jsx:8-16 | the loader never runs past the end of the log, and moves on in front of it when ranges hold the longest line |
| LogPager.SliceEndsLines | drakrun/web/frontend/src/LogViewer.jsx:14-16 | a slice from a line's start is cut back to the start of a line, a later one if and only if it holds the first line |
| LogPager.ProgressExactly | drakrun/web/frontend/src/LogViewer.jsx:14-16 | a fetch emits something if and only if the slice can hold the next line |
| ProcessTree.GetProcess | drakrun/analyzer/postprocessing/process_tree.py:109-116 | the last process with the PID, None if and only if there is none |
| ProcessTree.GetProcessForEvtid | drakrun/analyzer/postprocessing/process_tree.py:100-107 | the first process with the PID that covers the event, None if and only if none does |
| ProcessTree.AddProcessKeeps | drakrun/analyzer/postprocessing/process_tree.py:60-98 | numbers stay places, and parents and children name each other once |
| ProcessTree.ChangeParentKeeps | drakrun/analyzer/postprocessing/process_tree.py:48-53 | the same for a change of parent, also to the present parent or to itself |
| ProcessTree.StepKeepsWellFormed | drakrun/analyzer/postprocessing/process_tree.py:277-300 | the same for an entry of every kind |
| ProcessTree.Replay | drakrun/analyzer/postprocessing/process_tree.py:265-307 | every tree from a log has seqid equal to position, and p.parent = q exactly when p occurs once in q.children |
| ProcessTree.TreeAfterIsReplay | drakrun/analyzer/postprocessing/process_tree.py:267-276 | going line by line with the previous line in hand is replaying the entries without adjacent duplicates, at every prefix |
| ProcessTree.TreeFromLogReplays | drakrun/analyzer/postprocessing/process_tree.py:265-307 | the same for the whole log |
| ProcessTree.FailureSticks | drakrun/analyzer/postprocessing/process_tree.py:304-306 | an entry that fails ends the reading for good |
| ProcessTree.KeptExactly | drakrun/analyzer/postprocessing/process_tree.py:267-302 | the entries applied are those of exactly the lines that parse and differ from the line in front of them, in order |
| Identity.AddProcessChanges | drakrun/analyzer/postprocessing/process_tree.py:86-98 | a new process ends at most the last one of its PID, at the event before its own, and changes no field of any other |
| Identity.RebindMoves | drakrun/analyzer/postprocessing/process_tree.py:48-53 | a rebound process takes over the new parent's PPID, and only it changes parent or PPID |
| Identity.StepKeepsIdentity | drakrun/analyzer/postprocessing/process_tree.py:277-300 | an entry of any kind changes ends, exits and parents of the process it names only, and nobody's identity |
| Identity.NumbersAreStable | drakrun/analyzer/postprocessing/process_tree.py:265-307 | a number given out at any prefix of a log stands for the same process ever after |
| Lifetimes.LifetimesApartExactly | drakrun/analyzer/postprocessing/process_tree.py:86-107 | at every prefix of a chronological log, event ids from 1 on: processes of a PID live one after the other, only the last may be open, and at most one covers an event, if and only if no process created at event 1 has the PID of one found running |
| Lifetimes.AddProcessApartExactly | drakrun/analyzer/postprocessing/process_tree.py:86-98 | adding a process keeps lifetimes apart if and only if it does not take over an open PID at event 1 |
| Lifetimes.ExitLifetimes | drakrun/analyzer/postprocessing/process_tree.py:227-237 | an exit keeps lifetimes apart; what it does to them says Biography.ExitExactly |
| Lifetimes.DisjointIsUnambiguous | drakrun/analyzer/postprocessing/process_tree.py:100-107 | then at most one process of a PID covers an event |
| Lifetimes.EventsFindTheirProcess | drakrun/analyzer/postprocessing/process_tree.py:100-107 | in such a log the lookup finds a process if and only if it covers the event |
| Lifetimes.EventOneLeavesBothOpen | drakrun/analyzer/postprocessing/process_tree.py:90-94 | an example: with event id 1 two processes of one PID stay open and the lookup finds the older one |
| Biography.ReplayTold | drakrun/analyzer/postprocessing/process_tree.py:60-237 | for every log that is read: process i is the i-th successful creation or process found running, with its fields, and its end is that of its last exit entry, or, without one, just before the next process of its PID, or none |
| Biography.CoversExactly | drakrun/analyzer/postprocessing/process_tree.py:86-107 | of a chronological log without a PID taken over at event 1, a process covers an event if and only if it had begun, no exit of it lies before the event, and no later process of its PID had begun |
| Biography.LookupFindsAlive | drakrun/analyzer/postprocessing/process_tree.py:100-107 | then the lookup by event finds exactly the process of the PID that was alive |
| Biography.ExitExactly | drakrun/analyzer/postprocessing/process_tree.py:227-237 | behind an exit entry the last process of its PID covers exactly the events from its first to that of the exit, and ends at the time of the entry |
| Biography.BornLast | drakrun/analyzer/postprocessing/process_tree.py:60-98 | a new process is the last one, with the fields of its entry, nothing known of its end, and the last process of its PPID as parent |
| Biography.BornBelow | drakrun/analyzer/postprocessing/process_tree.py:96-97 | it is listed last among the children of its creator, and all other links stay |
| Biography.KillExactly | drakrun/analyzer/postprocessing/process_tree.py:240-262 | a termination sets code, text and killer of the process it names, or code and text of the caller if it names none, and changes nothing else; it fails exactly for an unknown killer |
| Biography.MovesExactly | drakrun/analyzer/postprocessing/process_tree.py:48-53 | another entry moves the last process of its PID exactly if that has not ended, has another PPID, and a process with that PPID is known: taken out of its old parent's list, last in the new one's |
| TreeDict.ChangeParentKeepsForest | drakrun/analyzer/postprocessing/process_tree.py:48-53 | a change of parent keeps the forest if and only if the new parent is not the process nor below it |
| TreeDict.StepKeepsForest | drakrun/analyzer/postprocessing/process_tree.py:277-300 | an entry of any kind keeps the forest if and only if it does not rebind a process below itself |
| TreeDict.LowerRebindsMakeForest | drakrun/analyzer/postprocessing/process_tree.py:265-344 | a log whose rebindings all go to lower numbers gives a forest with lower-numbered parents, which reads back as it was printed |
| TreeDict.DictsOf | drakrun/analyzer/postprocessing/process_tree.py:134-144 | one dictionary per child, in order, with its fields; the recursion ends for every well-formed tree, cycles included |
| TreeDict.TopLevel | drakrun/analyzer/postprocessing/process_tree.py:142-144 | at the top are exactly the processes without a parent, by ascending number |
| TreeDict.PrintedOnce | drakrun/analyzer/postprocessing/process_tree.py:134-144 | no process is printed twice |
| TreeDict.PrintedExactly | drakrun/analyzer/postprocessing/process_tree.py:134-144 | a process is printed if and only if it hangs below a root |
| TreeDict.PrintedAll | drakrun/analyzer/postprocessing/process_tree.py:134-144 | all are printed if and only if the tree is a forest |
| TreeDict.RoundTrip | drakrun/analyzer/postprocessing/process_tree.py:310-344 | tree_from_dict(as_dict(t)) is t, fields, links and child order, if and only if t is a forest |
| TreeDict.AlwaysForestExactly | drakrun/analyzer/postprocessing/process_tree.py:265-344 | whatever is read of a log, it describes a forest all along if and only if no entry rebinds a process below itself |
| TreeDict.ReplayRoundTrip | drakrun/analyzer/postprocessing/process_tree.py:265-344 | such a log reads back as it was printed |
| TreeDict.CycleExample | drakrun/analyzer/postprocessing/process_tree.py:265-344 | a log of three entries that replays to two processes on a cycle, of which none is printed |
| DictReader.Reader.ParseChildren | drakrun/analyzer/postprocessing/process_tree.py:316-341 | the objects appended stand for the dictionaries in order of printing, and are linked to each other and to the given parent |
| DictReader.SortShows | drakrun/analyzer/postprocessing/process_tree.py:343 | sorting the objects is sorting what they stand for, and loses none |
| DictReader.TreeFromDict | drakrun/analyzer/postprocessing/process_tree.py:310-344 | the objects stand for the parsed tree, parents and children are objects of the list, and numbers as places make it a valid tree |
| DictReader.ReadBack | drakrun/analyzer/postprocessing/process_tree.py:310-344 | from what was printed of a forest, objects that stand for the same tree |
| ProcessObjects.ProcessTreeObject.GetProcess | drakrun/analyzer/postprocessing/process_tree.py:109-116 | the object found is the one the value lookup names |
| ProcessObjects.ProcessTreeObject.GetProcessForEvtid | drakrun/analyzer/postprocessing/process_tree.py:100-107 | the object found is the one the value lookup names |
| ProcessObjects.ProcessTreeObject.AddProcess | drakrun/analyzer/postprocessing/process_tree.py:60-98 | the objects change as the value does: predecessor ended, process appended, child listed |
| ProcessObjects.ProcessTreeObject.ChangeParent | drakrun/analyzer/postprocessing/process_tree.py:48-53 | the objects change as the value does, also when old and new parent or process and parent are one object |
| ProcessObjects.ProcessTreeObject.ParseRunningProcessEntry | drakrun/analyzer/postprocessing/process_tree.py:147-158 | refines the entry's step on values |
| ProcessObjects.ProcessTreeObject.ParseCreateProcessEntry | drakrun/analyzer/postprocessing/process_tree.py:173-198 | refines the entry's step; unsuccessful calls change nothing |
| ProcessObjects.ProcessTreeObject.ParseCleanAddressSpaceEntry | drakrun/analyzer/postprocessing/process_tree.py:227-237 | refines the entry's step on values, of which Biography.ExitExactly says what it is |
| ProcessObjects.ProcessTreeObject.ParseTerminateEntry | drakrun/analyzer/postprocessing/process_tree.py:240-262 | refines the entry's step, with the failure for an unknown killer |
| ProcessObjects.ProcessTreeObject.ParseOtherEntry | drakrun/analyzer/postprocessing/process_tree.py:292-300 | refines the rebinding of an elevated process, with the failure for an unknown PID |
| ProcessObjects.ReadTree | drakrun/analyzer/postprocessing/process_tree.py:265-307 | the objects read from a log stand for the tree that the replay gives, or the same failure is raised |
| TreeSearch.GetProcessParents | drakrun/web/frontend/src/ProcessTreeView.jsx:9-27 | the worklist ends, and finds the first match in preorder with its parents |
| TreeSearch.ParentsAreAncestors | drakrun/web/frontend/src/ProcessTreeView.jsx:9-27 | in a printed tree it returns exactly the chain from the root, and undefined if and only if the process is not printed |
| TreeSearch.GetInterestingProcesses | drakrun/web/frontend/src/ProcessTreeView.jsx:29-44 | the loop with its recursion computes the set of Expanded |
| TreeSearch.InterestingExactly | drakrun/web/frontend/src/ProcessTreeView.jsx:5-7 | a process is interesting if and only if its name ends in explorer.exe |
| TreeSearch.ExpandedExactly | drakrun/web/frontend/src/ProcessTreeView.jsx:29-44 | that set is exactly the interesting processes and all their ancestors |
| Framing.FrameExact | drakrun/lib/drakshell.py:125-141 | of an encoded response, the host waits for exactly the missing bytes at every prefix, and decodes it when complete |
| Framing.DecodesFront | drakrun/lib/drakshell.py:125-141 | a response is recognised at the front of a stream whatever follows |
| Framing.WireFormat | drakrun/tools/drakshell/drakshell.c:132-161 | each kind of response is its code, as a number, and its fields in little-endian order |
| Framing.Port.SendN | drakrun/tools/drakshell/drakshell.c:110-126 | partial writes add up to the buffer, or a failed write leaves a beginning of it |
| Framing.Port.Send | drakrun/tools/drakshell/drakshell.c:132-161 | each kind of response goes out as its encoding, or as a beginning of it on failure |
| Framing.SendAll | drakrun/tools/drakshell/drakshell.c:110-161 | so does a list of responses |
| Framing.Socket.RecvN | drakrun/lib/drakshell.py:81-89 | partial reads add up to exactly size bytes, or the socket has ended |
| Framing.Socket.RecvResponse | drakrun/lib/drakshell.py:125-141 | reads one frame and no byte more; an unknown code or an early end is an error |
| Framing.Socket.RecvResponses | drakrun/lib/drakshell.py:125-141 | a stream of encoded responses is received as exactly those responses |
| Framing.Transfer | drakrun/lib/drakshell.py:73-141 | round trip: any responses, sent with any partial writes and received with any partial reads, arrive as the same list |
| SessionSync.HostActKeeps | drakrun/lib/drakshell.py:260-340 | the host expects the response that is first in its channel, unless a command was too long for the guest |
| SessionSync.GuestActKeeps | drakrun/tools/drakshell/drakshell.c:385-436 | every reaction of the guest keeps what is under way in both channels matched with what the host waits for |
| SessionSync.SignalKeeps | drakrun/tools/drakshell/drakshell.c:464-724 | so does every turn of the message loop, in any order of its signals |
| SessionSync.SessionInSync | drakrun/lib/drakshell.py:260-340 | with fitting commands and nothing sent to processes no run sees an unexpected status; after each call both channels are empty, the guest is at the top, and all output was handed on |
| SessionSync.NeverStuck | drakrun/lib/drakshell.py:260-340 | as long as calls are left some end can take a step |
| SessionLimit.SomeRunLosesSync | drakrun/tools/drakshell/drakshell.c:415-418 | a command of 2047 or 2048 bytes has a run that loses the session |
| SessionLimit.InSyncExactly | drakrun/lib/drakshell.py:296-298 | when nothing is sent to processes, every run stays in step if and only if no command has 2047 or 2048 bytes |
| SessionInput.FittingInputInSync | drakrun/lib/drakshell.py:144-236 | with fitting commands, fitting stdin and no call behind a process that is sent anything, no run sees an unexpected status |
| SessionInput.FeedingStep | drakrun/tools/drakshell/drakshell.c:500-560 | every step of such an interaction keeps the guest reading the inputs as they were sent, or ends it as the host expects |
| SessionInput.SomeProcessLosesSync | drakrun/tools/drakshell/drakshell.c:515-523 | otherwise some run, from the start of the session on, loses it |
| SessionInput.StaysInStepExactly | drakrun/lib/drakshell.py:144-345 | for all calls and whatever they send to processes: every run stays in step if and only if no command has 2047 or 2048 bytes, and of every process that is sent anything the pieces of stdin in front of the first termination have at most 1024 bytes and no call follows |
| SessionInput.NeverStuckInRuns | drakrun/lib/drakshell.py:144-345 | in every run of such a session some end can take a step until all calls are over |
| SessionAnswers.CallsAreAnswered | drakrun/lib/drakshell.py:258-345 | in every run of every session, whatever the guest does: calls take place in order, and one that is over has received the response meant for it, connect a pong, get_info the ids, an execution its start, its exit or why it did not start |
| SessionAnswers.AnswersAreTrue | drakrun/lib/drakshell.py:258-345 | when commands and input fit, what a call has received is true: the ids are those that the guest had, the error the one with which the process did not start, the code the one with which it ended |
| OutputDelivery.OutputDelivered | drakrun/lib/drakshell.py:173-216 | in a session of any calls, from the moment the host interacts with a process up to the next call, with stdin and termination at any time and output or exit overtaking the start: what is handed on of stdout and of stderr is a beginning of what was read, and all of it once the end was seen |
| OutputDelivery.ReadIsHandedOn | drakrun/tools/drakshell/drakshell.c:464-724 | the same by the events: what is handed on of stdout is a beginning of what the guest read from the stdout of the process, block after block, the same for stderr, and all of it once the end was seen |
| StdinDelivery.StdinIsWritten | drakrun/tools/drakshell/drakshell.c:500-560 | in a session whose commands and input fit: what the guest writes to the stdin of a process is a beginning of what is sent to it in front of the first termination, without gap or repetition, and all of it once everything was sent and read while the process is served |
| OutputDelivery.InteractionBegins | drakrun/lib/drakshell.py:313-334 | when the host begins to interact, what is under way are exactly the blocks read so far, and the exit if the process is gone |
| OutputDelivery.SignalDelivers | drakrun/tools/drakshell/drakshell.c:464-724 | one turn of the message loop keeps the blocks under way equal to what is read but not handed on |
| Handles.CloseStdHandles | drakrun/tools/drakshell/drakshell.c:183-212 | closes exactly the handles that are set, each once |
| Handles.InitStdHandles | drakrun/tools/drakshell/drakshell.c:214-328 | six different open handles, or, wherever it fails, everything closed again |
| Handles.CreateProcess | drakrun/tools/drakshell/drakshell.c:330-383 | the guest's three ends and the process stay open, or on any failure nothing does |
| Handles.MessageLoop | drakrun/tools/drakshell/drakshell.c:464-673 | uses open handles only, closes at most the process, and that only when it reports the exit |
| Handles.CleanUp | drakrun/tools/drakshell/drakshell.c:675-707 | closes the process if the loop has not, and each pipe end, exactly once |
| Handles.ProcessExecute | drakrun/tools/drakshell/drakshell.c:385-724 | for every point at which a handle cannot be created: the handles of before are untouched and none remains, except four while the loop runs, and exactly when an interactive start cannot be reported |
| Handles.UnreportedStart | drakrun/tools/drakshell/drakshell.c:428-430 | an example: a start that is not reported, and the four handles that stay open |
| Network.Machine.AddRule | drakrun/lib/networking.py:104-106 | a rule is appended if and only if it was absent and no command failed |
| Network.Machine.DelRule | drakrun/lib/networking.py:109-117 | ends; afterwards the list is the old one without every copy of the rule, or on failure without some of them |
| Network.Machine.DeleteBridge | drakrun/lib/networking.py:314-330 | fails only for a bridge that is there and stays; otherwise the bridge is gone, unless its deletion fails unnoticed |
| Network.Machine.Start | drakrun/lib/networking.py:246-311 | completed: DHCP is accepted and all else dropped, always; DNS is accepted if and only if the network is enabled and asks its gateway; masquerading and forwarding both ways exactly when enabled; no other rule is the machine's, and the others' are untouched; failed anywhere: every machine in order, others untouched; stuck on a bridge without description |
| Network.Machine.Stop | drakrun/lib/networking.py:338-368 | completed: no rule of the machine is left, whatever the configuration is by then; failed: in order, others untouched |
| Network.OwnsNoneExactly | drakrun/lib/networking.py:338-368 | that is: no rule names the bridge or the network of the machine |
| Network.Machine.StartOthersStop | drakrun/lib/networking.py:246-368 | a completed start, any operations of others, a completed stop: the machine's rules are gone and the others' as they left them; alone it restores the chains |
| Network.Machine.Run | drakrun/lib/networking.py:246-368 | any sequence of starts and stops keeps every machine in order and touches no rule but theirs |
| NetworkSteps.HappenKeeps | drakrun/lib/networking.py:246-368 | every command, done, missed or failed, keeps a machine in order: no rule without bridge or description, accepting rules before the dropping one |
| NetworkSteps.OthersUntouched | drakrun/lib/networking.py:104-117 | a command of one machine leaves the rules of another as they are |
| NetworkSteps.HappensAlone | drakrun/lib/networking.py:89-117 | a machine's commands find and change among all rules what they would among its own |
| NetworkSteps.AlwaysInOrder | drakrun/lib/networking.py:246-368 | at every moment of every interleaving of commands every machine is in order |
| NetworkSteps.Isolated | drakrun/lib/networking.py:246-368 | in every interleaving each machine ends where its own commands alone would have taken it |
| NetworkSteps.Completed | drakrun/lib/networking.py:246-368 | under any interleaving a completed start leaves exactly the rules listed for Start, a completed stop none that names the machine's bridge or network |
| NetworkSteps.Restored | drakrun/lib/networking.py:246-368 | a machine without rules that ends without rules has restored the chains |
| NetworkSteps.StartableExactly | drakrun/lib/networking.py:246-368 | from an idle machine some run completes a start if and only if it has a saved description or no bridge |
| NetworkOperations.StuckExample | drakrun/lib/networking.py:246-311 | from a fresh host, one start that fails behind its bridge leads to a machine that cannot be started |
| NetworkOperations.StartBySteps | drakrun/lib/networking.py:246-311 | a whole start that completes leads where some run of single commands leads |
| NetworkOperations.StopBySteps | drakrun/lib/networking.py:338-368 | so does a whole stop |
| Dumps.Prefilter | drakrun/analyzer/postprocessing/plugins/process_dumps.py:46-83 | keeps exactly the counted dumps, and fails if and only if a dump without a process is looked at |
| Dumps.RegionNumbered | drakrun/analyzer/postprocessing/plugins/process_dumps.py:73-83 | the dumps of one PID and address are numbered 1, 2, 3 in the order of the log |
| Dumps.CountedFits | drakrun/analyzer/postprocessing/plugins/process_dumps.py:62-72 | what passes is within the size bounds and not of the system process when that is filtered |
| Dumps.CountedExactly | drakrun/analyzer/postprocessing/plugins/process_dumps.py:46-83 | counted are exactly the dumps whose files exist, with a known process that is not filtered out and a size within the bounds, in the order of the log, each ranked one behind the earlier ones of its PID and address |
| Sorting.SortExact | drakrun/analyzer/postprocessing/plugins/process_dumps.py:90-96 | the sort is ordered, a permutation, and stable |
| Dumps.Cutoff | drakrun/analyzer/postprocessing/plugins/process_dumps.py:101-108 | the first place at which the distinct files exceed the budget |
| Dumps.Select | drakrun/analyzer/postprocessing/plugins/process_dumps.py:97-114 | keeps the prefix up to that place, counting each file once |
| Dumps.KeptSize | drakrun/analyzer/postprocessing/plugins/process_dumps.py:97-114 | the kept files are at most max_total + max_single bytes, and more than max_total when something is dropped |
| Dumps.LeftOut | drakrun/analyzer/postprocessing/plugins/process_dumps.py:90-114 | a counted dump is dropped only when the budget is exceeded, and then every chosen one is an earlier copy, or of the same rank with an index that is not higher |
| Dumps.EarlierCopiesKept | drakrun/analyzer/postprocessing/plugins/process_dumps.py:87-114 | with a copy of a region all its earlier copies are kept |
| Dumps.Pack | drakrun/analyzer/postprocessing/plugins/process_dumps.py:116-133 | each process's list is its dumps in order, and the archive's entries are the first dumps that name each file |
| Dumps.FilesExact | drakrun/analyzer/postprocessing/plugins/process_dumps.py:125-133 | the archive names exactly the files of the chosen dumps, each once |
| Dumps.ArchiveWithinBudget | drakrun/analyzer/postprocessing/plugins/process_dumps.py:97-133 | with true sizes the whole archive exceeds the budget by at most one dump |
| Dumps.ReportedInOrder | drakrun/analyzer/postprocessing/plugins/process_dumps.py:116-124 | a process's dumps are reported by ascending index |
| Dumps.NoneLost | drakrun/analyzer/postprocessing/plugins/process_dumps.py:141-157 | the report has as many dumps as were chosen, each under its process |
| Dumps.Report | drakrun/analyzer/postprocessing/plugins/process_dumps.py:143-156 | ascending processes with exactly the collected lists |
| Dumps.Process | drakrun/analyzer/postprocessing/plugins/process_dumps.py:16-158 | from the log to report and archive, with the choice that LeftOut describes; fails exactly if a dump without a process is looked at; an empty directory if and only if nothing was chosen; each file is listed with the address of its first dump |
| Http.LastOpen | drakrun/analyzer/postprocessing/plugins/get_http_info.py:67-73 | the last call that opened the handle, and none behind it |
| Http.TableExact | drakrun/analyzer/postprocessing/plugins/get_http_info.py:64-183 | after any calls the table holds for every handle: the last open, its connection by the latest earlier connect on the given handle, its session by the latest open before that, and exactly the headers added since |
| Http.ProcessesApart | drakrun/analyzer/postprocessing/plugins/get_http_info.py:64-183 | what is found for a handle depends on the calls of its own process only |
| Http.UrlsExact | drakrun/analyzer/postprocessing/plugins/get_http_info.py:94-101 | a process is listed for a URL if and only if it cracked or created it |
| Http.RequestKeysExact | drakrun/analyzer/postprocessing/plugins/get_http_info.py:112-121 | the handles reported are the request handles, each once |
| Http.Record | drakrun/analyzer/postprocessing/plugins/get_http_info.py:64-183 | one call changes both tables, which share the request objects, as the specification does; it fails exactly on a missing process or argument |
| Http.AssembledExact | drakrun/analyzer/postprocessing/plugins/get_http_info.py:186-195 | the reported request has exactly the known fields that are not empty, and the process number always |
| Http.GetHttpInfo | drakrun/analyzer/postprocessing/plugins/get_http_info.py:59-205 | for every trace: one request per request handle in order of first opening, being the last one opened, fully correlated; None if and only if a call fails |
| HttpCalls.ReportedFromCalls | drakrun/analyzer/postprocessing/plugins/get_http_info.py:59-205 | a reported request says arguments 1, 2, 3, 4 and 6 of the last OpenRequest of its handle, 1 and 2 and for WinInet 3 to 5 of the Connect it was given, 0, 2 and 3 of the session that was given, and the headers added since, each when not empty, and nothing else |
| HttpCalls.FailsExactly | drakrun/analyzer/postprocessing/plugins/get_http_info.py:64-183 | it fails if and only if a call has no process, an argument too few, or a text as its port |
| HttpCalls.KeysExactly | drakrun/analyzer/postprocessing/plugins/get_http_info.py:112-121 | the handles reported are those that OpenRequest calls returned, in the order of their first calls |
| HttpCalls.UrlsFromCalls | drakrun/analyzer/postprocessing/plugins/get_http_info.py:94-101 | a process is listed for a URL if and only if it is argument 0 of a CrackUrl call or argument 3 of a CreateUrl call of it |
| HttpCalls.GetHttpInfoByCalls | drakrun/analyzer/postprocessing/plugins/get_http_info.py:59-205 | the whole report in these terms |

## Left out

- LogIndex.IndexLogFile: models the call with a key, as build_log_index makes it; the variant without a key has no caller.
- LogIndex.IndexLogFile: a log is a sequence of byte lines with known offsets; text decoding and the cookies of f.tell() are not modelled.
- LogService.ProcessLogs: starts from skip and length; the Range header and the bound convention of the web framework are not part of this model.
- LogPager.LogLoader.Run: requires ranges that hold the longest line, since the loader does not move otherwise (LogPager.ProgressExactly says so); what is shown of a log that is not ASCII is only bounded, and proved to be wrong.
- Utf8.Decode: byte order marks at the front of a reply, and a charset other than UTF-8 in its header.
- BinaryStream.SeekableStreamingBody.Seek: errors of the S3 client other than InvalidRange, and seeks that are not from the start.
- Attribution.LinesFindTheirProcess: event ids are taken to be at least 1 and to grow in the process log; entries of running processes come first.
- Framing.Socket.RecvResponse: timeouts, and `recv_response` on a closed socket.
- SessionInput.StaysInStepExactly: messages to a process are one read of its stdin or a request to terminate; they are sent while the host interacts, in the order of the list. Timeouts and signals of join are left out, and the byte that a failing guest reports as RESP_BAD_REQ.
- SessionAnswers.AnswersAreTrue: finish, and run that terminates drakshell, are not among the calls; they end the session.
- OutputDelivery.OutputDelivered: begins where nothing of an earlier stdin is under way.
- Session.GuestAct: commandLine[commandLineBytesRead] uses a byte count as an index of wide characters; nothing is said about where the terminator goes.
- Session.GuestAct: host sends are not cut short; socket.send is taken to accept the whole message.
- Handles.ProcessExecute: event handles of the overlapped operations and of the read and write wrappers are not modelled, nor what Windows does with pending operations.
- Network.Machine.Start: chains are set up, scripts, dnsmasq and ip_forward are successes or failures; the external interface is assumed not to be a bridge of a machine, as two machines would share rules otherwise.
- NetworkSteps.AlwaysInOrder: one start or stop at a time for each machine; interleaved commands are those of different machines.
- TreeDict.AsDict: printing is modelled on values, as it only reads; parsing also on objects (DictReader).
- Sorting.SortExact: the library's sort is modelled as an insertion that keeps the order of equal keys.
- Dumps.ArchiveWithinBudget: requires that the log names one size for each file and that the limits are not negative.
- Http.GetHttpInfo: names of calls without their A or W suffix, and parsed arguments; parsing and the suffix are left out.
- MessagePack itself: any self-delimiting serializer will do; Serializer has one.
- JSON, command-line splitting, storage backends, Xen, the injector, Flask routes, Redis workers, rendering, configuration and the CLI: plumbing or library code.
- as_dict's omission of optional fields, timestamps as text, and `__str__`.
