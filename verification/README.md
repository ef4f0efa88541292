# Models of the bundled C libraries

Arturo ships several C libraries with its runtime. This project models the parts of them that are hard to get right and
proves what they are for: the epoll emulation for Windows (`wepoll`), the CommonMark parser and HTML renderer (`md4c`),
the coroutine library (`minicoro`) and the line editor (`linenoise`).

`dafny verify dfyconfig.toml` checks the whole project (Dafny 4.11).

## What is modelled

- **The red-black tree of wepoll** (`TreeShape`, `TreeRotation`, `RedBlackLaws`, `RemoveLaws`, `TreeSplice`,
  `WepollTree`). Nodes with parent pointers are rewritten in place. A class `Tree` relates the heap to an inductive tree,
  seen as a subtree and the path above it, so that every pointer assignment of a rotation, an insertion or a removal is
  proved against that value.
- **The reflock** (`Reflock`). A transition system over any number of threads (fewer than 2^28) that call `epoll_create`,
  `epoll_ctl`, `epoll_wait` and `epoll_close`. Every atomic action is one step, and the steps interleave freely.
- **Ports and sockets** (`Queues`, `PollGroups`, `SockEvents`, `Maps`, `Port`). The intrusive queues, the poll groups, and
  the port with its update queue, deleted queue and socket tree; what the kernel, the allocator and the completion port
  answer is left open.
- **Emphasis in md4c** (`Marks`, `MarkLaws`, `Delimiters`, `Emphasis`, `Inlines`, `Spans`). From the text to the span events.
  The reference is `Marks.SimpleRun`: walk over the runs, and for each potential closer look back for the nearest opener
  that the rule of 3 allows. The source keeps the openers in stacks instead. `MarkLaws` says what the final pairs are
  without either.
- **Code spans** (`CodeSpans`, `CodeSpanPass`, `Lines`). The search for a closing run of back-ticks with its memory of
  earlier searches, against a search without memory; and the pass over all back-ticks of a block, against the rule that
  every run takes the nearest closer there is.
- **Reference definitions** (`Labels`, `RefDefs`, `Fnv`). Label comparison and hashing, the hash table with sorted buckets,
  against the rule that the first definition with a matching label counts.
- **Blocks** (`Containers`). Container records, leaf blocks and their lines, from line to line, and the calls made from
  them in the end.
- **Attributes** (`Attributes`) and **the HTML renderer** (`Html`), which `SpanPage` joins to the spans: from the text of a
  block to its HTML.
- **Coroutines** (`Coroutines`). The chain of resumed coroutines of one thread, and any program of calls on it.
- **The line editor** (`Text`, `Utf8`, `LineEditor`) and **its history** (`History`). The editor works with any encoding
  that reads back what it writes (`Text.Faithful`); UTF-8 is shown to be one.

## Findings

Where the code does not do what its own documentation or tests promise, the exact condition is proved.

- A run of at most 32 back-ticks becomes a code span whenever its closing run exists, except for runs of exactly 32 after
  an earlier search of the paragraph has failed (`CodeSpans.Finder.IsCodeSpan`, `CodeSpans.LongRunsAreMissed`); longer runs
  never do. The memory has a place for lengths up to 32 but records only those below. A whole block is read as without the
  memory if, and only if, without it no span of 32 would come after a run that has no closer
  (`CodeSpanPass.MemoryIsHarmless`).
- `md_lookup_line` is meant to give the next line for a place between two lines. It does so exactly if the halving comes to
  that line with no other line left, and otherwise gives NULL (`Lines.Lookup`, `Lines.GapIsLost`). The places that it is
  asked for are inside lines.
- A reference whose label ends with white space (`[foo ]`) is looked up under another hash than its definition. It is found
  exactly if it lands in the same bucket and is alone there, or if the hashes happen to agree
  (`RefDefs.Dictionary.Lookup`, `RefDefs.MissedAtSpace`). `md_is_link_reference` does not trim the label that it passes.
- A saved history comes back exactly if no entry is empty; an empty entry reads like the end of the file
  (`History.RoundTrip`). A line that ends in the middle of an escape makes the decoder step over the terminator
  (`History.DecodeInPlace`, `History.LoneBackslash`); lines that were saved never do.
- Ctrl-T on a line of one character with the cursor behind it deletes the character (`LineEditor.TransposeKeeps`).
- Raw HTML inside the description of an image is written into the `alt` attribute as it is; the description stays inside
  its quotes exactly if the raw HTML has no quote or angle bracket (`Html.DescriptionIsHarmless`,
  `Html.RawHtmlInDescription`).
- Escaping for HTML drops NUL characters, as the terminator of the list of special characters counts as one of them; the
  text comes back exactly if it has none (`Html.EscapeRoundTrip`, `Html.NulIsLost`).
- An empty attribute is a single empty piece, so that its offsets do not increase (`Attributes.Build`).
- An `epoll_ctl` that is still under way when the port has been closed runs into the assertion in `port_get_iocp_handle` if
  it needs a new poll group (`Port.AddAfterClose`); such a call exists (`Reflock.UseAfterPortClose`).

## Reading the model

- `tree_add` and `tree_del` are split into several methods, one for each part of the function. Their contracts speak about
  a focus in the tree: `At(s, c, t)` says that the nodes `s` are the subtree `t` in the context `c`.
- The tree lock of wepoll is held by the threads at certain program points. In `Reflock` a thread that uses a port may wait
  in `GetQueuedCompletionStatusEx`, again and again; it goes on when a packet comes or its time is up, and, as documented
  by Windows, when the completion port is closed. What is done between the waits is one step there; `Port` has what it is.
  A keyed event is a rendezvous of the two threads.
- `Port` has its queues as sequences and its tree as a map; `Queues.Queue` and `WepollTree.Tree` show that the linked
  structures behave like that. Event masks are sets of bit numbers.
- What the system answers in `Port` is kept in history variables: `inFlight` are the requests it has not answered yet,
  `shut` the sockets it has called closed, `refusals` counts what it has refused. `Port.Updated` and `Port.Fed` compare two
  moments of a port and say which sockets have been freed in between, and which requests made or answered.
- Marks keep the fields of `MD_MARK`; the opener stacks are a sequence of stack tops, linked through `next` as in the source.
- Automatic induction is switched off on every lemma; inductive proofs call themselves. A `hide` statement at the beginning
  of a proof names the functions whose definitions it does without.

## Model

| member | source | states |
|---|---|---|
| WepollTree.Tree.Add | src/extras/wepoll/wepoll.c:2036-2069 | returns -1 and changes nothing exactly if the key is present; otherwise adds that key alone, with order, parent links, colours and black height kept |
| WepollTree.Tree.Del | src/extras/wepoll/wepoll.c:2096-2167 | removes exactly the given node, which keeps its fields; every other key stays with its node and the tree is a red-black tree again |
| WepollTree.Tree.Find | src/extras/wepoll/wepoll.c:2169-2180 | agrees with the map of contents, and looks at exactly the nodes on the way to the key, no more than 2 log2(n + 1) |
| WepollTree.Tree.Balanced | src/extras/wepoll/wepoll.c:2036-2167 | whatever has been added and removed, no path from the root is longer than 2 log2(n + 1) |
| WepollTree.Tree.Rotate | src/extras/wepoll/wepoll.c:1980-2007 | both rotations, from the pointer assignments: the heap holds the rotated tree, and nothing around it changes |
| WepollTree.Tree.FixInsert | src/extras/wepoll/wepoll.c:2017-2064 | the loop ends, repairs a red node under a red parent, and keeps the order of all items |
| WepollTree.Tree.ClimbAfterRemove | src/extras/wepoll/wepoll.c:2071-2164 | the loop ends, makes up for the missing black node, and keeps the order of all items |
| WepollTree.Tree.Lift | src/extras/wepoll/wepoll.c:2096-2139 | a node with two children is replaced by its successor: the tree is the old one with that node renamed and its place cut out |
| WepollTree.Tree.Descend | src/extras/wepoll/wepoll.c:2009-2049 | finds the key or the one empty place where it belongs |
| RedBlackLaws.HeightBound | src/extras/wepoll/wepoll.c:2036-2069 | the height of a tree without a red node under a red parent, and with equal black heights, is at most twice the black height, and one more where the root is red |
| RedBlackLaws.InsertRotate | src/extras/wepoll/wepoll.c:2017-2034 | the last rotation of an insertion leaves no red node under a red parent around it, and the order of the items as it was |
| RemoveLaws.FarNephew | src/extras/wepoll/wepoll.c:2082-2090 | the last rotation of a removal makes up for the missing black node |
| RedBlackLaws.SortedInsert | src/extras/wepoll/wepoll.c:2039-2056 | a key put into the place that the search found leaves the items in order |
| TreeSplice.SpliceContents | src/extras/wepoll/wepoll.c:2096-2139 | moving the successor removes one item and no other |
| Reflock.EveryRun | src/extras/wepoll/wepoll.c:1554-1585 | in every interleaving no assertion fails and no freed port is touched; references are taken only while the port is in the tree; the destroyer that has passed its wait is alone, was signalled exactly if it waited, and exchanges exactly REFLOCK__DESTROY |
| Reflock.StepInv | src/extras/wepoll/wepoll.c:1905-1970 | every step of every thread keeps the invariant: the word counts the references, and who holds one knows the port |
| Reflock.NeverStuck | src/extras/wepoll/wepoll.c:591-681 | while a call is under way that is not waiting for events of an open port, some thread inside a call can move, and it needs no packet and no time-out for that |
| Reflock.BoundedRun | src/extras/wepoll/wepoll.c:591-681 | without new calls, every run is over after a number of steps known in advance and two for each packet that is taken, whatever the scheduler does |
| Reflock.Quiesce | src/extras/wepoll/wepoll.c:591-681 | from every reachable state, without any packet or time-out, all calls can be brought to their end but those that wait for events of a port that is still open: every `epoll_close` ends, and so do the waits on its port |
| Reflock.UseAfterPortClose | src/extras/wepoll/wepoll.c:591-614 | a state is reachable where a thread still uses a port whose completion port is closed |
| Queues.Queue.Remove | src/extras/wepoll/wepoll.c:1470-1510 | takes exactly that node out, and leaves its own links empty |
| Queues.Queue.MoveToStart | src/extras/wepoll/wepoll.c:1497-1500 | the node comes first, and the others keep their order |
| Queues.Queue.Append | src/extras/wepoll/wepoll.c:1490-1495 | the node comes last |
| Queues.Queue.MoveToEnd | src/extras/wepoll/wepoll.c:1502-1505 | the node comes last, and the others keep their order |
| PollGroups.GroupQueue.Acquire | src/extras/wepoll/wepoll.c:994-1012 | full groups stay in front, sizes stay at most 32, a new group is made only if all are full, one slot more is in use, and the peak is the greater of what it was and that |
| PollGroups.GroupQueue.Release | src/extras/wepoll/wepoll.c:1014-1024 | gives back one slot of that group, and keeps the full groups in front |
| SockEvents.CoverMissesNothing | src/extras/wepoll/wepoll.c:1730-1770 | a poll for events that cover the interest reports to the user everything that any poll would report; what it reports is in the four rows below |
| SockEvents.AskedIsReported | src/extras/wepoll/wepoll.c:1730-1770 | every AFD event that a poll for an event looks for is reported as that event, and but for a failed connect and the closing of the socket no AFD event is reported as an event whose poll does not look for it |
| SockEvents.ReportedFor | src/extras/wepoll/wepoll.c:1752-1770 | event by event, the AFD events that each one is reported for |
| SockEvents.LookedForBy | src/extras/wepoll/wepoll.c:1730-1750 | event by event, the AFD events that a poll for it looks for |
| SockEvents.ReportsJoin | src/extras/wepoll/wepoll.c:1752-1770 | several AFD events are reported as all that each of them is reported as, and as nothing else |
| SockEvents.RequestsJoin | src/extras/wepoll/wepoll.c:1730-1750 | a poll for several events looks for what a poll for each of them looks for, and for nothing else |
| Port.Port.UpdateSock | src/extras/wepoll/wepoll.c:1772-1832 | leaves the update queue unless the system refuses something; then the pending poll covers the interest, or is being cancelled, or the socket was idle, has turned out to be closed and is freed; only an idle socket gets a request, and only its own |
| Port.Port.UpdateEvents | src/extras/wepoll/wepoll.c:1168-1184 | ends, with an empty update queue and no interest that nobody looks for, unless the system has refused something; exactly the idle sockets that turn out to be closed are freed, no request is forgotten, and a socket that is not queued does not change |
| Port.Port.FeedEvent | src/extras/wepoll/wepoll.c:1834-1887 | the completion refers to a socket that exists; it is freed exactly if it was marked for deletion or the port was lost; otherwise an event is reported exactly if it was asked for and an AFD event has happened that a poll for it looks for, or the connect has failed, which counts as six events, or the request failed, which is an error; a one-shot socket falls silent exactly when something is reported |
| Port.Port.FeedEvents | src/extras/wepoll/wepoll.c:1191-1207 | a batch of completions reports each socket as if it were alone: every socket that is owed an event gets one, with its own data and exactly the events it is owed, and no other event is reported; exactly the sockets that are marked for deletion or turn out to be closed are freed and leave the tree, exactly the requests of the batch are over, the others of the batch ask for an update, and no socket outside of it changes |
| Port.ReportsAreOwed | src/extras/wepoll/wepoll.c:1834-1887 | a completion is turned into one event or none, with exactly the requested events that it calls for |
| Port.Port.Delete | src/extras/wepoll/wepoll.c:1676-1711 | leaves the tree and the update queue, and is freed only when idle, unless forced |
| Port.Port.CtlAdd | src/extras/wepoll/wepoll.c:1319-1334 | all outcomes; on failure the port and the sockets are what they were and no slot is lost; on success the new socket is the only one more, and the update, if threads are waiting, frees only idle sockets that turn out to be closed; the other sockets keep their events and data; the peak becomes the greater of what it was and the slots in use when a slot is claimed |
| Port.Port.CtlMod | src/extras/wepoll/wepoll.c:1336-1349 | fails exactly if the socket is not registered; otherwise its events and data are the new ones, and those of the others are kept; the update, if threads are waiting, frees only idle sockets that turn out to be closed and forgets no request |
| Port.Port.CtlDel | src/extras/wepoll/wepoll.c:1351-1359 | fails exactly if the socket is not registered; otherwise it leaves the tree and the update queue, is freed exactly if it is idle and else stays in the deleted queue with its request, and no other socket changes |
| Port.Port.BeginPoll | src/extras/wepoll/wepoll.c:1209-1239 | before the thread waits, every registered socket is covered by its poll or being cancelled; it does not wait exactly if the system has refused something; the sockets are treated as by `UpdateEvents` |
| Port.Port.EndPoll | src/extras/wepoll/wepoll.c:1209-1239 | the poll is over; the events are those of the completions that were taken, with the effect of `FeedEvents` and no other, and without any nothing else changes |
| Port.Port.EnterWait | src/extras/wepoll/wepoll.c:1241-1284 | the thread waits exactly if the system has refused nothing, and then the update queue is empty and every registered socket is covered by its poll or being cancelled; otherwise other threads still wait with an empty update queue, unless an update has failed; the sockets are treated as by `UpdateEvents` |
| Port.Port.LeaveWait | src/extras/wepoll/wepoll.c:1280-1317 | the thread waits again exactly if it took packets that report nothing, has time left, and the system refuses nothing; before the lock is given up, the update queue is empty if any thread waits, unless an update has failed; the sockets are treated as by `FeedEvents` and then `UpdateEvents` |
| Port.Port.DeletePort | src/extras/wepoll/wepoll.c:1137-1166 | its assertions hold: no socket, queue entry or poll group is left |
| Port.Port.Accounted | src/extras/wepoll/wepoll.c:1390-1442 | every socket that exists is in the tree or in the deleted queue, and queued ones exist |
| Port.Port.SlotsInUse | src/extras/wepoll/wepoll.c:955-1024 | slots in use are the sockets that exist, and 32 (groups - 1) stays below the peak, the most slots that were ever in use: `CtlAdd` raises it as needed, and no other call changes it |
| Port.SlotsAreSockets | src/extras/wepoll/wepoll.c:1635-1674 | the sizes of the groups add up to the number of sockets |
| Port.AddAfterClose | src/extras/wepoll/wepoll.c:1444-1447 | the assertion fails for a call that needs a new group after the port has been closed |
| Delimiters.CollectMarks | src/extras/md4c/md4c.c:3037-3090 | exactly the runs that can open or close are marked, with the flags of the flanking rules in section 6.2 of the CommonMark specification and their length modulo 3 |
| Delimiters.Flags | src/extras/md4c/md4c.c:3038-3068 | levels of white space, punctuation and other characters give the left- and right-flanking rules; an asterisk opens where it is left-flanking, an underscore exactly where a character follows that is no white space and white space or punctuation comes before, a tilde where no white space follows; and the other way round for closing |
| Marks.JoinOk | src/extras/md4c/md4c.c:2661-2709 | pairing the inner ends of two runs keeps pairs equally long, nested and inside their runs |
| Marks.RunParts | src/extras/md4c/md4c.c:3723-3828 | through all splitting every mark stays a part of its run, with the flags and the length of the run |
| Marks.RuleOf3IsAboutRuns | src/extras/md4c/md4c.c:2537-2559 | the test on two parts is the rule of 3 on the whole runs, however they have been split |
| MarkLaws.RunLaws | src/extras/md4c/md4c.c:3740-3828 | looking back ends with nothing left to pair, every closer with the nearest opener it may have, and of two runs that are paired one used up, where a run is closers, one unpaired rest and openers in this order |
| Emphasis.Analyzer.FindOpener | src/extras/md4c/md4c.c:3745-3778 | the last ending top of the allowed stacks is the nearest earlier live opener that the rule of 3 allows |
| Emphasis.Analyzer.AnalyzeEmph | src/extras/md4c/md4c.c:3740-3805 | one mark is paired, split or pushed as looking back would do, and the stacks hold exactly the live openers; what looking back ends with is in `MarkLaws.RunLaws` |
| Emphasis.Analyzer.AnalyzeTilde | src/extras/md4c/md4c.c:3807-3828 | the same for strikethrough, where lengths must be equal |
| Emphasis.Analyzer.Rollback | src/extras/md4c/md4c.c:2692-2709 | from every stack exactly the openers go that would cross the new pair |
| Emphasis.Analyzer.AnalyzeMarks | src/extras/md4c/md4c.c:4043-4106 | over a whole block the stacks make the pairs that looking back makes; on the marks themselves: no closer is left that could be paired with an unpaired opener from which no pair separates it; and, if it was so of the marks at the start, as it is of fresh ones, no closer passes over such an opener for one farther away and of two runs that are paired one is used up |
| Emphasis.CandidatesMatch | src/extras/md4c/md4c.c:3750-3767 | the stacks that are looked at are those of the openers that the rule of 3 allows |
| Inlines.ProcessInlines | src/extras/md4c/md4c.c:4213-4501 | mark by mark, an opener of an odd length enters one emphasis first and a strong emphasis for every two characters, or an underlining for each character, or one deletion, a closer leaves the same in reverse, and no other span is entered or left; the spans are well nested; the text shown is every place of the lines that no resolved delimiter covers, in order, each place behind as many line breaks as there are lines before its own, and inside exactly the spans of the pairs around it |
| Inlines.TagsTellMark | src/extras/md4c/md4c.c:4268-4312 | which spans, how many and in which order come of an opener or closer of each character and length |
| Inlines.RestShowsLines | src/extras/md4c/md4c.c:4213-4501 | what is to be shown is all of the lines that no resolved delimiter covers and nothing else, in order and line by line |
| Inlines.OpenAtCloser | src/extras/md4c/md4c.c:4270-4311 | a closer leaves exactly the spans that its opener entered |
| Spans.Render | src/extras/md4c/md4c.c:4109-4140 | from text to events: the pairs are those of looking back, a closer is left unpaired only if every opener of its character within reach is kept from it by the rule of 3 on the whole runs or, for tildes, by its length, the spans are those of the pairs, as many of each kind as their lengths call for, well nested and each around its text, and no character is lost |
| Spans.NoneIsMissed | src/extras/md4c/md4c.c:3740-3828 | an unpaired closer has no opener of its character within reach, except for tildes of another length and for runs that rules 9 and 10 of section 6.2 of the CommonMark specification keep apart |
| CodeSpans.Finder.IsCodeSpan | src/extras/md4c/md4c.c:2757-2843 | a run of at most 32 finds the nearest closing run of the same length exactly if there is one, but for runs of 32 after a failed search; longer ones find none |
| CodeSpans.Finder.NoCloser | src/extras/md4c/md4c.c:2787-2796 | what earlier searches have noted proves that there is no closer |
| CodeSpans.LongRunsAreMissed | src/extras/md4c/md4c.c:2787-2827 | two runs of 32 that are not paired |
| CodeSpanPass.Collect | src/extras/md4c/md4c.c:3099-3123 | run after run, the whole block is read by the rule of the nearest closer, where runs of 32 are barred after a failed search |
| CodeSpanPass.PassIsUnique | src/extras/md4c/md4c.c:3099-3123 | the rule, with or without the bar, leaves one reading of the block only |
| CodeSpanPass.PlainPass | src/extras/md4c/md4c.c:3099-3123 | every block can be read by the rule without the bar |
| CodeSpanPass.MemoryIsHarmless | src/extras/md4c/md4c.c:2787-2827 | the two readings are the same if and only if in the plain one no span of 32 comes after a run without a closer |
| Lines.Lookup | src/extras/md4c/md4c.c:496-528 | gives the line that a place is in; the next line of a place between two lines exactly if the halving comes to it alone, and otherwise nothing |
| Lines.GapIsLost | src/extras/md4c/md4c.c:496-528 | a place between the first and the second of three lines, for which nothing is found |
| Labels.LabelCmp | src/extras/md4c/md4c.c:1625-1683 | the labels compare as what they are folded to, the shorter one going on with spaces; labels that differ in white space before or between other characters, or in case, compare as equal |
| Labels.LabelHash | src/extras/md4c/md4c.c:1594-1623 | the hash depends on the folded code points alone |
| Labels.SpaceIsSpace | src/extras/md4c/md4c.c:1594-1651 | inside a label any white space, of any length, is as good as any other |
| Labels.SpaceInFront | src/extras/md4c/md4c.c:1594-1651 | white space at the beginning of a label does not count |
| Labels.NormSpace | src/extras/md4c/md4c.c:1594-1651 | white space behind other characters is one space |
| Labels.NormConcat | src/extras/md4c/md4c.c:1594-1651 | pieces of a label with no white space where they meet are folded one by one |
| Labels.NormOne | src/extras/md4c/md4c.c:1594-1651 | a character that is no white space is what the folding table has for it |
| Labels.AlikeMeansSame | src/extras/md4c/md4c.c:1594-1651 | labels that differ in white space before or between other characters, or in case, are folded to the same |
| Labels.PadTrans | src/extras/md4c/md4c.c:1654-1683 | the comparison is transitive, and an equality in between is one throughout |
| Labels.PadSym | src/extras/md4c/md4c.c:1654-1683 | the comparison is antisymmetric, so that with PadTrans it is a total preorder |
| Labels.PadZero | src/extras/md4c/md4c.c:1654-1683 | labels without white space at the end match only if they fold to the same code points, so that they hash alike |
| Fnv.OneByteApart | src/extras/md4c/md4c.c:1562-1575 | from every starting word, texts that differ in one byte only never have the same hash |
| Fnv.KnownHashes | src/extras/md4c/md4c.c:1559-1575 | the published hashes of two one-letter texts |
| RefDefs.HashIsOfBytes | src/extras/md4c/md4c.c:1562-1623 | the hash of a label, made piece by piece, is the hash of the bytes of all its folded code points |
| RefDefs.OneCharacterApart | src/extras/md4c/md4c.c:1562-1623 | labels that fold to texts with one single-byte character different never have the same hash |
| RefDefs.Dictionary.Build | src/extras/md4c/md4c.c:1735-1847 | every bucket is sorted, holds an equal of each of its definitions, and each entry is the first of its kind |
| RefDefs.Dictionary.Lookup | src/extras/md4c/md4c.c:1868-1906 | finds the first matching definition exactly if that is in the bucket, alone or with the same hash; always, if the label has no white space at its end, and if it differs from the label of a definition in white space before or between other characters, or in case |
| RefDefs.Dictionary.AlikeFound | src/extras/md4c/md4c.c:1868-1906 | a label that differs from that of a definition in white space before or between characters, or in case, finds that definition or an earlier one |
| RefDefs.Dictionary.AlikeFindSame | src/extras/md4c/md4c.c:1868-1906 | two labels that differ so find the same definition, or none |
| RefDefs.Dictionary.ReplaceDuplicates | src/extras/md4c/md4c.c:1833-1841 | every entry gives way to the first definition of its kind |
| RefDefs.Dictionary.Sort | src/extras/md4c/md4c.c:1712-1733 | the order in which equal definitions stay in the order of the document |
| RefDefs.AnswerHere | src/extras/md4c/md4c.c:1877-1905 | what is found in the bucket of the first match |
| RefDefs.AnswerElsewhere | src/extras/md4c/md4c.c:1877-1905 | nothing is found in any other bucket |
| RefDefs.MissedAtSpace | src/extras/md4c/md4c.c:1868-1906 | two definitions share a bucket, and one is not found by its label with a space behind it |
| RefDefs.SpacesMatter | src/extras/md4c/md4c.c:1562-1575 | with the real hash there are such labels |
| Containers.Parser.AnalyzeLine | src/extras/md4c/md4c.c:6278-6310 | the open containers are those of the line, and the records added are exactly the closers, the next item and the openers in this order; exactly the innermost list that the line goes on with becomes loose, if the line is one that loosens |
| Containers.Parser.EnterChildren | src/extras/md4c/md4c.c:5654-5699 | the opener records, outermost first; every list knows the place of its own |
| Containers.Parser.LeaveChildren | src/extras/md4c/md4c.c:5701-5742 | the closer records, innermost first |
| Containers.Parser.Loosen | src/extras/md4c/md4c.c:6278-6285 | the record that is marked is the opener of that list, and no other record changes |
| Containers.Parser.EndLeaf | src/extras/md4c/md4c.c:5069-5156 | what is left of a leaf block when its definitions and its underline have been taken away |
| Containers.NoLineLost | src/extras/md4c/md4c.c:5069-5156 | every line of a leaf block is part of a definition, of what is left of the block, or the underline of its heading; only a heading without text becomes a paragraph |
| Containers.Parser.StartNewBlock | src/extras/md4c/md4c.c:5014-5061 | the type of the block that a line of each type begins; nothing before it changes |
| Containers.Parser.ProcessLine | src/extras/md4c/md4c.c:6313-6387 | its assertions hold; there is a current block exactly if the pivot line is not the dummy one, and it is of the type of that line |
| Containers.Parser.ProcessAllBlocks | src/extras/md4c/md4c.c:4894-4975 | balanced calls, and an index that stays within the container vector; every leaf block is told that it is in a tight list exactly if the innermost list or quote around it is a list that has not been found to be loose, and every list is told whether it is tight |
| Containers.Parser.ProcessDoc | src/extras/md4c/md4c.c:6389-6419 | for every sequence of lines that suit the containers open before them, the container records of the document are those that the lines call for, one after the other, and everything is closed in the end; the calls are balanced, enter as many quotes, lists and items as the lines bring, tell every leaf block whether the innermost list around it is tight, and tell of a loose list exactly if some line loosens one |
| Containers.CallsAreFit | src/extras/md4c/md4c.c:4810-4830 | text right inside a quote, or outside of all lists, is never told to be in a tight list; other text is exactly if the innermost list is tight |
| Containers.EntersAsWanted | src/extras/md4c/md4c.c:4933-4970 | of each kind as many containers are entered as the marks and the further items of the lines bring |
| Containers.TightUnlessLoose | src/extras/md4c/md4c.c:4910-4925 | a call tells of something loose exactly if some list has been found to be loose |
| Containers.CallsBalance | src/extras/md4c/md4c.c:4933-4970 | the calls are nested as the records are |
| Containers.DepthOfContainers | src/extras/md4c/md4c.c:5632-5652 | every open container counts once for the depth, so that the vector is large enough |
| Attributes.Build | src/extras/md4c/md4c.c:1469-1552 | the pieces say what the raw text says, follow each other from 0 to the size, and none is empty or plain text split in two, unless the text is empty; an entity behind plain text is a piece of its own |
| Attributes.EntityIsPiece | src/extras/md4c/md4c.c:1509-1528 | an entity that the recogniser accepts behind text without special characters is a piece of kind entity with exactly its characters, and a NUL character there is a piece of its own kind |
| Attributes.GeneralIsFast | src/extras/md4c/md4c.c:1480-1500 | the general form makes the one piece of the fast form of every text without special characters |
| Attributes.OnePiece | src/extras/md4c/md4c.h:224-229 | a well-formed attribute that says plain text is one piece |
| Attributes.EscapeRoundTrip | src/extras/md4c/md4c.c:1530-1538 | a text without NUL comes back from its backslash-escaped form |
| Html.StreamIsNested | src/extras/md4c/md4c-html.c:430-495 | tags are well nested as long as the spans are, none is inside the tag of an image, and the nesting level counts the open images |
| Html.OutsideImage | src/extras/md4c/md4c-html.c:430-515 | the output of well-nested content, and the level is restored |
| Html.InsideImage | src/extras/md4c/md4c-html.c:430-515 | in the description of an image spans leave no trace |
| Html.DescriptionIsHarmless | src/extras/md4c/md4c-html.c:497-515 | the description stays inside its quotes exactly if the raw HTML in it does |
| Html.RawHtmlInDescription | src/extras/md4c/md4c-html.c:497-515 | a piece of raw HTML that ends the description |
| Html.EscapeRoundTrip | src/extras/md4c/md4c-html.c:85-118 | a reader of HTML gets the text back exactly if it has no NUL |
| Html.NulIsLost | src/extras/md4c/md4c-html.c:545-550 | a text that is escaped to nothing |
| Html.EscapedIsHarmless | src/extras/md4c/md4c-html.c:85-118 | no raw quote or angle bracket is left |
| Html.Renderer.RenderEscaped | src/extras/md4c/md4c-html.c:85-118 | the pieces that are put out, four characters looked at a time, are the escaped text |
| Html.BreaksLook | src/extras/md4c/md4c-html.c:504-508 | outside an image a hard break is a tag and a soft break is none; inside it both are a space |
| Html.Renderer.ShowText | src/extras/md4c/md4c-html.c:497-515 | the characters put out for a text of each kind, inside and outside of an image |
| Html.Renderer.Render | src/extras/md4c/md4c-html.c:430-515 | the callbacks put out the page of any nested content, with its tags in balance |
| SpanPage.ToHtml | src/extras/md4c/md4c-html.c:430-515 | from the text of a block to HTML: piece by piece, the page has the opening and closing tags of the spans of `Spans.Render`, the text between them escaped, and the line breaks, hard ones where two spaces or the flag call for them; its tags are in balance, and its characters are those of the source without the resolved delimiters |
| SpanPage.PageOf | src/extras/md4c/md4c-html.c:430-515 | every well-nested stream of span events gives a page with its tags in balance and its characters in order |
| SpanPage.PageOfStream | src/extras/md4c/md4c-html.c:430-515 | every event has one piece on the page: which tag a span has, what a text and a line break look like |
| Coroutines.Thread.Resume | src/extras/minicoro/minicoro.h:1799-1811 | all results; on success the coroutine comes to the front of the chain, and nobody else but the one in front before changes |
| Coroutines.Thread.Yield | src/extras/minicoro/minicoro.h:1813-1838 | all results; on success control goes to the coroutine that resumed it, and no coroutine changes but these two |
| Coroutines.Thread.Finish | src/extras/minicoro/minicoro.h:621-625 | a finished coroutine is dead, control goes back to the resumer, and no other coroutine changes |
| Coroutines.Thread.PrepareJumpIn | src/extras/minicoro/minicoro.h:567-590 | its assertions hold |
| Coroutines.Thread.PrepareJumpOut | src/extras/minicoro/minicoro.h:592-618 | the resumer is running again and the link is gone |
| Coroutines.Thread.Destroy | src/extras/minicoro/minicoro.h:1730-1797 | refused exactly for coroutines in the chain; otherwise that one is freed, and no other coroutine changes |
| Coroutines.ReturnsToResumer | src/extras/minicoro/minicoro.h:1799-1838 | in every program of calls, when a coroutine gives control back by a yield or by finishing, the chain is what it was when it was resumed, so that the one that resumed it goes on |
| Coroutines.Thread.Run | src/extras/minicoro/minicoro.h:1799-1838 | every program of creations, resumptions, yields, ends and destructions leaves the thread and all coroutines as the chain of `ReturnsToResumer` says |
| Coroutines.Coro.Pop | src/extras/minicoro/minicoro.h:1874-1894 | the bytes pushed last come back, or nothing changes |
| Coroutines.Coro.Push | src/extras/minicoro/minicoro.h:1854-1872 | the bytes come behind those that are stored, or nothing changes |
| Coroutines.Coro.Peek | src/extras/minicoro/minicoro.h:1896-1912 | the bytes pushed last, which stay where they are |
| History.RoundTrip | src/extras/linenoise/linenoise.c:1991-2061 | saving and loading gives the history back exactly if no entry is empty, and otherwise the part before the first empty one |
| History.SaveAndLoad | src/extras/linenoise/linenoise.c:1991-2061 | a history saved by one editor and loaded by a new one is the same exactly if no entry is empty |
| History.DecodeInPlace | src/extras/linenoise/linenoise.c:2040-2056 | on any bytes it never writes ahead of what it reads, and stays in the buffer exactly if the line does not end inside an escape |
| History.DecodeEncode | src/extras/linenoise/linenoise.c:2003-2015 | decoding undoes encoding, and an encoded entry is one line |
| History.EscapesOf | src/extras/linenoise/linenoise.c:1999-2015 | the two characters that are written for a line end, a carriage return and a backslash between plain text |
| History.LinesOfFile | src/extras/linenoise/linenoise.c:1854-1879 | the lines of a saved file are its entries up to the first empty one |
| History.CrIsInvisible | src/extras/linenoise/linenoise.c:1854-1873 | every file reads the same with and without its carriage returns |
| History.LoneBackslash | src/extras/linenoise/linenoise.c:2039-2053 | a line that makes the decoder step over the terminator |
| History.EmptyEntryEndsLoading | src/extras/linenoise/linenoise.c:1854-1879 | a history of which only the first entry comes back |
| History.Editor.Add | src/extras/linenoise/linenoise.c:1929-1953 | no entry twice in a row; the new history is the end of the old one, without its first entry if there is no room left, with the new entry behind it |
| History.Editor.SetMaxLen | src/extras/linenoise/linenoise.c:1963-1987 | the newest entries are kept |
| History.Editor.Load | src/extras/linenoise/linenoise.c:2027-2061 | adds the entries of the lines of any file in order, and stays inside its buffers exactly if no line ends inside an escape |
| Text.StrLen | src/extras/linenoise/utf8.c:84-98 | how many characters are read from any bytes; of an encoded text, wherever it stands, the number of its characters |
| Text.Index | src/extras/linenoise/utf8.c:113-121 | how far any number of characters reaches in any bytes; in an encoded text the offset at which the character begins |
| Text.CanBeRead | src/extras/linenoise/utf8.c:123-160 | every character of an encoded text is decoded at its offset |
| Utf8.IsFaithful | src/extras/linenoise/utf8.c:39-160 | UTF-8 reads back what it writes, for every code point from 1 to 0x1fffff and whatever stands around it |
| Utf8.EncodeDecode | src/extras/linenoise/utf8.c:123-160 | more than one byte is taken only for the form that the encoder writes |
| Utf8.KeepsOrder | src/extras/linenoise/utf8.c:39-64 | the order of code points is the order of their bytes |
| Utf8.BytesLook | src/extras/linenoise/utf8.c:39-64 | how many bytes a code point has; ASCII is itself; no later byte of a character can be taken for a first one |
| Utf8.Examples | src/extras/linenoise/utf8.c:39-64 | the bytes of three characters of two, three and four bytes |
| LineEditor.StringBuf.Insert | src/extras/linenoise/stringbuf.c:93-149 | bytes and character count are those of the text with the new part inside |
| LineEditor.StringBuf.Delete | src/extras/linenoise/stringbuf.c:113-161 | its assertions hold, and bytes and count are those of the text without the part |
| LineEditor.Editor.InsertChar | src/extras/linenoise/linenoise.c:1359-1402 | the character goes to its place in the line, and the cursor behind it follows |
| LineEditor.Editor.RemoveChar | src/extras/linenoise/linenoise.c:1301-1352 | the character goes, and the cursor behind it follows |
| LineEditor.Editor.RemoveChars | src/extras/linenoise/linenoise.c:1409-1443 | what goes has been cut |
| LineEditor.Editor.InsertChars | src/extras/linenoise/linenoise.c:1449-1464 | the characters of a string go to their place |
| LineEditor.Editor.DeleteWord | src/extras/linenoise/linenoise.c:1698-1715 | cuts exactly the word in front of the cursor and the spaces behind it, which begin the line or follow a space |
| LineEditor.Editor.DeleteToStart | src/extras/linenoise/linenoise.c:1797-1801 | cuts exactly what is in front of the cursor, which is at the beginning then |
| LineEditor.Editor.DeleteToEnd | src/extras/linenoise/linenoise.c:1802-1806 | cuts exactly what is behind the cursor, which stays where it is |
| LineEditor.Editor.InsertSaved | src/extras/linenoise/linenoise.c:1807-1811 | puts what was cut last in front of the cursor, or changes nothing |
| LineEditor.Editor.TransposeChars | src/extras/linenoise/linenoise.c:1716-1725 | what Ctrl-T makes of the line |
| LineEditor.KillWordYank | src/extras/linenoise/linenoise.c:1698-1715 | Ctrl-W and Ctrl-Y restore line and cursor |
| LineEditor.KillLeftYank | src/extras/linenoise/linenoise.c:1797-1811 | Ctrl-U and Ctrl-Y restore line and cursor |
| LineEditor.KillRightYank | src/extras/linenoise/linenoise.c:1802-1811 | Ctrl-K and Ctrl-Y restore the line, with the cursor at its end |
| LineEditor.WordIsWord | src/extras/linenoise/linenoise.c:1698-1710 | what Ctrl-W takes is one whole word |
| LineEditor.TransposeKeeps | src/extras/linenoise/linenoise.c:1716-1725 | Ctrl-T keeps the characters exactly if the line is not a single character with the cursor behind it |
| LineEditor.TransposeSwaps | src/extras/linenoise/linenoise.c:1716-1725 | everywhere else it swaps two neighbours |

## Left out

- Everything written in Nim, and the windows, web views, dialogs, menus and clipboard code.
- wepoll: the AFD driver, error codes of Windows, overlapping completions with a forced delete, and how long the time-outs of `port_wait` are; the size of a batch is not limited.
- wepoll: memory orders other than those of interlocked operations, slim locks as implemented by Windows, and more than 2^28 - 1 threads.
- md4c, inlines: links, images, wiki links, equations, permissive autolinks, entities, backslash escapes, raw HTML and tables; a block for `Spans.Render` has no mark characters but those of emphasis and strikethrough.
- SpanPage.ToHtml: like `Spans.Render` about texts without other mark characters, of which NUL is one.
- Spans.Render: on a text with other mark characters (back-ticks, brackets, backslashes and so on) it is not what the code does, because those passes come first and are modelled apart or not at all.
- CodeSpanPass.Collect: back-ticks alone; escapes, HTML and autolinks that would take some of them first are not modelled.
- Lines.Lookup: a place before the first line, where the search of the code leaves the array if there are two lines or more; no caller asks for one.
- md4c, inlines: kinds of text other than normal text, line breaks that a backslash makes hard, and the trimming of spaces at the ends of a code span.
- Emphasis.Analyzer.AnalyzeMarks: the links between marks (`prev`, `next` of unresolved marks) are not compared, because looking back has none.
- Delimiters.CollectMarks: white space and punctuation are arbitrary predicates on characters.
- md4c, blocks: how a line is recognised (indentation, marks, fences, setext underlines, HTML conditions) is a choice of the model, restricted as the source restricts it; bytes of the block buffer are records; start numbers, task marks and heading levels are not modelled.
- md4c, blocks: `md_analyze_line` looks at the bytes behind the last record to see whether a list item is empty; this model has no bytes to look at.
- Containers.Parser.AnalyzeLine: the decisions of `md_analyze_line` are its argument, because they depend on the text of the line.
- Containers.Parser.ProcessDoc: where a line that would be an underline has nothing to underline, or a line of a table no table, whether it is text or a thematic break is left open, because it depends on its text.
- Containers.Parser.EndLeaf: how many lines are reference definitions is left open, because it depends on their text.
- md4c, reference definitions: labels are sequences of code points, already decoded and without newlines; the tables of white space and case folding are arbitrary functions.
- RefDefs.Dictionary.Sort: stands for `qsort`, of which the model uses the order alone.
- Attributes.Build: where an entity ends is an arbitrary function, because every recogniser that stays inside the text will do.
- md4c-html: URLs, entities, tags of blocks, and the skipping of a byte order mark.
- minicoro: the assembly that switches contexts, stacks and their overflow, and wrap-around of sizes in `mco_push`.
- linenoise: the terminal, hints, completion, the search of the history and the reading of keys; capacities of string buffers.
- LineEditor.StringBuf.Delete: a negative length, because no caller passes one.
- Failing allocations in md4c and linenoise.
