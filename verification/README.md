# A verified model of glibmm

glibmm wraps GLib for C++. These Dafny modules model the parts of it that are algorithms and state
machines of its own, and prove what they promise. Foreign code (GLib, GObject, libsigc++,
`std::string`, the operating system) is replaced by small specifications. `dafny verify dfyconfig.toml`
checks everything.

| Modules | What they model |
|---|---|
| `Utf8`, `Utf8Text`, `StdString`, `UstringOffsets`, `UstringSearch`, `Ustring`, `UstringIterator`, `Compose`, `ComposeTemplates` | `Glib::ustring`: bytes inside, code points outside |
| `DispatcherProtocol`, `DispatcherRuns`, `DispatcherDelivery`, `DispatcherNested`, `DispatcherNotifiers`, `DispatcherDrain`, `Dispatcher`, `DispatcherWin32` | `Glib::Dispatcher`: senders, pipe, nested handlers and destructors, deferred deletion |
| `SourceLifetime`, `Source`, `ConnectionNodes`, `TimeoutSource` | main-loop sources and the nodes that connect slots to them |
| `Properties` | custom properties: IDs by class, values by object |
| `ObjectBase` | GObjects and their wrappers, moving them, and the registry of wrap functions |
| `FdStreamBuf` | the example's stream buffer with two characters |
| `SortObjDefs`, `ScmExpr`, `ScmTexts`, `ScmLayout`, `ScmForest`, `ScmLexing`, `ScmErrors`, `Definitions`, `DefinitionsLayout`, `DefinitionsRoundTrip`, `DefinitionsText` | the tools for .defs files |

Code that changes things in place is a class or a method with loops here. Such a method is proved
against a function or a step of a state machine on values, and the main results are lemmas about
these. What the functions themselves mean is stated apart from them: tables with their numbers, formats with
their words, and states of machines in terms of the events that led to them.

## What the proofs rest on

- *Valid strings.* A byte string is valid if it encodes code points below 2^31, by the table in
  `glib/glibmm/ustring.cc:229-234` (section 2 of RFC 2279). Section 3 of RFC 3629 allows fewer; as every
  result consists of code points of the operands, validity in that sense is kept too. `g_utf8_get_char()`
  is taken to be the decoder, `g_utf8_skip` is written out, and bit operations are written as arithmetic.
  Lengths are limited as in `std::string`; an operation that would exceed the limit throws and changes
  nothing.
- *compose().* The format is scanned by `strchr()`, so a NUL in it ends the scan; what follows is
  copied. The expansion says so, and the theorem holds for every valid format. Doubling `%` is undone
  exactly for formats with no `%` behind the first NUL.
- *Match sets.* `g_utf8_to_ucs4_fast()`, which is given a maximal length, is taken to stop at a NUL (its
  source is not part of this repository). So `find_first_of()` and the others search for the characters in front of
  the first NUL of the set; exactly for sets without NUL that is the promised search.
- *Dispatcher.* Nobody is emitting on a Dispatcher when its destructor begins, or later, each thread has one
  context, Dispatchers are created and destroyed in the receiver thread, and no main loop is run
  while a slot is being destroyed. Emissions nest, slots may create and destroy Dispatchers and own them, so
  that destructors nest, and senders act between any two steps, in particular between the emptiness test and the
  deletion. The invariant needs no further rule; the safety of two steps does.
- *Slots that own Dispatchers.* `delete dispatcher_impl` (`glib/glibmm/dispatcher.cc:325`) destroys slots, and
  Dispatchers that these own, after the pipe was seen empty. A message sent to one of them in between makes it an
  orphan, which is cleared in the next line with the message still on its way. The model has that run, proves that
  an emission follows a freed Impl exactly in the runs in which that happened, and that none does if slots own no
  Dispatchers.
- *Notifiers replaced.* The other rule is for the end of an emission: no slot destroys the last Dispatcher of
  the thread and creates a new one. The model knows which notifiers are in memory, and proves that the access
  behind the null test at `glib/glibmm/dispatcher.cc:474` uses a deleted one exactly in the runs in which that
  happens, and has such a run.
- *Slots of a destroyed Dispatcher.* A destructor that finds the pipe empty deletes the Impl without clearing its
  signal (`glib/glibmm/dispatcher.cc:325`), also when a slot of this signal runs it. Whether the slots
  behind it still run is up to libsigc++; the model lets them, and proves that a slot runs for a destroyed
  Dispatcher exactly in that case.
- *Source.* A call of `prepare()`, `check()` or `dispatch()` uses the wrapper until it returns. GLib, whose source is
  not part of this repository, is taken to put off the destroy notification while it dispatches, and not while it
  asks. Runs are safe under a rule with two parts: nobody destroys a GSource while it is being asked, and a
  throwing constructor of a derived class does not throw while its source is being asked or dispatched, nor when it was
  found ready, nor between its destruction and the notification of the callback data, which then is not found
  (`glib/glibmm/main.cc:1004-1006`) and keeps the wrapper. Every step against the rule can be followed by the use of
  a wrapper that is gone, and no other step; runs are given. A null wrapper is never found ready, so a source whose
  constructor threw is only dispatched if it was ready before.
- *Moving a wrapper that has no GObject* calls GLib with null and reads the name of a null type; from there
  on the wrapper counts as undefined. It is proved to be so in exactly this case.
- *sort_obj_defs().* What `list.sort()` gives is taken to be any permutation. The loop ends exactly if
  there is no inheritance cycle; distinct class names, which one might ask for, are not needed.
- *xsgetn().* The loop compares what the last read gave with what is missing *after* that read, so it
  stops if a read gave half or more of what was asked for, though the channel may have more: ten
  characters that come as six and four are fetched as six. As the channel is buffered
  (`examples/iochannel_stream/fdstream.cc:55`), that takes a descriptor that does not block. The comment at
  `examples/iochannel_stream/fdstream.cc:261-266` says that a single character fetched there was read from the
  channel; it may as well have been a character read ahead, with the channel at its end. The code does the right
  thing in that case too.
- *Putback.* A peek on a fresh stream sets the pointers as if there were a character to put back
  (`examples/iochannel_stream/fdstream.cc:195`); so the promise of one putback holds once something was delivered.
- *Definitions.* A field that is written only if it is true does not come back when it is an empty
  string. The parser takes lines, or the name of a file, which is opened in text mode: there a carriage
  return ends a line, and one within a string makes parsing fail, exactly then. `int()` and `float()` are a
  parameter of the parser; names and keywords are no numbers.
- *TimeoutSource.* The clock reads times between 0 and 2^62 microseconds, so that sums fit into 64 bits.

## Model

| member | source | states |
|---|---|---|
| Utf8.EncodeDecodes | glib/glibmm/ustring.cc:248-269 | The shift-and-mask decoder returns c for the encoding of every code point c below 2^31, with wrap-around in 32 bits. |
| Utf8.LoopFrom | glib/glibmm/ustring.cc:257-263 | From any round on, the decoding loop goes on exactly while bytes of the character are left, and ends with the code point. |
| Utf8.GetUnichar | glib/glibmm/ustring.cc:248-269 | The decoder as a loop: it returns the code point, after exactly one round for each byte behind the first. |
| Utf8.EncodeShape | glib/glibmm/ustring.cc:218-239 | The first byte of a character, and only that one, is no continuation byte, and it alone tells the number of bytes. |
| Utf8.EncodeInjective | glib/glibmm/ustring.cc:226-239 | Different code points have different encodings. |
| Utf8.ShortRows | glib/glibmm/ustring.cc:226-231 | Code points below 0x80, 0x800 and 0x10000 have the one, two and three bytes of the table. |
| Utf8.LongRows | glib/glibmm/ustring.cc:232-234 | The code points above have the four, five and six bytes of the table. |
| Utf8.ShortestEncoding | glib/glibmm/ustring.cc:226-239 | No shorter string of bytes is decoded to the code point. |
| Utf8Text.PrefixFree | glib/glibmm/ustring.h:271-275 | A valid byte prefix of a valid string is a prefix in code points. |
| Utf8Text.EncodeAllInjective | glib/glibmm/ustring.h:271-275 | Valid bytes stand for one sequence of code points only. |
| Utf8Text.StartsAreNotContinuations | glib/glibmm/ustring.cc:185-188 | A byte is a character start exactly when the test of the backward walk does not go on from it. |
| Utf8Text.SkipsToNext | glib/glibmm/ustring.cc:84-90 | Stepping by the skip table leads from each character to the next one, and never out of the string. |
| Utf8Text.ByteMatchIsCharMatch | glib/glibmm/ustring.cc:842-846 | Wherever the bytes of a non-empty valid needle occur, a character begins and the needle matches as code points. |
| Utf8Text.CharMatchIsByteMatch | glib/glibmm/ustring.cc:842-846 | Conversely, a match of code points is a match of bytes at the offset of its first character. |
| UstringOffsets.ByteOffset | glib/glibmm/ustring.cc:73-101 | The walk gives the byte offset of the code point, or npos exactly for indices beyond the length. |
| UstringOffsets.SubstrBounds | glib/glibmm/ustring.cc:106-117 | Start and count in bytes for start and count in code points, npos for a start beyond the end and for a count past the end. |
| UstringOffsets.ClampedBounds | glib/glibmm/ustring.cc:106-117 | Cut at these byte bounds, with the clamping of std::string, the string falls into the parts that the clamped code-point range cuts it into. |
| UstringOffsets.CharOffset | glib/glibmm/ustring.cc:119-128 | The character count before the offset of code point k is k. |
| UstringOffsets.GetChar | glib/glibmm/ustring.cc:248-269 | Decoding at the offset of code point k gives code point k of the string. |
| UstringSearch.MatchAtOffset | glib/glibmm/ustring.cc:842-906 | A needle matches at code point k exactly when its bytes match at the byte offset of k. |
| StdString.MatchesMeans | glib/glibmm/ustring.cc:842-846 | A match at a position means equal elements from there on, also for an empty needle up to the end. |
| UstringSearch.ByteMatchOnBoundary | glib/glibmm/ustring.cc:842-906 | Every byte answer of a search is the offset of a code-point answer. |
| UstringSearch.FirstMatch | glib/glibmm/ustring.cc:842-846 | The least byte match at or after the start is, as an index, the least code-point match; also for empty needles and starts out of range. |
| UstringSearch.LastMatch | glib/glibmm/ustring.cc:876-880 | The greatest byte match at or before the start is, as an index, the greatest code-point match. |
| UstringSearch.SingleMatch | glib/glibmm/ustring.cc:928-938 | Searching for one character is searching for a member of a set of one: the single-character functions agree with the set versions. |
| UstringSearch.Ucs4 | glib/glibmm/ustring.cc:140-145 | The match set is converted to its code points in front of the first NUL. |
| UstringSearch.Utf8FindFirstOf | glib/glibmm/ustring.cc:132-161 | The result is the least index at or after the start whose code point is (or is not) in the set in front of its first NUL, or npos exactly if there is none; for a set without NUL that is the whole set. |
| UstringSearch.Utf8FindLastOf | glib/glibmm/ustring.cc:165-197 | The result is the greatest index at or before the start whose code point is (or is not) in the set in front of its first NUL, or npos exactly if there is none; for a set without NUL that is the whole set. |
| UstringSearch.WholeSetCountsIffNoNul | glib/glibmm/ustring.cc:140-145 | Searching with the converted part is searching with the whole match set, in every string, exactly if the set has no NUL. |
| UstringSearch.UpToNulIsAll | glib/glibmm/ustring.cc:140-145 | The converted part has no NUL, and is the whole set exactly if that has none. |
| UstringSearch.StepBack | glib/glibmm/ustring.cc:185-188 | One backward walk goes from behind a character start to the start before it, no other. |
| UstringSearch.WalkStart | glib/glibmm/ustring.cc:179-181 | Starting one byte beyond the start position is starting behind the character at the start index, or at the end. |
| Ustring.ByteReplace | glib/glibmm/ustring.cc:609-615 | Replacing bytes at the converted bounds is replacing the clamped range of code points, up to the length error. |
| Ustring.EditFits | glib/glibmm/ustring.cc:609-615 | An edit is rejected exactly for a start beyond the length, and fails only if the result would exceed 2^63 - 1 bytes. |
| Ustring.UString.Size | glib/glibmm/ustring.cc:1094-1099 | The size is the number of code points. |
| Ustring.UString.Substr | glib/glibmm/ustring.h:1277-1282 | The code points of the clamped range, or out_of_range exactly for a start beyond the length. |
| Ustring.UString.At | glib/glibmm/ustring.cc:768-776 | The code point with the index, or out_of_range exactly for indices that are not below the length. |
| Ustring.UString.Replace | glib/glibmm/ustring.cc:609-615 | The code-point sequence is edited in the clamped range; bytes stay valid UTF-8; exactly starts beyond the length are rejected, and then nothing changes. |
| Ustring.UString.ReplaceSub | glib/glibmm/ustring.cc:617-625 | The same, with the clamped sub-range of the source put in; also for a string as its own source. |
| Ustring.UString.Insert | glib/glibmm/ustring.cc:536-541 | Insertion in front of the code point, with the same guarantees. |
| Ustring.UString.InsertSub | glib/glibmm/ustring.cc:543-550 | Insertion of a clamped sub-range of the source. |
| Ustring.UString.Erase | glib/glibmm/ustring.cc:704-710 | Removal of the clamped range of code points. |
| Ustring.UString.AppendRepeated | glib/glibmm/ustring.cc:519-526 | n copies of the character come behind the last one. |
| Ustring.Repeat | glib/glibmm/ustring.cc:299-330 | The bytes of n copies of a character, also by the short cut for ASCII characters. |
| Ustring.UString.Resize | glib/glibmm/ustring.cc:1126-1134 | The first n code points stay, and missing ones are filled with the character. |
| Ustring.UString.Find | glib/glibmm/ustring.cc:842-846 | The least code-point index at or after i where the needle matches, or npos exactly if there is none. |
| Ustring.UString.Rfind | glib/glibmm/ustring.cc:876-880 | The greatest code-point index at or before i where the needle matches, or npos exactly if there is none. |
| Ustring.UString.FindBytes | glib/glibmm/ustring.cc:842-846 | The search for the bytes of a needle answers for its code points. |
| Ustring.UString.RfindBytes | glib/glibmm/ustring.cc:876-880 | The same from the end. |
| Ustring.UString.FindFirst | glib/glibmm/ustring.cc:910-914 | find_first_of and find_first_not_of meet their code-point meaning for the match set in front of its first NUL, and for the whole set if there is none. |
| Ustring.UString.FindLast | glib/glibmm/ustring.cc:1033-1037 | find_last_of and find_last_not_of meet their code-point meaning for the match set in front of its first NUL, and for the whole set if there is none. |
| Ustring.UString.FindFirstOfChar | glib/glibmm/ustring.cc:928-932 | The search for one character meets the meaning of the set version. |
| Ustring.UString.FindLastOfChar | glib/glibmm/ustring.cc:960-964 | The same from the end. |
| Ustring.UString.FindFirstNotOfChar | glib/glibmm/ustring.cc:995-1011 | The loop with its own counter meets the meaning of the set version. |
| Ustring.UString.FindLastNotOfChar | glib/glibmm/ustring.cc:1054-1068 | The forward scan that remembers the last hit meets the meaning of the backward search. |
| UstringIterator.Iterator.Deref | glib/glibmm/ustring.h:1107-1111 | The iterator at index k gives code point k. |
| UstringIterator.Iterator.Increment | glib/glibmm/ustring.h:1113-1118 | It moves to the next code point, as stepping forward by bytes does. |
| UstringIterator.Iterator.Decrement | glib/glibmm/ustring.h:1128-1137 | It moves to the code point before, over all continuation bytes, as stepping backward by bytes does. |
| UstringIterator.FromCodePoints | glib/glibmm/ustring.h:1201-1211 | The bytes are the encoding of the code points. |
| UstringIterator.IterateAll | glib/glibmm/ustring.h:1107-1137 | Iterating over a string gives its code points, computed from the bytes alone, and ends at the end. |
| UstringIterator.BackwardUndoesForward | glib/glibmm/ustring.h:1113-1137 | At every position but the end, -- undoes ++ on the bytes. |
| UstringIterator.ForwardUndoesBackward | glib/glibmm/ustring.h:1113-1137 | At every position but the beginning, ++ undoes -- on the bytes. |
| Compose.ComposePrivate | glib/glibmm/ustring.cc:1278-1327 | The byte scan produces the encoding of the code-point template expansion, for every valid format and any number of arguments. |
| Compose.Round | glib/glibmm/ustring.cc:1292-1322 | One round appends what its piece expands to, and leaves the scan at a character start inside the buffer. |
| Compose.AfterInvalid | glib/glibmm/ustring.cc:1310-1320 | An invalid substitution is copied with the whole character behind the %, not a part of it. |
| Compose.DoubledExpandsBack | glib/glibmm/ustring.h:797-811 | Composing a string in which every % was doubled gives the string back exactly if there is no % behind its first NUL. |
| Compose.ScanEnds | glib/glibmm/ustring.cc:1292-1326 | When strchr() finds no more, appending the rest of the bytes completes the expansion. |
| Compose.NothingToExpand | glib/glibmm/ustring.cc:1292-1324 | If strchr() finds no further %, the rest of the format stands for itself. |
| ComposeTemplates.TemplateExpands | glib/glibmm/ustring.cc:1292-1322 | A format made of plain characters, %%, %1 to %9 with an argument to it, and % before anything else, is expanded piece by piece; it ends at the end or at a NUL. |
| ComposeTemplates.EveryFormatIsTemplate | glib/glibmm/ustring.cc:1292-1326 | Every format is made of such pieces. |
| SortObjDefs.EndsIffAcyclic | tools/defs_gen/h2def.py:222-235 | The loop ends exactly on the lists without an inheritance cycle, whether or not class names are unique. |
| SortObjDefs.ObjDefs.SortObjDefs | tools/defs_gen/h2def.py:222-235 | Without a cycle it ends, with a permutation of its input in which no class stands before its parent. |
| SortObjDefs.ObjDefs.Round | tools/defs_gen/h2def.py:226-234 | The body of the while loop is the step of the state machine. |
| SortObjDefs.ObjDefs.FindParentBelow | tools/defs_gen/h2def.py:227-229 | The for loop finds the first place below that defines the parent. |
| SortObjDefs.ObjDefs.Reorder | tools/defs_gen/h2def.py:230-231 | Insert and delete move the class right behind its parent. |
| SortObjDefs.LoopEnds | tools/defs_gen/h2def.py:225-234 | With a ranking, the loop ends from every state that it can be in. |
| SortObjDefs.PlacesRank | tools/defs_gen/h2def.py:222-235 | In a list that is in order, the places rank parents below children. |
| SortObjDefs.RoundProgress | tools/defs_gen/h2def.py:226-234 | Every round lowers the weighted number of child/parent pairs in the wrong order, or keeps the list and advances. |
| SortObjDefs.MoveKeeps | tools/defs_gen/h2def.py:230-231 | Insert and delete keep the elements, and keep the part before pos in order. |
| SortObjDefs.CostMoved | tools/defs_gen/h2def.py:230-231 | Moving a class behind others mends exactly the pairs with its parent and spoils exactly those with its children. |
| SortObjDefs.HeightsRank | tools/defs_gen/h2def.py:222-235 | Without a cycle, the length of the longest chain of ancestors ranks every parent below its children. |
| SortObjDefs.RankedIsAcyclic | tools/defs_gen/h2def.py:222-235 | With such a ranking there is no cycle. |
| SortObjDefs.IterateKeeps | tools/defs_gen/h2def.py:225-234 | After any number of rounds, the list is a permutation and its front part is in order. |
| DispatcherProtocol.InvKept | glib/glibmm/dispatcher.cc:292-481 | Every step of every thread, with handlers and destructors nested to any depth, keeps the invariant: ownership of Impls, life of the notifier, what was seen of the pipe, care for the orphans, order of messages. |
| DispatcherProtocol.OwnershipKept | glib/glibmm/dispatcher.cc:314-345 | Every Impl in memory stays owned exactly once, by a Dispatcher, the list of orphans or one of the running destructors. |
| DispatcherProtocol.NotifierKept | glib/glibmm/dispatcher.cc:292-345 | The notifier stays referenced once by each Dispatcher and each running destructor, and all Impls stay those of the notifier. |
| DispatcherProtocol.PipeAsSeenKept | glib/glibmm/dispatcher.cc:322-336 | What comes into a pipe that was seen empty goes to living Dispatchers until the Impl or the orphans are deleted; a pipe seen with messages keeps them until the Impl is an orphan. |
| DispatcherProtocol.OrphansAttendedKept | glib/glibmm/dispatcher.cc:322-336 | Orphans are only left while a message, a handler or a destructor is left that will have them cleared. |
| DispatcherProtocol.HistoryKept | glib/glibmm/dispatcher.cc:440-466 | The pipe keeps holding what was sent last, in order. |
| DispatcherProtocol.FramesAreSentKept | glib/glibmm/dispatcher.cc:440-466 | Every open handler stays in the emission of a notification that was sent to that Impl and was read. |
| DispatcherProtocol.RunsKeepInv | glib/glibmm/dispatcher.cc:292-481 | The invariant holds in every reachable state of every interleaving, whatever slots own. |
| DispatcherNested.NextStepIsSafe | glib/glibmm/dispatcher.cc:292-481 | After every run, no step follows or deletes a dangling Impl pointer, deletes one twice, fails a sanity check or uses a notifier that is not in memory, but for the two ends of an emission; the beginning of one follows a freed Impl exactly if a destructor cleared that Impl, orphaned inside its own deletion of another one, with the message waiting. |
| DispatcherNested.LostExactlyByClearing | glib/glibmm/dispatcher.cc:322-336 | In every run, a message in the pipe or just read names a freed Impl exactly if a destructor, between deleting its Impl and clearing the orphans, had the Impl of the message orphaned by a nested destructor. |
| DispatcherNested.RunMisledExactly | glib/glibmm/dispatcher.cc:440-466 | A run comes to using a freed Impl exactly if its last step is the beginning of such an emission. |
| DispatcherNested.NestedRunMisleads | glib/glibmm/dispatcher.cc:322-336 | A concrete run in which it does: a slot of one Dispatcher owns another one, which is sent a message after the test of the pipe. |
| DispatcherNested.SafePipeKept | glib/glibmm/dispatcher.cc:322-336 | If slots own no Dispatchers, messages go on naming Impls in memory at every step, and living ones while a destructor is about to clear the orphans. |
| DispatcherNested.RunsAreSafe | glib/glibmm/dispatcher.cc:292-481 | So in every reachable state of every interleaving, each pointer in the pipe or just read names an allocated Impl. |
| DispatcherNested.ObedientStepIsSafe | glib/glibmm/dispatcher.cc:292-481 | And the next step of any thread follows and deletes only pointers to allocated Impls, although the emptiness test and the deletion are separate steps. |
| DispatcherRuns.NotifierServesLiving | glib/glibmm/dispatcher.cc:292-345 | In every reachable state the notifier exists exactly while there are Dispatchers, counting those that are being destroyed, and that is while ref_count_ is positive. |
| DispatcherRuns.SlotsRunForLiveDispatchers | glib/glibmm/dispatcher.cc:324-336 | In every run, a slot about to run is one of a Dispatcher whose destructor has not begun, exactly if that destructor has not deleted the Impl in an emission of its own signal; only the branch for orphans clears the signal. |
| DispatcherRuns.SlotAfterDestruction | glib/glibmm/dispatcher.cc:324-327 | A concrete run in which the second slot is still to run after the first one destroyed the Dispatcher. |
| DispatcherDelivery.NotificationsReachLiving | glib/glibmm/dispatcher.cc:440-481 | A call of emit() on a Dispatcher that still lives is waiting, or an emission for it has begun, never both and never neither; and whatever waits or was emitted for it names that Dispatcher. |
| DispatcherDelivery.EmissionsFollowSending | glib/glibmm/dispatcher.cc:347-391 | Emissions begin in the order of the calls of emit(), each call has at most one, and nothing waiting is older than an emission begun. |
| DispatcherDelivery.EmissionsAreOfTargets | glib/glibmm/dispatcher.cc:463-466 | In every run, each emission that comes onto the stack is one of the very Dispatcher that emit() was called on, at the call that it is counted for. |
| DispatcherDelivery.EmitsWhatWasRead | glib/glibmm/dispatcher.cc:436-466 | What is emitted is the message at the head of the pipe when the handler read it, with only calls of emit() in between. |
| DispatcherDelivery.SlotsRunForNotified | glib/glibmm/dispatcher.cc:463-466 | A slot of a living Dispatcher can run exactly if slots are connected to it and the innermost open emission is its own. |
| DispatcherDelivery.SlotsRunForTargets | glib/glibmm/dispatcher.cc:463-466 | No slot is run for a Dispatcher that emit() was not called on. |
| DispatcherDelivery.ConnectedExactly | glib/glibmm/dispatcher.cc:332 | A living Dispatcher has slots exactly if the program connected some and did not disconnect them since. |
| DispatcherDelivery.LiveExactly | glib/glibmm/dispatcher.cc:485-504 | A Dispatcher lives exactly from its construction to its destruction. |
| DispatcherDelivery.UsableWhileAlive | glib/glibmm/dispatcher.cc:506-518 | It can be emitted on exactly while it lives. |
| DispatcherNotifiers.ObedientRunsNeverDangle | glib/glibmm/dispatcher.cc:471-478 | If no slot replaces the last Dispatcher of the thread by a new one within an emission, no handler touches a deleted notifier. |
| DispatcherNotifiers.DanglesExactlyWhenReplaced | glib/glibmm/dispatcher.cc:471-478 | In every state that the invariant allows, behind the null test a notifier that is not in memory is used exactly if another notifier is installed. |
| DispatcherNotifiers.RunDanglesExactlyWhenReplaced | glib/glibmm/dispatcher.cc:471-478 | A run uses a deleted notifier exactly if it ends with the end of an emission during which the last Dispatcher was destroyed, with a notifier created later in place. |
| DispatcherNotifiers.ReplacingRunDangles | glib/glibmm/dispatcher.cc:471-478 | A concrete run in which it does. |
| DispatcherDrain.NoOrphansAtRest | glib/glibmm/dispatcher.cc:477-478 | With an empty pipe and no open handler or destructor there are no orphans. |
| DispatcherDrain.HandleOne | glib/glibmm/dispatcher.cc:406-481 | From the main loop, one call of the handler takes exactly one message off the pipe and gets back to the main loop. |
| DispatcherDrain.Finish | glib/glibmm/dispatcher.cc:322-481 | From every orderly state, handlers and destructors that are open, nested in any way, come to their end without another slot. |
| DispatcherDrain.DrainFreesOrphans | glib/glibmm/dispatcher.cc:292-481 | After every run that obeys the rules, with any handlers and destructors open: once sending stops, the receiver empties the pipe, has an emission for every call of emit() on a Dispatcher that still lives, and leaves only living Impls in memory. |
| Dispatcher.Receiver.ClearOrphanList | glib/glibmm/dispatcher.cc:325-326 | Each orphan is deleted once, while it is allocated. |
| Dispatcher.Receiver.ReferenceInstance | glib/glibmm/dispatcher.cc:292-311 | The thread's notifier gets one reference more, and is created if there is none. |
| Dispatcher.Receiver.Create | glib/glibmm/dispatcher.cc:485-499 | The new Dispatcher is the step Create of the protocol. |
| Dispatcher.Receiver.Send | glib/glibmm/dispatcher.cc:347-391 | Sending appends one message, and is the step Send. |
| Dispatcher.Receiver.ReadPipe | glib/glibmm/dispatcher.cc:436-458 | Reading is the step ReadPipe; the check of the notifier never fails. |
| Dispatcher.Receiver.BeginEmission | glib/glibmm/dispatcher.cc:463-466 | The emission is the step BeginEmission, also when the Impl is no longer in memory. |
| Dispatcher.Receiver.EndEmission | glib/glibmm/dispatcher.cc:471-480 | The tests behind the emission are the step EndEmission, also when the notifier is another one. |
| Dispatcher.Receiver.PollAfterEmission | glib/glibmm/dispatcher.cc:477 | The emptiness test of the handler is a step by itself. |
| Dispatcher.Receiver.ClearAfterEmission | glib/glibmm/dispatcher.cc:478 | Clearing the orphans is a step by itself. |
| Dispatcher.Receiver.BeginDestroy | glib/glibmm/dispatcher.cc:501-504 | The sanity check of unreference_instance() never fails. |
| Dispatcher.Receiver.PollInDestructor | glib/glibmm/dispatcher.cc:322-336 | The test, and the beginning of clearing the signal if messages are left. |
| Dispatcher.Receiver.DeleteInDestructor | glib/glibmm/dispatcher.cc:325 | The Impl is deleted, once; its slots are not cleared, and what they own is destroyed next. |
| Dispatcher.Receiver.ClearInDestructor | glib/glibmm/dispatcher.cc:326 | The orphans are deleted, each once, behind the destruction of the slots. |
| Dispatcher.Receiver.OrphanInDestructor | glib/glibmm/dispatcher.cc:332-333 | The Impl becomes an orphan, behind the destruction of its slots. |
| Dispatcher.Receiver.Unreference | glib/glibmm/dispatcher.cc:338-344 | The notifier goes exactly with its last reference. |
| Dispatcher.Receiver.Perform | glib/glibmm/dispatcher.cc:292-504 | Every step that the protocol calls safe is performed by the code of its method, with the same new state. |
| Dispatcher.Receiver.PerformAll | glib/glibmm/dispatcher.cc:292-504 | Every run of the protocol from the start can be performed by these methods, and gets to the same state. |
| DispatcherWin32.NotifyQueue.SendNotification | glib/glibmm/dispatcher.cc:349-363 | The queue gets the message last, and the event is signalled exactly when the queue is not empty; it is the step of the back end in the protocol. |
| DispatcherWin32.NotifyQueue.TakeNotification | glib/glibmm/dispatcher.cc:410-435 | The first message is taken, if there is one, and the event stays signalled exactly while messages are left; it is the step of the back end in the protocol. |
| DispatcherWin32.NotifyQueue.Poll | glib/glibmm/dispatcher.cc:425-434 | A turn of the main loop delivers a message exactly if there is one. |
| DispatcherWin32.NotifyQueue.Perform | glib/glibmm/dispatcher.cc:349-435 | Any sequence of sends and turns delivers what the pipe would deliver and leaves what it would leave. |
| DispatcherWin32.RunsLikeProtocol | glib/glibmm/dispatcher.cc:347-456 | The protocol on the queue and its event has exactly the runs that it has on the pipe, and they get to the same states; the event is signalled exactly while messages wait. |
| DispatcherWin32.FifoConserves | glib/glibmm/dispatcher.cc:373-385 | Delivered and queued together are what was there and what was sent, in order. |
| DispatcherWin32.PollsEmpty | glib/glibmm/dispatcher.cc:427-434 | One call of the handler per queued message empties the queue, so there is a wake-up for each. |
| DispatcherWin32.FifoSnoc | glib/glibmm/dispatcher.cc:349-435 | How one more send or turn changes what a FIFO delivers and keeps. |
| SourceLifetime.NextStepIsSafe | glib/glibmm/main.cc:959-1140 | After every run that obeys the rule, no step of any thread uses a wrapper that is gone, queries and dispatches included from beginning to end, and the wrapper drops its GSource reference only while it holds it. |
| SourceLifetime.RunsKeepInv | glib/glibmm/main.cc:106-145 | The counters say in every reachable state which of the two owners are left. |
| SourceLifetime.CountersAreExact | glib/glibmm/main.cc:959-979 | In terms of what happens: references are those taken less those given up, and likewise holders of the GSource and open dispatches. |
| SourceLifetime.QueriesAreExact | glib/glibmm/main.cc:1069-1101 | Before a throw, each call of prepare() or check() is open until it ends. |
| SourceLifetime.ReadyExactly | glib/glibmm/main.cc:1069-1101 | The source is ready exactly if it was found so and neither dispatched nor given up since. |
| SourceLifetime.UsableWhileReferenced | glib/glibmm/main.cc:959-979 | reference() and unreference() can be called exactly while references are left. |
| SourceLifetime.WrapperLifetime | glib/glibmm/main.cc:1103-1140 | In every run the wrapper is deleted at most once, exactly when the constructor threw or references and callback data are both gone; an open dispatch has its wrapper in memory exactly if no constructor threw. |
| SourceLifetime.EverythingIsFreed | glib/glibmm/main.cc:959-979 | From every orderly state, giving up what is held gets the wrapper deleted once and the GSource reference dropped once. |
| SourceLifetime.AbortLeavesDangling | glib/glibmm/main.cc:999-1020 | A throwing constructor leaves the data with a wrapper that is gone exactly if the GSource was destroyed and the data was not notified yet. |
| SourceLifetime.DispatchReachesWrapper | glib/glibmm/main.cc:1104-1122 | In every run, a dispatch that begins reaches a wrapper in memory exactly if no constructor threw. |
| SourceLifetime.RuleIsExact | glib/glibmm/main.cc:959-1140 | From every orderly state, a step can be followed by the use of a wrapper that is gone, with everybody obeying the rule from then on, exactly if it breaks the rule: destroying the GSource while it is asked, or throwing while it is asked or dispatched, found ready, or destroyed and the data not notified yet. |
| SourceLifetime.MisusedExactly | glib/glibmm/main.cc:959-1140 | In every run, a step uses a wrapper that is gone exactly if it uses the wrapper after a throw, or is the end of a query after both owners of the wrapper are gone. |
| SourceLifetime.NullDispatchWasReady | glib/glibmm/main.cc:1071-1122 | Prepare and check answer 0 for a null wrapper; so a source whose constructor threw is dispatched only if it was found ready before. |
| SourceLifetime.ThrowInDispatch | glib/glibmm/main.cc:1104-1122 | A concrete run in which a dispatch uses a wrapper that was deleted by a throw. |
| SourceLifetime.ThrowBeforeDispatch | glib/glibmm/main.cc:1104-1122 | One in which a dispatch begins with a null wrapper. |
| SourceLifetime.ThrowWhenDestroyed | glib/glibmm/main.cc:133-145 | One in which the notification uses a wrapper that was deleted by a throw. |
| SourceLifetime.DestroyInQuery | glib/glibmm/main.cc:1086-1101 | One in which check() uses a wrapper that was deleted since the GSource was destroyed. |
| Source.Source.constructor | glib/glibmm/main.h:850-855 | The initial counters are those of the model. |
| Source.Source.Reference | glib/glibmm/main.cc:959-963 | A reference is counted. |
| Source.Source.Unreference | glib/glibmm/main.cc:965-979 | The first part of the last unreference(), as a step of the model. |
| Source.Source.DestroyNotifyCallback2 | glib/glibmm/main.cc:1125-1140 | The second of the two calls deletes the wrapper. |
| Source.Source.DropByReferences | glib/glibmm/main.cc:965-979 | The call of destroy_notify_callback2() is made while the wrapper exists. |
| Source.Source.UnrefSource | glib/glibmm/main.cc:974-977 | The copied pointer is released, without using the wrapper. |
| Source.Source.CallNotify | glib/glibmm/main.cc:133-139 | GLib calls the notification once, after which the node is gone. |
| Source.Source.DropByData | glib/glibmm/main.cc:133-145 | The callback data gives up the wrapper, if it still knows it. |
| Source.Source.Dispatch | glib/glibmm/main.cc:1104-1122 | The wrapper that is used without a test for null is set and in memory, exactly if no constructor threw. |
| Source.Source.Dispatched | glib/glibmm/main.cc:1104-1122 | The wrapper is still in memory when the slot returns, exactly if no constructor threw. |
| Source.Source.BeginQuery | glib/glibmm/main.cc:1069-1101 | A null wrapper is not asked, and one that is asked is in memory. |
| Source.Source.EndQuery | glib/glibmm/main.cc:1069-1101 | The wrapper is still in memory when it answers, exactly if no constructor threw and not both of its owners are gone. |
| Source.Source.Abort | glib/glibmm/main.cc:999-1020 | After a throwing constructor, the data forgets the wrapper if it is found, and the GSource is released once. |
| Source.Source.PerformAll | glib/glibmm/main.cc:959-1140 | Every run of the lifetime model can be performed by these methods, and gets to the same state. |
| TimeoutSource.TimeoutSource.Prepare | glib/glibmm/main.cc:1204-1230 | The timeout is the whole milliseconds to the deadline, at most G_MAXINT, and 0 exactly when ready; the deadline is moved exactly if the clock went back behind the time of arming, and is one interval away then. |
| TimeoutSource.TimeoutSource.Check | glib/glibmm/main.cc:1232-1236 | Ready exactly when the interval since arming is over. |
| TimeoutSource.TimeoutSource.Dispatch | glib/glibmm/main.cc:1238-1247 | The source is armed again exactly if the slot wants it. |
| TimeoutSource.TimeoutSource.constructor | glib/glibmm/main.cc:1195-1198 | A new source is armed now. |
| TimeoutSource.TimeoutSource.Run | glib/glibmm/main.cc:1195-1247 | Any sequence of calls gets to the state, and reports the readiness, that the model says. |
| TimeoutSource.ReadyAfterInterval | glib/glibmm/main.cc:1204-1247 | In every run under a clock that does not go back, each call that reports ready comes more than interval - 1 ms after the source was armed last, and no call resets the deadline. |
| TimeoutSource.DeadlineIsNear | glib/glibmm/main.cc:1215-1226 | In any run, also when the clock goes back, after prepare() the deadline is at most one interval behind the clock reading that it used last. |
| ConnectionNodes.SignalProxyConnectionNode.Notify | glib/glibmm/signalproxy_connectionnode.cc:43-75 | notify() is the step of the model, and does not use the node after the call that may free it. |
| ConnectionNodes.SignalProxyConnectionNode.Disconnect | glib/glibmm/signalproxy_connectionnode.cc:60-72 | GLib frees the node at once, or when the last run of the handler has returned. |
| ConnectionNodes.SignalProxyConnectionNode.DestroyNotifyHandler | glib/glibmm/signalproxy_connectionnode.cc:77-96 | The node is freed, once, with its object forgotten first. |
| ConnectionNodes.SignalProxyConnectionNode.Happens | glib/glibmm/signalproxy_connectionnode.cc:43-96 | Each event, also while the handler runs or runs nested, is the step of the model and keeps the invariant. |
| ConnectionNodes.SignalProxyConnectionNode.AllHappen | glib/glibmm/signalproxy_connectionnode.cc:43-96 | Every run of events from the construction gets the node where the model says. |
| ConnectionNodes.SourceConnectionNode.Notify | glib/glibmm/main.cc:55-71 | notify() is the step of the model, and does not use the node after the call that may free it. |
| ConnectionNodes.SourceConnectionNode.Destroy | glib/glibmm/main.cc:64-70 | GLib frees the node at once, or when the last dispatch has returned. |
| ConnectionNodes.SourceConnectionNode.DestroyNotifyCallback | glib/glibmm/main.cc:73-86 | The node is freed, once, with its source forgotten first. |
| ConnectionNodes.SourceConnectionNode.Happens | glib/glibmm/main.cc:55-86 | Each event, also while dispatches run, is the step of the model and keeps the invariant. |
| ConnectionNodes.SourceConnectionNode.AllHappen | glib/glibmm/main.cc:55-86 | Every run of events from the construction gets the node where the model says. |
| ConnectionNodes.FreedOnce | glib/glibmm/signalproxy_connectionnode.cc:43-96 | In every run of either kind of node, with handlers nested to any depth, the node is freed at most once, exactly when the connection is ended and no run is open, and GLib is asked to end it at most once. |
| ConnectionNodes.FreedExactly | glib/glibmm/signalproxy_connectionnode.cc:43-96 | In terms of what happens: the node is freed exactly when either side has ended the connection and every run of the slot that was started has ended. |
| ConnectionNodes.NestedRun | glib/glibmm/signalproxy_connectionnode.cc:60-96 | A slot that disconnects itself in a nested run has its node freed when the outer run returns. |
| ConnectionNodes.NextEventIsSafe | glib/glibmm/signalproxy_connectionnode.cc:43-75 | After every run, the next event frees the node only if it is in memory, and asks to disconnect only a connected handler; once notified, the connection is ended. |
| ConnectionNodes.EndsFreed | glib/glibmm/signalproxy_connectionnode.cc:60-96 | From every state that the invariant allows, ending the connection and its runs frees the node. |
| Properties.OverriddenOnce | glib/glibmm/class.cc:273-290 | Of the interface properties, exactly those that the class does not have are overridden, each name once. |
| Properties.CustomClass.CustomClassInit | glib/glibmm/class.cc:253-295 | The nested loops number the overridden properties 1, 2, ... and keep their defaults in that order. |
| Properties.CustomClass.constructor | glib/glibmm/class.cc:253-295 | A new class has its interface properties, and no others yet. |
| Properties.CustomClass.OverrideProperty | glib/glibmm/class.cc:280-289 | One property is taken exactly if no property of the class has its name. |
| Properties.CustomClass.IdsAreDistinct | glib/glibmm/class.cc:253-295 | IDs are not zero, and different properties of a class have different IDs. |
| Properties.CustomClass.Install | glib/glibmm/property.cc:336-365 | Installing the next property gives it the next ID and keeps all others. |
| Properties.SameIds | glib/glibmm/property.cc:306-365 | All instances of a class have the same spec and ID for the same property. |
| Properties.CustomObject.constructor | glib/glibmm/property.cc:155-209 | A new object has the declared default for every property, in the order of the IDs: those of the interfaces, then the members. |
| Properties.CustomObject.GetProperty | glib/glibmm/property.cc:155-209 | Reading gives the last value set, or else the default, for every property that can be accessed, and nothing for others. |
| Properties.CustomObject.SetProperty | glib/glibmm/property.cc:213-288 | Setting updates the plain map from IDs to values in one place, exactly if the property can be accessed. |
| Properties.CustomObject.SetIfaceProperty | glib/glibmm/property.cc:230-249 | Copying the defaults on the first write changes no value but the one that is set. |
| Properties.CustomObject.SetMember | glib/glibmm/property.cc:253-286 | A value is kept in the wrapper's Property, or in the side map while there is no wrapper. |
| Properties.CustomObject.ConstructProperty | glib/glibmm/property.cc:306-365 | Looking up or installing a property changes no value of the object: one set before is copied in. |
| Properties.CustomObject.SetValue | glib/glibmm/property.h:402-408 | Setting a Property member updates the plain map. |
| Properties.CustomObject.GetValue | glib/glibmm/property.h:410-415 | A Property member has the value that the plain map has. |
| Properties.SetWrapConstruct | glib/glibmm/property.cc:324-330 | A value set before the wrapper exists is in the first Property member once that is constructed. |
| Properties.SetIsLocal | glib/glibmm/property.cc:213-288 | A set changes that property of its object, no other property of it, and no property of another object. |
| Properties.ConstructIsLocal | glib/glibmm/property.cc:306-365 | Looking up or installing a property makes it accessible, and changes no value of the object nor of another one of the class. |
| ObjectBase.Wrapper.Initialize | glib/glibmm/objectbase.cc:88-107 | Afterwards the slots of GObjects and wrappers agree exactly if the GObject had no other wrapper. |
| ObjectBase.Wrapper.InitializeMove | glib/glibmm/objectbase.cc:109-131 | The GObject goes from one wrapper to the other, and the slots stay inverse; a wrapper that has it already stays as it is; without a GObject the call to GLib is undefined, exactly then. |
| ObjectBase.Wrapper.Move | glib/glibmm/object.cc:227-236 | Move construction takes the GObject over with its references, and leaves a wrapper without one; it is undefined exactly for a wrapper without a GObject. |
| ObjectBase.Wrapper.MoveAssign | glib/glibmm/objectbase.cc:140-159 | Move assignment releases the old GObject by exactly one reference, without deleting the wrapper, and takes the other one over; to itself it does nothing; it is undefined exactly for another wrapper without a GObject. |
| ObjectBase.Wrapper.Destroy | glib/glibmm/objectbase.cc:161-199 | A wrapper destroyed while it has a GObject clears the slot and releases one reference. |
| ObjectBase.Wrapper.DestroyNotify | glib/glibmm/objectbase.cc:301-321 | The wrapper forgets the GObject before it is deleted. |
| ObjectBase.GObject.Unref | glib/glibmm/objectbase.cc:283-299 | The last reference deletes the wrapper through the notification, and an earlier one changes nothing else. |
| ObjectBase.NoSecondWrapper | glib/glibmm/objectbase.cc:222-244 | No GObject has two wrappers, and no wrapper is stored in two GObjects. |
| ObjectBase.WrapRegistry.Register | glib/glibmm/wrap.cc:78-92 | The last function registered for a type counts, and the type 0 is ignored. |
| ObjectBase.WrapRegistry.FindWrapNew | glib/glibmm/wrap.cc:110-121 | Climbing the hierarchy finds the function of the nearest registered ancestor, or none exactly if there is none. |
| ObjectBase.ClimbOne | glib/glibmm/wrap.cc:110-121 | Climbing past an unregistered type does not change the nearest registered ancestor. |
| ObjectBase.NearestIsUnique | glib/glibmm/wrap.cc:110-121 | There is only one function that is the nearest. |
| ObjectBase.NearestMeans | glib/glibmm/wrap.cc:110-121 | It is the function of a registered ancestor below all the other registered ones, in terms of the parents only. |
| ObjectBase.NearestIsSelf | glib/glibmm/wrap.cc:110-121 | A type that is registered itself has its own function. |
| ObjectBase.NoneMeans | glib/glibmm/wrap.cc:110-121 | There is none exactly if the type and its parents, up to the root, are not registered. |
| ObjectBase.AncestryIs | glib/glibmm/wrap.cc:110-121 | The types climbed through are the type and its parents, all of them. |
| ObjectBase.WrapRegistry.CreateNewWrapper | glib/glibmm/wrap.cc:94-124 | No wrapper exactly if the table is missing, the wrapper was deleted or no ancestor is registered; otherwise one made by the nearest function. |
| ObjectBase.WrapRegistry.WrapAuto | glib/glibmm/wrap.cc:181-210 | The wrapper of the object is given again and again; a new one is stored; one reference is added exactly if asked for. |
| ObjectBase.WrapRegistry.Init | glib/glibmm/wrap.cc:44-63 | The table begins with a dummy, once. |
| ObjectBase.WrapFollowsMove | glib/glibmm/object.cc:227-236 | Wrapping gives the wrapper stored before, if there is one; after a move into a new wrapper, wrapping gives that one, and the references stay as they are. |
| ObjectBase.AssignThenDestroy | glib/glibmm/objectbase.cc:140-199 | Deleting the wrapper that was moved from releases nothing more. |
| FdStreamBuf.StreamBuf.Underflow | examples/iochannel_stream/fdstream.cc:167-199 | The next character of the channel, or the end exactly if nothing is ahead and the read gives nothing; nothing is lost. |
| FdStreamBuf.StreamBuf.Fetch | examples/iochannel_stream/fdstream.cc:177-198 | One character is read ahead, and the one delivered last stays in front of it. |
| FdStreamBuf.StreamBuf.Sgetc | examples/iochannel_stream/fdstream.cc:170-171 | Peeking gives the next character and delivers nothing. |
| FdStreamBuf.StreamBuf.Sbumpc | examples/iochannel_stream/fdstream.cc:167-199 | The next character is delivered. |
| FdStreamBuf.StreamBuf.Sungetc | examples/iochannel_stream/fdstream.h:88-91 | After a delivery, one putback gives the character delivered last, which will be delivered again. |
| FdStreamBuf.StreamBuf.Xsgetn | examples/iochannel_stream/fdstream.cc:203-283 | What is delivered continues what was delivered, in the order of the channel; the count is that of the loop; pointers stay in the buffer. |
| FdStreamBuf.StreamBuf.CopyAndRead | examples/iochannel_stream/fdstream.cc:221-281 | The branch for more characters than are ahead: nothing between them and those read is lost or doubled, and the last ones are kept. |
| FdStreamBuf.StreamBuf.ReadMore | examples/iochannel_stream/fdstream.cc:229-239 | The loop ends, and leaves the characters read behind those that were there. |
| FdStreamBuf.StreamBuf.Keep | examples/iochannel_stream/fdstream.cc:249-280 | The last characters fetched are kept for a putback. |
| FdStreamBuf.LoopReadsAll | examples/iochannel_stream/fdstream.cc:233-239 | The loop reads all that reading on would get exactly if no read gives at least half, but not all, of what is asked for with more to come. |
| FdStreamBuf.ShortRead | examples/iochannel_stream/fdstream.cc:233-239 | A concrete channel for which xsgetn() stops short of characters that are there. |
| FdStreamBuf.FirstPeek | examples/iochannel_stream/fdstream.cc:173-195 | A peek before any delivery leaves room for a putback of a character that never came from the channel. |
| FdStreamBuf.StreamBuf.constructor | examples/iochannel_stream/fdstream.cc:36-41 | A fresh buffer has its three pointers at its second character, with nothing delivered or ahead. |
| FdStreamBuf.StreamBuf.Gbump | examples/iochannel_stream/fdstream.cc:216-217 | Characters that were read ahead are delivered. |
| FdStreamBuf.DeliveredIsPrefix | examples/iochannel_stream/fdstream.cc:167-283 | What is delivered is a prefix of what the channel produces. |
| ScmExpr.Parse | tools/defs_gen/scmexpr.py:25-105 | The generator yields and raises what the specification says, line by line. |
| ScmExpr.ParseLine | tools/defs_gen/scmexpr.py:39-100 | The loop over positions does what scanning the rest of the line means. |
| ScmExpr.ParseAt | tools/defs_gen/scmexpr.py:40-99 | Each branch, with its error, for the character at a position. |
| ScmExpr.ParseString | tools/defs_gen/scmexpr.py:59-85 | The branch for strings, with its two errors. |
| ScmExpr.ParseSymbol | tools/defs_gen/scmexpr.py:86-99 | The branch for symbols and numbers; a quote by itself is an empty symbol. |
| ScmExpr.FindQuote | tools/defs_gen/scmexpr.py:63-81 | The string ends at the first quote that is not escaped, and its characters are unescaped. |
| ScmExpr.FindSymbolEnd | tools/defs_gen/scmexpr.py:90-92 | The symbol ends before the first character that cannot be in one. |
| ScmLayout.PlainReadsAsItIs | tools/defs_gen/scmexpr.py:65-81 | Exactly the strings without a bare quote, an escape for n, r or t, or a lone backslash at the end are read as they are written. |
| ScmTexts.QuoteIsReadBack | tools/defs_gen/scmexpr.py:63-81 | A string with its newlines, carriage returns and tabs written as \n, \r and \t is closed by its quote and is read back. |
| ScmTexts.ReadableIffPlain | tools/defs_gen/scmexpr.py:63-81 | Exactly the strings without a bare quote, a backslash before n, r or t, or a lone backslash at the end can be in a file at all. |
| ScmTexts.OthersAreKept | tools/defs_gen/scmexpr.py:74-76 | A backslash before any other character stays, with the character. |
| ScmTexts.WhiteSpace | tools/defs_gen/scmexpr.py:31 | White space is tab, newline, vertical tab, form feed, carriage return and blank, by their codes. |
| ScmTexts.SymbolEnders | tools/defs_gen/scmexpr.py:32 | White space, parentheses, semicolon and both quotes end a symbol, and no other character. |
| ScmLayout.QuotedIsRead | tools/defs_gen/scmexpr.py:65-85 | A closed string is read up to its quote, whatever follows. |
| ScmLayout.SymbolIsRead | tools/defs_gen/scmexpr.py:90-93 | A symbol is read up to the first character that ends it, whatever follows. |
| ScmLayout.ScanGoodLine | tools/defs_gen/scmexpr.py:39-100 | Scanning a printed line is taking its tokens: white space and comments do not count. |
| ScmLayout.ScanGoodLines | tools/defs_gen/scmexpr.py:36-100 | The same for any lines, with their line numbers. |
| ScmLayout.SplitJoined | tools/defs_gen/scmexpr.py:36 | Text made of lines that end with newlines is split into these lines. |
| ScmTexts.SplitIsExact | tools/defs_gen/scmexpr.py:36 | Any text is cut into lines without loss: each ends with its only newline, but the last one need not. |
| ScmTexts.AnyNewlines | tools/defs_gen/scmexpr.py:27 | A file in text mode reads the same whether its lines end with newlines, carriage returns or both. |
| ScmLayout.FileLinesOf | tools/defs_gen/scmexpr.py:27-36 | A file of lines without carriage returns, opened in text mode, is iterated by these lines. |
| ScmLayout.CutLinesFail | tools/defs_gen/scmexpr.py:27-105 | A carriage return within a string of such a file is read as its end of line, and parsing raises an error. |
| ScmForest.PrintedIsParsed | tools/defs_gen/scmexpr.py:25-105 | Any nested lists, printed with any white space, line breaks and comments between tokens, are parsed to what they stand for, without an error. |
| ScmForest.AcceptsExactlyPrinted | tools/defs_gen/scmexpr.py:25-105 | Lines of tokens are parsed without an error exactly if they are nested lists printed. |
| ScmForest.ParsedBackIffLiteral | tools/defs_gen/scmexpr.py:25-105 | A printed tree is parsed back to itself exactly if no symbol is a number and no string has an escape. |
| ScmForest.TokensTaken | tools/defs_gen/scmexpr.py:39-100 | At every point, the open and the finished lists account for exactly the tokens taken. |
| ScmLexing.AcceptsExactly | tools/defs_gen/scmexpr.py:25-105 | Any lines at all are parsed without an error exactly if they are nested lists printed, quotes by themselves included, and then what they stand for is yielded. |
| ScmLexing.Lex | tools/defs_gen/scmexpr.py:39-100 | Every line that is scanned without an error is tokens with white space between them and perhaps a comment. |
| ScmErrors.OutcomeIsExact | tools/defs_gen/scmexpr.py:25-105 | Lines of tokens are complete lists and perhaps open ones, or complete lists and then a token that cannot be there: the lists are yielded, and the error names that token's line, or the lines on which the open lists were opened. |
| ScmErrors.LinesAreCounted | tools/defs_gen/scmexpr.py:34-38 | Lines are counted from one. |
| Definitions.Construct | tools/defs_gen/definitions.py:179-294 | The constructors: clauses are taken in order, later ones win, lists grow, other arguments are ignored; values of any kind are stored, and there is no result exactly where an exception is raised. |
| Definitions.ReadPairs | tools/defs_gen/definitions.py:193-195 | The entries of a list are appended, of whatever kind, unless one of them has no two elements, which raises an exception. |
| DefinitionsText.ClauseSetsField | tools/defs_gen/definitions.py:186-277 | A clause with one of the words for a field sets that field, to whatever value, and no other one. |
| DefinitionsText.ListIsAppended | tools/defs_gen/definitions.py:193-195 | The entries of (values ...) are appended for enum and flags types, and those of (fields ...) for the others. |
| DefinitionsText.OthersAreIgnored | tools/defs_gen/definitions.py:186-277 | Other words, shorter lists and what is no list are ignored. |
| DefinitionsText.EntriesArePairs | tools/defs_gen/definitions.py:194-195 | The first two elements of a list, or characters of a string, make an entry. |
| DefinitionsText.EntriesFail | tools/defs_gen/definitions.py:194-195 | An exception is raised exactly if one has fewer, or is a number. |
| Definitions.Output.WriteOptional | tools/defs_gen/definitions.py:200-201 | A clause is written exactly for a field that is neither None nor empty. |
| Definitions.Output.WriteList | tools/defs_gen/definitions.py:204-208 | The list is written exactly if it has entries, one line each. |
| Definitions.Output.WriteEnum | tools/defs_gen/definitions.py:198-209 | The definition is written, with C name and type code in any case. |
| Definitions.Output.WriteBoxed | tools/defs_gen/definitions.py:244-261 | The definition is written, without the fields that are None or empty. |
| Definitions.Output.WritePointer | tools/defs_gen/definitions.py:285-298 | The same for pointer types. |
| DefinitionsText.EnumIsWritten | tools/defs_gen/definitions.py:198-209 | The text of an enum or flags type, word for word. |
| DefinitionsText.BoxedIsWritten | tools/defs_gen/definitions.py:244-261 | The text of a boxed type, word for word. |
| DefinitionsText.PointerIsWritten | tools/defs_gen/definitions.py:285-298 | The text of a pointer type, word for word. |
| DefinitionsLayout.SheetLinesText | tools/defs_gen/definitions.py:198-298 | The text written for a definition is that of printed lines. |
| DefinitionsLayout.SheetLinesTokens | tools/defs_gen/definitions.py:198-298 | These lines are one nested list printed. |
| DefinitionsRoundTrip.HandleGivesBack | tools/defs_gen/scmexpr.py:115-120 | The command is translated to the handler of its kind, and the constructor gets the definition back from the tuple. |
| DefinitionsText.EnumIsConstructed | tools/defs_gen/scmexpr.py:115-120 | (define-enum name ...) constructs an enum type from the name and the arguments. |
| DefinitionsText.FlagsIsConstructed | tools/defs_gen/scmexpr.py:115-120 | (define-flags name ...) constructs a flags type. |
| DefinitionsText.BoxedIsConstructed | tools/defs_gen/scmexpr.py:115-120 | (define-boxed name ...) constructs a boxed type. |
| DefinitionsText.PointerIsConstructed | tools/defs_gen/scmexpr.py:115-120 | (define-pointer name ...) constructs a pointer type. |
| DefinitionsRoundTrip.WrittenIsParsed | tools/defs_gen/definitions.py:178-298 | The lines of written definitions, given to the parser one by one, are parsed into their tuples, in order and with no error. |
| DefinitionsRoundTrip.FileIsParsed | tools/defs_gen/scmexpr.py:25-105 | A file of written definitions, opened in text mode, is parsed into their tuples if no string has a carriage return, and raises an error otherwise. |
| DefinitionsRoundTrip.WrittenIsReadBack | tools/defs_gen/definitions.py:178-298 | Writing any list of definitions and reading the lines gives them back, with empty optional fields turned into None; reading the file does exactly if no string has a carriage return. |
| DefinitionsRoundTrip.RebuiltIffNoneEmpty | tools/defs_gen/definitions.py:178-298 | A definition is rebuilt as it was from its lines exactly if no optional field is an empty string, and from its file exactly if, moreover, no string has a carriage return. |

## Left out

- The `const char*` overloads of the `ustring` operations, those for `char`, and insertion at an iterator: the same conversions once more.
- Strings that are not valid UTF-8, which the header excludes; collation, normalisation, case, `make_valid()`, locale conversion, streams and `format()`.
- The order that `objdefs.sort()` gives: any permutation is covered.
- Effects of slots other than on Dispatchers, exceptions from slots, GLib's poll loop, failing system calls, and another Impl at the address of a deleted one: Impls have identities that are used once.
- The test of the Win32 queue for emptiness that does not lock the mutex is one atomic step.
- Main loops run by the destructors of slots. Which slots own which Dispatchers: any destruction of slots may destroy any.
- The test of `dispatch_vfunc()` for a source that was never connected, which returns before it uses the wrapper.
- `connect_generic()` called again on a Source, which replaces the connection node; the dispatch functions of sources other than the reference to the wrapper.
- libsigc++ beyond the calls of `notify()`: a slot is told of its end as long as its node exists.
- Adding an interface to a class after its properties were installed; Property members with the name of a property of the base class or of an interface; a wrapper with Property members that is moved.
- Property types: a value is a number here. Notifications of property changes.
- Types that override `destroy_notify_()`, `wrap_create_new_wrapper_for_interface()`, and `wrap_register_cleanup()`, after which indices in type data are stale.
- I/O errors in `fdstreambuf`, its output side, and more than one putback in a row.
- ObjectBase.Wrapper.MoveAssign: the parts of `sigc::trackable` are not modelled.
- Writing definitions that have fields other than strings, which the constructors store.
- libsigc++: whether an emission goes on after its signal was deleted, and what a slot then finds there.
- Values of numbers in S-expressions: a number is known by its literal. The wording of the parser's messages.
- Object, interface, function and method definitions; regular expressions in the tools; documentation extraction.
- The other examples, `vectorutils.h`, `exceptionhandler.cc`, values, quarks, timers and thin wrappers.
