# Speech Dispatcher: queues, caches, framing and text transformations

A Dafny model of the parts of Speech Dispatcher where state, concurrency or text encoding is hardest to get right,
with proofs of what these parts promise. `dafny verify dfyconfig.toml` checks all of it. Every statement is about the
model.

**Concurrent queues** are step systems. One step is one critical section (or, in the lock-free ring, one index load,
one byte copied, one index published), the program counters of the threads are part of the state, and the theorems
hold in every state of every interleaving.

* `SpeakQueue`, `SpeakQueueInvariant`, `SpeakQueueSafety`, `SpeakQueueCauses`: the speak queue of
  `src/common/speak_queue.c` with its server, synthesizer, play and stop threads. The callers keep the usage contract of
  `src/common/speak_queue.h`: no new message while a stop is in progress or before the terminal event of the previous
  one, and nothing is pushed after `module_speak_queue_cancel`. The branch with an opened audio device is the one
  modelled.
* `PipewireRing`: the byte ring of `src/audio/pipewire.c` with its two wrapping 32-bit indices.
* `KittenWorker`, `KittenReports`: the generating and the playing thread of `src/modules/kitten_worker.c`, their two
  queues and the stop flag.

**Caches** are classes over the structure the source changes in place, proved against functions on the list of what is
cached; laws about sequences of operations follow for these functions.

* `IvonaCache`, `IvonaCacheSpec`, `IvonaCacheLaws`: the doubly linked slots of `src/modules/ivona_client.c`.
* `FestivalCache`, `FestivalCacheSpec`, `FestivalCacheLaws`: tables, counter list and byte budget of
  `src/modules/festival.c`.

**Codecs and framing** relate both ends of a pipe.

* `ModuleReadlineSpec`, `ModuleReadline`, `ModuleReadlineLaws`, `ModuleReadlineBehind`, `ModuleReadlineWaits`,
  `ModuleReadlineExample`: the compacting and growing line buffer of `src/modules/module_readline.c`.
* `DotFraming`, `ModuleProcess`, `ModuleProcessLaws`, `ModuleProcessExample`: dot-stuffed message bodies (the transparency
  rule of section 4.5.2 of RFC 5321, with LF line ends), from `escape_dot` of `src/server/output.c` to the speak call in
  `src/modules/module_process.c`.
* `AudioFrames`: escaped audio (section 4.2 of RFC 1662, with newline escaped in place of the flag) from a module to the
  decoder in `src/server/output.c`.
* `MessagePart`: messages in parts, `src/modules/module_utils.c`.

**Text transformations** have a meaning that must survive.

* `SsmlStrip`, `IndexMarking`, `IndexMarkingLaws`: index marks inserted, found and deleted by the server
  (`src/server/index_marking.c`) against the modules' SSML stripping (`src/modules/module_utils.c`).
* `BaratinooSpec`, `Baratinoo`, `BaratinooLaws`, `BaratinooDepth`, `BaratinooVoices`: SSML to engine commands, with the
  voice stack and the voice selection of `src/modules/baratinoo.c`. `BaratinooLaws.Read` is the reading of the output.
* `IbmTts`, `IbmTtsLaws`: the mark tokeniser and synthesis loop of `src/modules/ibmtts.c`. `ServerMarks` relates it to
  the marks of the server and of the speak queue.

`Collections`, `Bytes` and `Strings` hold what several modules share: options, concatenation, C strings, `memchr`,
`strstr`, decimal printing.

Where the code falls short of what it is meant to do, the code is modelled and the gap is stated:

* A pause, flush or terminate call between the reset and the report leaves its flag set at the STOP report
  (`ReportFindsNothing`, `FlagAtReport`). A reported STOP has END in front of it exactly if END's critical section found
  the stop requested already (`EndBeforeVerdict`, `EndThenStop`).
* The scan index of the line buffer is set to 0 after a read although the pending bytes begin at `data_ptr`.
  `ModuleReadline.Reader` has the form in the code and a repaired one. `NextIs` says exactly when a call in the form of
  the code returns a wrong line, `RepeatsExactly` when it makes returned lines pending again, and `SendAndSpeak` exactly
  which messages are spoken right from start to end: a text can be in spite of a wrong line (`SpeakInSpite`), as long as
  no returned line comes again. `SpeakGarbled` speaks a wrong text; `AlignedIsRight` is a condition on the reads that
  rules that out.
* A message resumed in TEXT mode is escaped twice (`RespokenRest` says exactly when this is heard).
* When pipewire names no amount, the rest of the buffer is whatever was in its memory (`ChunkIsGood`).
* The Ivona cache never advances the index of its victim search, so the search covers the whole list, not half of it
  (`FindLeast`); storing a string twice keeps both waves, and lookups serve them in turn
  (`LookupsTakeTurns`).
* `cache_lookup` of the Festival module counts a hit whatever `add_counter` says (`Lookup`).
* A part limit that is too small for a character gives an empty part for ever, or splits the character
  (`EmptyPart`, `PartsAreTheMessage`).
* Beyond 32 levels of SSML the Baratinoo voices go wrong, and 32 is the exact bound (`DepthBoundIsTight`). A
  closing brace in a printed attribute value garbles any document of no more levels (`SpokenUnderNearestLanguage`).
* With an untold age, a told adult and a told child among the voices, and no child's voice asked for, and only then, the
  voice comparison is not one of scores (`ScoresExist`). A worse voice can then be chosen exactly where an adult's third
  voice is asked for (`ChosenWellExactly`, `WorseChoice`).
* A sample of more than 10000 bytes keeps the audio loop from ending (`LoopEnds`).
* The Kitten worker never reports a mark (`MarksAreNeverReported`) and forgets stops that come before it has started on a
  task (`OnlyLaterStopsCount`).

## Model

| member | source | states |
|---|---|---|
| SpeakQueueInvariant.StepKeeps | src/common/speak_queue.c:142-695 | Every critical section of the server, the synthesizer callback, the play thread and the stop thread, and every report, keeps the invariant that ties flags, program counters, queue, size counter and event log together. |
| SpeakQueueSafety.RunKeeps | src/common/speak_queue.c:142-695 | The invariant holds in every state of every interleaving of the four parties. |
| SpeakQueueSafety.ClearFindsPlayParked | src/common/speak_queue.c:646-673 | From the moment the stop thread has seen the play thread asleep until its report, the play thread is at its outer wait (or gone) with no entry in hand and the device closed, and stays there whatever anybody does next. |
| SpeakQueueSafety.ReportFindsNothing | src/common/speak_queue.c:675-687 | At the STOP or PAUSE report the queue is empty, its size 0 and the state IDLE; a request flag is set exactly if the run has a pause, flush or terminate call since its last reset. |
| SpeakQueueSafety.FlagAtReport | src/common/speak_queue.c:588-595 | A reachable state in which STOP is about to be reported while a pause request is pending: pause was called between the reset and the report. |
| SpeakQueueSafety.EveryLogIsGood | src/common/speak_queue.c:441-543 | Of every message BEGIN is reported at most once and first, END at most once and followed by nothing but STOP, nothing follows STOP or PAUSE, PAUSE comes right after a mark that starts with __spd_, and no message starts before the previous one has had a terminal event. |
| SpeakQueueSafety.EndBeforeVerdict | src/common/speak_queue.c:508-543 | Over every run: a message that is stopped or paused has END in front of its verdict exactly if END's critical section was entered while SPEAKING with a stop requested already; the verdict is STOP then, so END and a second terminal event are reported exactly in that case. |
| SpeakQueueSafety.EndThenStop | src/common/speak_queue.c:508-527 | That happens: a reachable state in which BEGIN, END and STOP were reported for one message, the stop landing between the pop of END and its critical section. |
| SpeakQueueSafety.PauseAfterMark | src/common/speak_queue.c:465-486 | For every mark that starts with __spd_ a reachable state in which BEGIN, that mark and PAUSE were reported: pause was requested before the mark's critical section. |
| SpeakQueueCauses.VerdictIsAsked | src/common/speak_queue.c:142-687 | Over every run: PAUSE is reported for a message only if pause was called since its before_synth, and then right behind a mark whose name starts with __spd_; STOP only if stop was called since then. |
| SpeakQueueCauses.StopFindsWaiter | src/common/speak_queue.c:465-610 | Only terminate interrupts a stop thread that does not wait: a stop call and a mark that pauses take effect only while a message is on its way and the stop thread waits, the mark only if pause was called for the message. |
| SpeakQueueCauses.StopSilences | src/common/speak_queue.c:400-543 | Once a stop is requested, nothing more of the message is reported than the entry in hand, until the next before_synth. |
| SpeakQueueSafety.PushedIsAccepted | src/common/speak_queue.c:165-295 | What is pushed for a message is, in order, everything its synthesizer handed over since before_synth and the queue accepted: marks, icons and END always, audio unless the queue is idle, stopping, flushing or full. |
| SpeakQueueSafety.ReportsFollowPushes | src/common/speak_queue.c:453-543 | What is reported of a message is, in push order, the events of a prefix of what was pushed for it, then at most one verdict; END is reported only after everything pushed was dispatched. |
| SpeakQueueSafety.NothingLost | src/common/speak_queue.c:188-219 | Entries pushed since the last clear are the dispatched ones, then the one in hand, then the queue; the size counter is the number of queued samples. |
| SpeakQueueSafety.BacklogBound | src/common/speak_queue.c:226-252 | A queue in which every chunk found at most the maximum before it holds at most the maximum plus one chunk. |
| SpeakQueueSafety.QueueIsBounded | src/common/speak_queue.c:221-256 | In every reachable state the size counter is at most the maximum plus the largest chunk ever added. |
| SpeakQueueCauses.SizeIsFrames | src/common/speak_queue.c:188-219 | In every reachable state the size counter is the number of audio frames in the queue. |
| SpeakQueueCauses.AudioIsRefusedFor | src/common/speak_queue.c:221-256 | Audio is refused only if stop, pause, flush or terminate was called since before_synth, or more frames than the maximum are waiting: no request of an earlier message has an effect. |
| SpeakQueueSafety.BeforeSynthIsReady | src/common/speak_queue.c:150-163 | Under the usage contract before_synth is never turned down, and it finds an empty queue and nothing in hand. |
| PipewireRing.StepKeeps | src/audio/pipewire.c:81-351 | Every step of producer and consumer, down to the copy of a single byte, keeps indices, stored bytes and delivered buffers in order. |
| PipewireRing.RunKeeps | src/audio/pipewire.c:81-351 | That holds in every state of every interleaving of the two threads, across any number of wraps of the 32-bit indices. |
| PipewireRing.FillIsTrue | src/audio/pipewire.c:324-327 | The difference of the wrapped indices is the number of bytes written and not read, and stays within 0..16384. |
| PipewireRing.EnabledIsReady | src/audio/pipewire.c:125-150 | No copy ever leaves the ring, the track or the buffer of pipewire. |
| PipewireRing.WritesPastUnread | src/audio/pipewire.c:337-347 | The byte being written goes to a place that holds no unread byte. |
| PipewireRing.UnreadIsKept | src/audio/pipewire.c:343-349 | Over every step a written, unread byte keeps its place and its value. |
| PipewireRing.ChunkIsGood | src/audio/pipewire.c:110-158 | Each buffer handed over has the length min(maxsize, requested * stride), or all the memory if no amount is named: the next bytes of the stream as far as there are unread ones, then silence, or, if no amount is named, what was in the memory before. |
| PipewireRing.DeliveredIsPrefix | src/audio/pipewire.c:81-351 | The data bytes of all buffers so far are a prefix of the tracks fed, put together, and every buffer is as long and as full as said above. |
| PipewireRing.DrainedIsDelivered | src/audio/pipewire.c:311-361 | When everything is written and read, every byte of every track fed was delivered, in order. |
| PipewireRing.FedIsTracks | src/audio/pipewire.c:311-351 | What is taken for fed is the tracks of the calls, whole and in order. |
| PipewireRing.CallbacksAreAnswered | src/audio/pipewire.c:81-163 | Every callback is answered with one buffer in its memory, for the amount it asked for, in order. |
| PipewireRing.LoadRoomTakes | src/audio/pipewire.c:316-343 | With room in the ring the producer takes the minimum of what is left of the track and 16384 less the unread bytes; with none it waits. |
| PipewireRing.ProcessTakes | src/audio/pipewire.c:110-133 | A callback takes the minimum of the unread bytes and what is wanted. |
| PipewireRing.CanDrain | src/audio/pipewire.c:81-361 | Nobody is ever stuck: every run can go on, with no further track, until every byte of every track is delivered. |
| IvonaCache.Cache.constructor | src/modules/ivona_client.c:184-188 | The two sentinels point at each other and the cache is empty. |
| IvonaCache.Cache.Bypass | src/modules/ivona_client.c:192-195 | The neighbours of a slot point past it, in both directions; a slot in no list changes nothing. |
| IvonaCache.Cache.Unlink | src/modules/ivona_client.c:190-195 | The chain is linked both ways, without the slot and otherwise in order. |
| IvonaCache.Cache.Append | src/modules/ivona_client.c:196-199 | The chain is linked both ways with the slot at the head end. |
| IvonaCache.Cache.ToHead | src/modules/ivona_client.c:190-200 | The slot moves to the head end, succ and pred chains stay inverse and without repetition. |
| IvonaCache.Cache.Search | src/modules/ivona_client.c:252-254 | The walk from the tail finds the oldest slot stored under the string, or none. |
| IvonaCache.Cache.Get | src/modules/ivona_client.c:247-264 | A lookup returns the wave of the oldest slot under that string, raises its count and moves it to the head end; a miss changes nothing. The links stay intact and hold exactly the used slots. |
| IvonaCache.Cache.FindLeast | src/modules/ivona_client.c:202-214 | The search, whose index never advances, covers the whole list and finds the oldest slot of the least count below INT_MAX. |
| IvonaCache.Cache.Age | src/modules/ivona_client.c:216-219 | Every count above 1 drops by one, nothing else changes. |
| IvonaCache.Cache.FindMinCount | src/modules/ivona_client.c:202-222 | The victim is the oldest of the least used; counts age exactly if there is one. |
| IvonaCache.Cache.Store | src/modules/ivona_client.c:224-245 | A store takes a free slot, or the victim's after ageing, and puts it at the head end with count 1; a long string changes nothing. |
| IvonaCache.Cache.Fill | src/modules/ivona_client.c:238-243 | The slot holds the new string, wave and count 1 and is the newest; the links stay intact. |
| IvonaCacheLaws.StepOrigin | src/modules/ivona_client.c:224-264 | Up to its count every entry after an operation was there before or is the one just stored. |
| IvonaCacheLaws.HoldsOnlyStored | src/modules/ivona_client.c:224-264 | After any operations at most 256 entries, each with a wave stored under that very string and a count of at least 1. |
| IvonaCacheLaws.EvictsOldestLeastUsed | src/modules/ivona_client.c:202-245 | A store into a full cache of 256 loses exactly one entry, the oldest of the least used; the new one has one use, and everybody else who had more than one has one less. |
| IvonaCacheLaws.AgreesWithMap | src/modules/ivona_client.c:144-160 | Under ivona_get_wave's discipline, store only what was just looked up and missed, strings are distinct and the cache is a part of the map from strings to the waves last stored. |
| IvonaCacheLaws.HitIsLastStored | src/modules/ivona_client.c:144-160 | So a hit is the wave last stored under the string. |
| IvonaCacheLaws.LookupTurns | src/modules/ivona_client.c:247-264 | A lookup serves the first of the waves stored under the string and puts it behind the others; what is stored under other strings keeps its order. |
| IvonaCacheLaws.LookupsTakeTurns | src/modules/ivona_client.c:247-264 | Without that discipline a string may have several waves: lookup number n, from 0 on, serves wave n modulo their number, whatever other strings are looked up in between. |
| IvonaCacheLaws.StoreQueues | src/modules/ivona_client.c:224-245 | While there is room a store queues its wave behind those stored under the same string and touches no other string. |
| IvonaCacheLaws.HitsAreCounted | src/modules/ivona_client.c:247-264 | Every hit raises the uses counted under its string by one, and no others. |
| SsmlStrip.StripSsml | src/modules/module_utils.c:369-419 | The loop over the message computes the text without tags and with the five entities decoded, entity by entity. |
| SsmlStrip.EncodedIsDecoded | src/modules/module_utils.c:369-419 | Any text written with the five entities is stripped to itself. |
| SsmlStrip.TagIsDropped | src/modules/module_utils.c:369-419 | A tag is dropped, whatever stands in it. |
| IndexMarking.Message.InsertIndexMarks | src/server/index_marking.c:30-126 | The buffer becomes the marked text: escaped and wrapped in TEXT mode, marks numbered from 0 behind sentence characters outside tags that stand before a space, a tag or an entity. |
| IndexMarkingLaws.TextMarksAreInvisible | src/server/index_marking.c:49-120 | For every text, module_strip_ssml of the marked text is the text exactly. |
| IndexMarkingLaws.SsmlMarksAreInvisible | src/server/index_marking.c:59-115 | For every SSML message, module_strip_ssml of the marked message is module_strip_ssml of the original: marks never land inside a tag or an entity. |
| IndexMarkingLaws.EntitySurvives | src/server/index_marking.c:93-104 | The entity a text begins with is the one its marked text begins with. |
| IndexMarkingLaws.SsmlMarksAreDue | src/server/index_marking.c:59-115 | SSML mode: marks, numbered from 0, stand exactly behind a full stop, question or exclamation mark outside tags that is followed by a space, a tag or an entity; the rest is unchanged. |
| IndexMarkingLaws.BreakPointsAreBreaks | src/server/index_marking.c:83-111 | The break points are, in rising order, exactly the places behind a sentence character and before a space, a tag or an entity. |
| IndexMarkingLaws.MarksDiffer | src/server/index_marking.c:137-140 | No mark is the beginning of a text that begins with a mark of another number. |
| IndexMarkingLaws.FindInMarked | src/server/index_marking.c:129-149 | Searching a marked text for a mark finds what stands behind the break of that number, or nothing if there is none. |
| IndexMarkingLaws.ResumeIsExact | src/server/index_marking.c:129-149 | Mark k is found exactly if the text has a k-th break, and stripping what follows gives the original text behind that break, to the character. |
| IndexMarkingLaws.EachMarkOnce | src/server/index_marking.c:96-101 | Behind mark k there is no mark of a number up to k: each occurs once. |
| IndexMarkingLaws.MarksInOrder | src/server/index_marking.c:96-101 | Behind mark k stands mark k + 1, if the text has that many breaks. |
| IndexMarking.StripIndexMarks | src/server/index_marking.c:152-203 | The loop deletes every tag that begins like a mark of the server's own and, in TEXT mode, cuts at the closing speak tag. |
| IndexMarkingLaws.TextMarksAreDeleted | src/server/index_marking.c:152-203 | TEXT mode: deleting what was inserted leaves the opening speak tag and the escaped text. |
| IndexMarkingLaws.SsmlMarksAreDeleted | src/server/index_marking.c:152-189 | SSML mode: deleting marks gives the same for the marked message as for the message itself, whatever it is. |
| IndexMarkingLaws.SsmlDeletionIsExact | src/server/index_marking.c:152-203 | SSML mode: deleting what was inserted leaves the speak tag and the message, exactly if the message had no mark head of its own. |
| IndexMarkingLaws.RespokenRest | src/server/speaking.c:384-407 | A message paused at mark k and queued again in TEXT mode is marked again, and spoken, as its escaped rest, but for normalisation and symbols, which come in between; that is the rest exactly if it holds none of <, > and &. |
| ServerMarks.ServerMarkIsTaken | src/modules/ibmtts.c:609-658 | A mark the server inserts is one part of a message for this module, under the name __spd_ and its number, at which the speak queue can pause. |
| ModuleReadline.Reader.Scan | src/modules/module_readline.c:66-69 | The loop stops at the first newline from the scan index on, or at the end of the pending bytes. |
| ModuleReadline.Reader.Advance | src/modules/module_readline.c:75-82 | The length, subtracted and added in size_t, wraps around and back: the pending bytes begin behind the newline found even if it stands before them, and an emptied buffer starts over. |
| ModuleReadline.Reader.TakeLine | src/modules/module_readline.c:64-86 | The line up to the first newline from the scan index on is returned as far as its first NUL; what is skipped as known to hold no newline makes no difference; a newline before the pending bytes gives an empty line or one that runs into the memory behind the buffer. |
| ModuleReadline.Reader.Compact | src/modules/module_readline.c:117-121 | Moving the pending bytes to the front changes neither them nor what is known to hold no newline. |
| ModuleReadline.Reader.Grow | src/modules/module_readline.c:122-147 | The buffer doubles, or starts at 2, and keeps its bytes; the size overflows only when doubling leaves size_t. |
| ModuleReadline.Reader.Receive | src/modules/module_readline.c:150-175 | What read hands over stands behind the pending bytes; the scan index is set to 0, or to data_ptr in the repaired form. |
| ModuleReadline.Reader.ReadLine | src/modules/module_readline.c:56-177 | A call in either form returns and leaves what the specification function says, wrong lines included; the lemmas below say what that is. |
| ModuleReadlineLaws.NextIs | src/modules/module_readline.c:56-177 | However reads chop the input: a returned line is the next one of the stream and the rest stays, or nothing is returned and nothing lost, or the line is wrong and bytes already returned come again. The last happens exactly if the scan index set to 0 is in force, the call begins with an old newline in reach of the scan and no new one pending, and bytes arrive in it; never in the repaired form. |
| ModuleReadlineBehind.NextBehind | src/modules/module_readline.c:56-177 | What stands in front of the pending bytes is lines already returned: a call keeps or drops them and puts the line it returns behind them; a stale newline leaves the first of them in front and makes exactly the others pending again. |
| ModuleReadlineBehind.RepeatsExactly | src/modules/module_readline.c:173-175 | A call makes returned bytes pending again exactly if the scan index set to 0 is in force, the call begins with an old newline in reach of the scan that is not the last one in front of the pending bytes, and bytes arrive; with only that last one in reach the wrong line is empty and nothing comes again. |
| ModuleReadlineLaws.SteadyNext | src/modules/module_readline.c:56-177 | On a steady descriptor a line that is coming is returned. |
| ModuleReadlineWaits.NextWaits | src/modules/module_readline.c:56-177 | A call with a complete line pending makes no system call. Another goes on over hiccups, idle times and missing memory only if it blocks, and over reads without a newline in any case; a blocking one returns nothing only at an error, at the end of the stream, or with a buffer too big to double. |
| ModuleReadlineLaws.AlignedNext | src/modules/module_readline.c:173-175 | If no read of a call ends inside a line behind a complete one, the call is right in the form of the code, and the buffer is again such that this holds of the next. |
| ModuleReadlineLaws.LinesAreInput | src/modules/module_readline.c:56-177 | For NUL-free input, in either form: the lines returned, one after the other, and the bytes still to come are the input, each line ending in its only newline, exactly if the form is the repaired one or no call begins with a stale newline in reach and gets bytes. |
| ModuleReadlineLaws.SplitIsUnique | src/modules/module_readline.c:56-84 | There is only one way to cut a stream into such lines and a rest without newline. |
| ModuleReadlineLaws.SteadyCalls | src/modules/module_readline.c:56-177 | On a steady descriptor calls without a wrong one leave nothing but an unfinished line. |
| ModuleReadlineLaws.ReadLines | src/modules/module_readline.c:56-177 | Calling until there is no line returns the lines of those calls and leaves what they leave, in either form. |
| ModuleReadlineExample.SecondLineIsEmpty | src/modules/module_readline.c:173-175 | The stream aaaa, newline, bc, newline in reads of two bytes: the second call returns an empty line in the form of the code, and bc in the repaired form. |
| ModuleReadlineExample.StaleNewline | src/modules/module_readline.c:56-177 | So do two calls on a new buffer. |
| DotFraming.EscapeDot | src/server/output.c:1556-1599 | The strstr loop computes the text with every dot at the start of a line doubled. |
| DotFraming.EscapedRound | src/server/output.c:1579-1584 | One turn of that loop: up to the next line that begins with a dot everything is copied. |
| DotFraming.EscapedArrives | src/modules/module_process.c:192-237 | Any text without NUL, stuffed and ended by the dot line, is collected as it was with a newline behind it, and what follows stays. |
| DotFraming.ReceivedAgain | src/modules/module_process.c:192-237 | Whole lines without NUL and without a dot line in front of a message add at least a byte and a line each to what is received, and leave the same behind it. |
| ModuleProcess.TextBuffer.constructor | src/modules/module_process.c:183-186 | The text buffer starts empty with 128 bytes. |
| ModuleProcess.TextBuffer.Append | src/modules/module_process.c:217-235 | Doubling the allocation until the line fits keeps what was collected and adds the line; every write is within the allocation, which is less than twice the need. |
| ModuleProcess.TextBuffer.Terminate | src/modules/module_process.c:202-206 | The last newline of the text becomes its terminator. |
| ModuleProcess.Collect | src/modules/module_process.c:192-237 | The loop gathers, line by line as the reader in either form gives them, the text up to the dot line with its number of lines and leaves what the calls leave; it fails only if the input is over or memory does not suffice. |
| ModuleProcess.CmdSpeak | src/modules/module_process.c:181-257 | In either form of the reader the answer is that to the text gathered; it is missing only if the input is over before the dot line or memory does not suffice for twice the text. |
| ModuleProcessLaws.GatherIsReceived | src/modules/module_process.c:192-237 | If no call makes a returned line pending again the text gathered is the next message of the stream, whatever the reads hand over, and what follows it stays; its lines are counted right if no line is wrong at all; on a steady descriptor it is gathered. |
| ModuleProcessLaws.GatherGains | src/modules/module_process.c:192-237 | Where the message is collected and leaves exactly what follows it, its text is longer than the one sent if returned lines came again, and its lines are more if any call returned a wrong one. |
| ModuleProcessLaws.WrongLinesExactly | src/modules/module_readline.c:173-175 | Some call returns a wrong line exactly if the reader is not the repaired one and a call begins with a stale newline in reach and gets bytes. |
| ModuleProcessLaws.RepeatedLinesExactly | src/modules/module_readline.c:173-175 | Returned lines come again exactly if the reader is not the repaired one and a call begins with a stale newline in reach, another newline in front of the last returned line's, and gets bytes. |
| ModuleProcessLaws.AlignedIsRight | src/modules/module_readline.c:173-175 | No call returns a wrong line, in the form of the code too, if no read ends inside a line behind a complete one. |
| ModuleProcessLaws.SingleBytesAreAligned | src/modules/module_readline.c:150-175 | Reads of single bytes never do. |
| ModuleProcessLaws.SentIsReceived | src/server/output.c:911-915 | What output_speak sends for a text is collected as that text and a newline, or as the word space for a lone space. |
| ModuleProcessLaws.AnswerToSent | src/modules/module_process.c:239-257 | A text is spoken unchanged, an empty one refused; keys, characters and icons are refused exactly if they have more than one line; the word space is read back as a space for keys and characters. |
| ModuleProcessLaws.ArrivesExactly | src/modules/module_process.c:181-264 | A NUL-free message, sent as dot-stuffed lines to a new module over a descriptor that goes on delivering, gets the answer due and leaves what follows it: a text message exactly if no call makes a returned line pending again, a key, character or icon on one line exactly if no call returns a wrong line. |
| ModuleProcessLaws.SendAndSpeak | src/modules/module_process.c:181-264 | End to end, in either form of the line buffer: the reply is the one due, which for a text but an empty one and a lone space is to speak it unchanged, and the bytes behind it stay, exactly under those conditions; always with the repaired form, and with the form in the code if no read ends inside a line behind a complete one, so if every read brings one byte. |
| ModuleProcessExample.Garbled | src/modules/module_readline.c:173-175 | The text aaaa, two newlines, c, read in five pieces by the form in the code: what is gathered has what the memory holds behind the buffer in it, and its last two lines twice. |
| ModuleProcessExample.SpeakGarbled | src/modules/module_process.c:181-264 | So a wrong text is spoken for it from start to end, whatever the memory holds. |
| ModuleProcessExample.SpeakInSpite | src/modules/module_process.c:181-264 | The text aaaa, newline, bc in reads of two bytes, with the form in the code: a call returns an empty line too many, and the text is spoken unchanged. |
| AudioFrames.Escape | src/modules/module_process.c:98-122 | The memchr loop computes the byte-wise escape map. |
| AudioFrames.EscapedIsOneLine | src/modules/module_process.c:94-122 | Escaped bytes hold no newline and are at most twice as many. |
| AudioFrames.UnescapedEscaped | src/server/output.c:1278-1317 | Unescaping what was escaped recovers the bytes. |
| AudioFrames.EveryEncoding | src/server/output.c:1278-1317 | Any bytes are an encoding of some bytes, each written as it is or as an escape and the byte with bit 5 inverted, and decoded to those, or one with an escape at its end, and refused. |
| AudioFrames.EscapesNoMore | src/modules/module_process.c:94-122 | A module escapes newlines and escape bytes and nothing else. |
| AudioFrames.UnescapeRun | src/server/output.c:1298-1314 | The inner loop decodes a run of escaped bytes within the announced size, or finds it bogus. |
| AudioFrames.Unescape | src/server/output.c:1268-1328 | The decoder accepts exactly the bytes that unescape to the announced size, and yields them; it never writes beyond that size. |
| AudioFrames.FrameIsGood | src/modules/module_process.c:76-128 | Every chunk of whole samples becomes one line that the server accepts and decodes to the chunk. |
| AudioFrames.OutputServer | src/modules/module_process.c:133-157 | The decoded payloads put together are the track, or after a stop whole samples of a prefix of it; each chunk has at most 10000 bytes and no chunk follows a stop; the loop ends for every sample size from 1 to 10000 bytes. |
| AudioFrames.LoopEnds | src/modules/module_process.c:133-151 | Left alone the loop comes to its end exactly if there are no samples or a sample has at most 10000 bytes; otherwise no turn sends anything. |
| MessagePart.GetMessagePart | src/modules/module_utils.c:260-335 | The part runs from the position, which moves by its length, to where a part ends, and is -1 exactly at the end of the message; no look-ahead passes the terminator. |
| MessagePart.PartEndIsPart | src/modules/module_utils.c:282-335 | A part ends with the message, with its room, before a UTF-8 lead byte that announces more bytes than it has room for, or behind the first divider before a blank, LF or CR, between two LF, or inside CR LF CR LF, provided the message has more than 3 (or 5) bytes beyond the number of those before it in the part. |
| MessagePart.PartIsUnique | src/modules/module_utils.c:282-335 | Only one part begins at a place of the message. |
| MessagePart.EmptyPart | src/modules/module_utils.c:282-297 | A part is empty, and the position stays, exactly if it would begin with a character that needs maxlen more bytes. |
| MessagePart.CharIsWhole | src/modules/module_utils.c:282-331 | A character that fits into a part is let in as a whole or not at all, whatever the dividers. |
| MessagePart.PartEndsBetweenChars | src/modules/module_utils.c:282-335 | A part of whole characters leaves whole characters. |
| MessagePart.PartsAreTheMessage | src/modules/module_utils.c:260-335 | The parts of a message of whole characters put together are the message, and each is non-empty, at most maxlen bytes and of whole characters: exactly if every character fits into a part, and always from maxlen 6 on. |
| MessagePart.AnyMessage | src/modules/module_utils.c:260-335 | For any bytes and maxlen at least 6 the parts put together are the message, none empty, none too long. |
| MessagePart.AllParts | src/modules/flite.c:236-262 | The loop of a module that asks for parts gets exactly these, ending with -1 from maxlen 6 on. |
| FestivalCache.Cache.constructor | src/modules/festival.c:839-852 | The cache starts empty. |
| FestivalCache.Cache.Lookup | src/modules/festival.c:1048-1080 | A lookup returns the wave cached under the printed table key and the key, counting the hit whatever add_counter is; a miss changes nothing. Counter nodes and table entries stay in bijection, and the size stays the sum. |
| FestivalCache.Cache.Sort | src/modules/festival.c:917-918 | The counter list is sorted by score, best first and stable, without losing a node. |
| FestivalCache.Cache.DropLast | src/modules/festival.c:922-943 | The last counter node leaves the list, its entry the table and its bytes the size; the size never falls short of the node's. |
| FestivalCache.Cache.Clean | src/modules/festival.c:906-946 | Cleaning keeps the front part of the order by score that its loop keeps, and returns 0: both error branches are unreachable. |
| FestivalCache.Cache.Insert | src/modules/festival.c:987-1045 | An insertion keeps what is there under the key, counting a hit; a new wave is added after cleaning if it would exceed the budget. The bijection and the size sum stay. |
| FestivalCacheLaws.SortedIsOrdered | src/modules/festival.c:873-892 | The sorted list has falling scores. |
| FestivalCacheLaws.SortedIsStable | src/modules/festival.c:917-918 | Entries of the same score keep their order. |
| FestivalCacheLaws.CleanedIsBest | src/modules/festival.c:906-946 | What cleaning evicts is the end of the order by score, nothing evicted scoring above anything kept, and minimal: what is kept fits beside the new wave into two thirds of the former size, and one more would not. |
| FestivalCacheLaws.RunIsBounded | src/modules/festival.c:987-1045 | After any operations the samples cached, of two bytes each, are within the configured kilobytes unless exactly one entry is cached. |
| FestivalCacheLaws.StepKeepsBound | src/modules/festival.c:1006-1042 | Every operation keeps that bound. |
| FestivalCacheLaws.PrintedInjective | src/modules/festival.c:949-984 | Different types, languages, voices, rates or pitches print different table keys, even when the language holds underscores. |
| FestivalCacheLaws.TablesExactly | src/modules/festival.c:949-984 | A request has a table exactly if a language is set and it is a character, key or sound icon; two such have the same one exactly if type and language are the same, and voice, rate and pitch where they are distinguished. |
| FestivalCacheLaws.StepWave | src/modules/festival.c:987-1080 | An operation changes what is found under a key only by inserting where nothing was, and by cleaning before that. |
| FestivalCacheLaws.AgreesWithMemory | src/modules/festival.c:987-1080 | For operations given by message type, settings and key: a lookup gives what a plain memory of requests has, the first wave inserted under such a request until an insertion without room evicts it. |
| FestivalCacheLaws.HitIsFirstInsertion | src/modules/festival.c:987-1080 | A hit is the wave of the insertion, under a request of the same type, language and key, and voice, rate and pitch where they are distinguished, that found nothing there, with no eviction there since. |
| FestivalCacheLaws.CounterIsUses | src/modules/festival.c:987-1080 | The counter of a cached wave is the number of operations that asked for it, its insertion included, and its start the time of its insertion. |
| FestivalCacheLaws.EvictsLeastUsed | src/modules/festival.c:873-946 | What cleaning evicts was used at most as often in its time as anything kept. |
| Baratinoo.State.PushLang | src/modules/baratinoo.c:984-1008 | The voice of an element is that of its language, if one is found, else the current one; the change is printed and the voice pushed while there is room. |
| Baratinoo.State.PopLang | src/modules/baratinoo.c:1011-1023 | The voice of the enclosing element is printed again if it differs. |
| Baratinoo.State.StartElement | src/modules/baratinoo.c:1040-1084 | An element prints its voice change, then its mark, emphasis or say-as command. |
| Baratinoo.State.EndElement | src/modules/baratinoo.c:1087-1100 | An element's end closes its command, then restores the voice. |
| Baratinoo.State.TextChar | src/modules/baratinoo.c:1163-1210 | A character is printed, wrapped, dropped or repeated according to the punctuation mode and the lists. |
| Baratinoo.State.TextNode | src/modules/baratinoo.c:1156-1212 | The loop prints a text character by character. |
| Baratinoo.State.Parse | src/modules/baratinoo.c:1223-1254 | The callbacks for a whole tree print its translation and leave the stack it says. |
| BaratinooLaws.TextIsRead | src/modules/baratinoo.c:1156-1212 | Read back, a text says its characters, wrappers and repetitions, and no character of it begins a command. |
| BaratinooLaws.CharIsRead | src/modules/baratinoo.c:1163-1210 | Read back, a character is said, left out or said by name as each punctuation mode asks: none spoken, a listed one for some and most, any punctuation for all; and once more for the intonation if it influences it and neither a letter, a digit nor a punctuation follows. |
| BaratinooLaws.StartIsRead | src/modules/baratinoo.c:1053-1080 | Read back, the start of an element is its command with its argument, if the argument printed holds no closing brace. |
| BaratinooLaws.NodeIsRead | src/modules/baratinoo.c:984-1212 | Read back at any place of a document a node means what it should, and all but the outermost element restore the voice. |
| BaratinooLaws.StartIsMisread | src/modules/baratinoo.c:1053-1080 | Exactly there it goes wrong: with a closing brace in the printed argument, whatever follows, the start is read as something else. |
| BaratinooLaws.NodeIsMisread | src/modules/baratinoo.c:984-1212 | Nor is any node that holds such an element read as what it means, whatever follows it. |
| BaratinooLaws.SpokenUnderNearestLanguage | src/modules/baratinoo.c:984-1212 | For every tree of at most 32 levels, reading the output speaks each text under the voice of its nearest xml:lang for which there is one, else the engine's, exactly if no printed attribute value (name of mark, level of emphasis, the three of say-as) holds a closing brace. |
| BaratinooLaws.TextSaysItself | src/modules/baratinoo.c:1161-1190 | With no punctuation spoken and none dropped a text is said character for character. |
| BaratinooLaws.SayAsIsTold | src/modules/baratinoo.c:1056-1076 | The three attributes of say-as reach the engine in their order; without a format the detail is dropped, without the first everything. |
| BaratinooLaws.TextUnderLanguages | src/modules/baratinoo.c:984-1008 | A text inside nested languages means what it says under the voice of the innermost one for which there is a voice, else the surrounding voice. |
| BaratinooDepth.DeepDocumentIsReadWrong | src/modules/baratinoo.c:1003-1023 | Of every depth beyond 32 there is a document whose output is not read as what it means: an element deep in it is not pushed, and its voice stays for the text behind it. |
| BaratinooDepth.DepthBoundIsTight | src/modules/baratinoo.c:984-1023 | Where a second voice can be asked for, all documents of a depth are read as what they mean exactly if the depth is at most 32. |
| BaratinooVoices.FindVoice | src/modules/baratinoo.c:776-823 | The choice is -1 exactly without voices and else what the loop chooses; unless the voices are of three kinds, untold age, told adult and told child, and no child's voice is asked for, it is one of the best, the second or third of them where asked for and there are so many. |
| BaratinooVoices.ScoresExist | src/modules/baratinoo.c:711-773 | The comparison of voices is the difference of scores exactly if a child's voice is asked for or the voices are not of all three kinds: untold age, told adult, told child. |
| BaratinooVoices.ChosenIsBest | src/modules/baratinoo.c:776-823 | Then the loop chooses one of the best, with as many of the best before it as asked for, if there are so many. |
| BaratinooVoices.GenderIsHeeded | src/modules/baratinoo.c:711-823 | Of voices alike in level and age one of the gender asked for is chosen if there is one. |
| BaratinooVoices.LevelIsHeeded | src/modules/baratinoo.c:711-823 | Of voices alike in gender and age one with the best language match is chosen. |
| BaratinooVoices.AgeIsHeeded | src/modules/baratinoo.c:752-823 | Of voices alike in level and gender one of at most 15 years is chosen for a child if there is one, and, with all ages told, an older one for an adult. |
| BaratinooVoices.NumberIsHeeded | src/modules/baratinoo.c:786-823 | Of voices alike in everything the first, second or third is chosen as asked for, or the last if there are not so many. |
| BaratinooVoices.FirstTwoAreBest | src/modules/baratinoo.c:776-823 | For an adult's first or second voice the loop never passes over a better one, whatever ages are told. |
| BaratinooVoices.ChosenWellExactly | src/modules/baratinoo.c:711-823 | Among voices of given kinds of age the loop never chooses one while there is a better one exactly if a child's voice is asked for, or an adult's first or second one, or the kinds are not all three. |
| BaratinooVoices.WorseChoice | src/modules/baratinoo.c:776-823 | Otherwise it does: asked for the third male voice of an adult, an untold and a child, alike otherwise, it takes the child. |
| IbmTts.NextPart | src/modules/ibmtts.c:630-661 | A part is a prefix of the message and never empty unless the message is, even through the recursion for ill-formed marks. |
| IbmTts.PartIsFront | src/modules/ibmtts.c:637-658 | A mark part is never empty. |
| IbmTts.Synthesizer.ProcessTextMark | src/modules/ibmtts.c:663-713 | A mark gets the next number and its name goes into the table; a text goes to the engine; nothing left ends the synthesis. |
| IbmTts.Synthesizer.Take | src/modules/ibmtts.c:807-828 | The speak tags at the ends are dropped, and the position moves past the part. |
| IbmTts.Synthesizer.Synth | src/modules/ibmtts.c:787-841 | The loop ends, and sends the calls for the message in order, all of them if nobody stops it and the engine accepts everything; the table names exactly the marks sent. |
| IbmTts.NumberedNames | src/modules/ibmtts.c:666-680 | Number i names the i-th mark. |
| IbmTtsLaws.MarkIsTaken | src/modules/ibmtts.c:609-658 | A printed mark is one part with its name, even if the name ends in a quote. |
| IbmTtsLaws.SingleQuotedIsTaken | src/modules/ibmtts.c:609-658 | A mark in single quotes is taken too, if nothing in double quotes stands behind it. |
| IbmTtsLaws.ItemsAreCalled | src/modules/ibmtts.c:787-841 | For a printed list of texts free of both mark heads and of marks with non-empty names free of the tail, the calls are those texts and the marks in order, each under the next number. |
| IbmTtsLaws.MessageIsCalled | src/modules/ibmtts.c:787-841 | The same for the message with or without its speak tags. |
| IbmTtsLaws.MarkOrText | src/modules/ibmtts.c:632-660 | A part is a mark exactly if the message begins with a head behind which a name is found; behind an ill-formed mark none is taken. |
| IbmTtsLaws.NoMarkWithoutTail | src/modules/ibmtts.c:637-653 | A message without any tail of a mark yields text only. |
| KittenWorker.SplitUtf8 | src/modules/kitten_worker.c:289-320 | The pointer walk cuts a text into pieces of the given number of characters. |
| KittenWorker.PiecesOfText | src/modules/kitten_worker.c:289-320 | The pieces put together are the text, none is empty or too long, and all but the last are full. |
| KittenWorker.StepKeeps | src/modules/kitten_worker.c:322-456 | Every step of submitters, stoppers, the generating and the playing thread keeps the invariant over both queues, the stop flag and the reports. |
| KittenWorker.RunKeeps | src/modules/kitten_worker.c:322-456 | The invariant holds in every state of every interleaving. |
| KittenWorker.ReportsArePrefix | src/modules/kitten_worker.c:322-456 | No payload is lost, doubled or reordered between the threads: the reports are those of a prefix of what the generating thread should push. |
| KittenReports.HeardInOrder | src/modules/kitten_worker.c:322-440 | The reports are a front part of, in submission order, BEGIN, one audio for each piece of at most 399 characters of the first segments of a task, END, for every task that is over, then BEGIN and pieces of the current one; all of it for those over, when nothing is queued or in hand. |
| KittenReports.SubmittedIsSubmissions | src/modules/kitten_worker.c:441-456 | The tasks over, the current one and those queued are the ones submitted, in order. |
| KittenReports.WordsOfTask | src/modules/kitten_worker.c:337-431 | The words of the audio reported for a task that is over are the text of its first segments, of all of them if no stop came. |
| KittenReports.StopEndsSoon | src/modules/kitten_worker.c:372-383 | After a stop that comes in a task no segment is generated that was not begun or about to begin. |
| KittenWorker.TextOfTranscript | src/modules/kitten_worker.c:337-383 | The audio of a task that is over is the text of its first segments, of all of them if no stop came. |
| KittenWorker.MarksAreNeverReported | src/modules/kitten_worker.c:345-359 | No index mark is ever reported: the test for the last chunk never holds. |
| KittenWorker.OnlyLaterStopsCount | src/modules/kitten_worker.c:322-400 | Over every run: a task is bounded exactly by stops that come after its start; if there is none, whatever stops came while it was queued, all its segments are said. |

## Left out

- PipewireRing: the product of requested frames and stride is unbounded, without the wrap of 64 bits; `pipewire_stop`, which re-initialises the ring, the branch for old pipewire versions and the timed wait for the drain are not modelled.
- SpeakQueueSafety: sample counts are unbounded, without the overflow of the 32-bit size counter; `module_speak_queue_free`, the branch without an audio device, device format changes and the return values of the device calls are not modelled.
- SpeakQueueSafety.EveryLogIsGood: exactly one terminal event is not claimed, because END can be followed by STOP; EndBeforeVerdict says when.
- IndexMarkingLaws: texts are sequences of characters; the UTF-8 encoding is not modelled, all comparisons are with ASCII characters.
- IndexMarkingLaws.RespokenRest: leaves out that `src/server/speaking.c` normalises the text to composed characters and runs `insert_symbols` on it before index marks are inserted again; does not model that `escape_dot` may have replaced the message text before it is resumed.
- IvonaCache.Cache.Store: sample counts are positive, as its caller's are; use counts do not overflow.
- FestivalCache.Cache.Clean: scores are exact quotients, not floats, and the clock is later than every start when the list is sorted; a NULL node in the counter list is excluded by the types.
- FestivalCache.Cache.Insert: requires a table key where the code would look up a NULL one, that is a language and a character, key or icon message; the `g_strdup` copies are not modelled.
- ModuleReadline.Reader.ReadLine: ends without a line when the script of system calls is used up, where the code waits for ever; what the memory holds behind the pending bytes, which a wrong line can run into, is a parameter of each read.
- ModuleProcessLaws.SendAndSpeak: says nothing of keys, characters and icons of several lines, which are refused when they are collected; its descriptor delivers bytes as long as there are any.
- ModuleProcess.CmdSpeak: the replies on the pipe, the stop flag it clears and the doubling of the allocation beyond size_t are not modelled.
- AudioFrames.OutputServer: sizes are unbounded, and a sample is a whole number of bytes; the header lines of an audio event, their parsing and `module_process` between two chunks, which becomes the stop flag it may set, are not modelled.
- MessagePart.GetMessagePart: message lengths stay within int.
- BaratinooLaws.SpokenUnderNearestLanguage: the parser of GLib is the order of its callbacks for a tree; character classes and the voice found for a language are parameters; the commands for rate, pitch and volume around the text are not modelled.
- BaratinooVoices.FindVoice: the level of a language match is a number of the voice; `lang_match_level` with its case-insensitive comparisons is not part of this model.
- IbmTts.Synthesizer.Synth: message types other than SSML text, dictionaries and the engine's callback are not modelled.
- KittenWorker.ReportsArePrefix: the XML parser gives the segments of a task; the 90-second throttle is a wait of any length; the samples of a piece and the stop flag inside `module_tts_output_server` are not modelled.
- KittenWorker.SplitUtf8: on characters; that `g_utf8_offset_to_pointer` walks past the end of a short text is not modelled.
- Liveness: no theorem says that a thread gets on; the fairness of condition variables, polling and timing are not modelled.
- Memory freeing, logging, options, module loading, configuration callbacks, device, socket and engine calls.
- Enum and string conversions, rate, pitch and volume mappings, history cursor and byte swap: they would only add easy members.
