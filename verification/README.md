# Verified models of six XAPI components

A Dafny project that models six pieces of XAPI and proves what they are for. Each is modelled in its
own form: what the source changes in place is changed in place here, in arrays and classes, and is
proved against a specification whose consequences are then proved as lemmas; the two protocols are
state machines over the steps of their threads.

- **File-descriptor redirection** (`FdTable`, `Relocation`, `Counting`, `RedirectPlan`, `Redirect`,
  `VforkHelper`, `ErrorPipe`, `Leftovers`, `RedirectTheorems`). `redirect_mappings` compiles a list of
  mappings, several of which may share a descriptor, into a straight-line program; the helper runs it.
  The program is proved right in every process for every list of 3 to 1020 mappings, its length is
  exact, and it strands no descriptor on the way.
- **Streaming qcow2 writer** (`Qcow2*`). Allocation, the sizing fixpoint, the layout and the one-pass
  emission are modelled; a reader written from QEMU's document on the format alone (sections "Header",
  "Host cluster management", "Cluster mapping") is proved to get the input back from the bytes.
- **Waiting with a timeout** (`WaitTimeout`) and **delays** (`Delay`): every interleaving, with
  spurious wakeups, timeouts, errors and pid reuse.
- **NBD block status** (`NbdProtocol`, `NbdClient`, `NbdExtents`): reassembly of a fragmented stream,
  framing of requests and structured chunks ("Request message" and "Structured reply chunk message" in
  the NBD protocol document), and stitching of extents, end to end: a server that sees nothing but the
  bytes sent answers the requests it decodes from them, and the extents returned are right.
- **The parser for XenAPI types** (`TypeParser`, `TypeSyntax`): exactly the inputs whose words
  spell a type are parsed to it, however they are spaced and their arrows written.
- **The syslog quoter** (`Syslog`): a bounded buffer, a quoting that can be read back and leaves
  nothing unprintable, and truncation.

`Wrappers`, `Bytes`, `Packing` and `Collections` hold an option type, big-endian integers, packed
structures, and facts about sequences and sets. `dafny verify dfyconfig.toml`
checks the whole project.

## Where the code and its comments differ

The models follow the code. Where a promised property does not hold of it, a lemma gives an input on
which it fails, and another says exactly when it holds.

- The comment on `FD_OP_DUP` (`ocaml/forkexecd/helper/redirect_algo.h:41`) says that a DUP onto the
  same descriptor removes close-on-exec, and the fuzzer does that; the helper does nothing
  (`ocaml/forkexecd/helper/vfork_helper.c:225-229`). `Run` takes `clears` to choose between the two.
  `FuzzerPostconditions` is about the first. For the second, `HelperCloexec` says exactly when no flag
  is left; it follows that none is in a helper that was started by an exec, through which no flagged
  descriptor comes (`HelperUnflagged`; `ocaml/forkexecd/lib/fe_stubs.c:155` and
  `ocaml/forkexecd/lib/forkhelpers.ml:382-398`, which clears the flags beforehand).
  `SkippingKeepsFlag` shows why the fuzzer, which flags every descriptor, has to clear them.
- The helper closes its error descriptor before the exec. Which mapping that costs its file is
  decided by the mappings before the call: the first that came in on the error descriptor, or the
  second if they all are beyond n (`Heir`, `HeirLosesFile`). So no mapping but the error pipe's own
  loses a file if and only if that is the heir (`PipeClosed`); it always is if nothing shares the
  descriptor (`PipeClosedAlone`), and need not be if something does (`PipeClosedShared`,
  `PipeClosedFirst`).
- `Interval` says that a queried cluster is removed; a cluster strictly inside its range stays
  (`python3/libexec/qcow2-to-stdout.py:134-138`). When two lists are compared, such a cluster is
  counted twice if its data changed and the one before it is not in the input's list. Then the
  refcounts reach beyond the end of the file, by as many clusters as were counted twice
  (`MarkDifferences`, `CountedOnceIff`, `CountsComeBack`; `RefcountsPassEnd` has a job that does it);
  the data is right anyway, and in whatever order the list is (`InputComesBackOver`).
- The client's error constants, `1 << 15 + 1` and `1 << 15 + 2`, are not those of the protocol
  (`ocaml/vhd-tool/scripts/python_nbd_client.py:77-78`), so the offset of an error chunk is never
  decoded (`ErrorOffsetUnreached`); how many bytes are consumed is right.
- `parseSingleType` accepts the bare word `enum` and names the enumeration after the end marker
  (`BareEnumParses`); `ParseIff` says that this is the only such input.

## Model

| member | source | states |
|---|---|---|
| `FdTable.LowestClosed` | ocaml/forkexecd/helper/algo_fuzzer.c:57-70 | `open` returns a closed descriptor, and every lower one is open |
| `FdTable.RunPrefix` | ocaml/forkexecd/helper/vfork_helper.c:220-265 | a program that succeeds passes through the state that each of its prefixes leaves; one that fails stays where its prefix failed |
| `Relocation.SoundRelocate` | ocaml/forkexecd/helper/redirect_algo.h:105-109 | one DUP, or one MOVE that strands nobody, onto an unused descriptor keeps every mapping on its original file and the error descriptor on its pipe, for every process |
| `Relocation.RelocateSimulates` | ocaml/forkexecd/helper/redirect_algo.h:122-135 | the step above in one process: files kept, nothing else opened, close-on-exec cleared on what was written |
| `Relocation.RelocateFollows` | ocaml/forkexecd/helper/vfork_helper.c:231-247 | the helper's tracking of its error descriptor stays right across a relocation, at every prefix of the program |
| `Relocation.SoundClear` | ocaml/forkexecd/helper/redirect_algo.h:139-147 | the DUP of a descriptor onto itself harms nothing, whether it clears the flag or does nothing |
| `Counting.RemapCounts` | ocaml/forkexecd/helper/redirect_algo.h:198-210 | how a remapping changes the count of every descriptor |
| `Counting.CountedOnce` | ocaml/forkexecd/helper/redirect_algo.h:159-160 | a count of 1 means that no other mapping is on the descriptor |
| `Counting.TakesAll` | ocaml/forkexecd/helper/redirect_algo.h:150-180 | distinct descriptors, as many as there are places, take every place |
| `Counting.RoomLeft` | ocaml/forkexecd/helper/redirect_algo.h:161-163 | fewer mappings than places leave a place free |
| `RedirectPlan.SlotLeft` | ocaml/forkexecd/helper/redirect_algo.h:159-163 | whenever the last loop needs a slot, the first free one from 3 on is below n |
| `RedirectPlan.RoomAway` | ocaml/forkexecd/helper/redirect_algo.h:101-104 | whenever the first loop needs a slot, the first free one is inside the counter array |
| `RedirectPlan.ShiftKeepsFull` | ocaml/forkexecd/helper/redirect_algo.h:154-180 | the last loop frees no slot below n, so that its cursor on the next free slot need never go back |
| `RedirectPlan.MoveAwayKeeps` | ocaml/forkexecd/helper/redirect_algo.h:97-110 | after the first loop nobody is on 0, 1 or 2, with one operation for each of them that was named, and every mapping still on its file |
| `RedirectPlan.PlaceStandardKeeps` | ocaml/forkexecd/helper/redirect_algo.h:116-136 | after the second loop the given standard mappings are where they want to be, on descriptors written to by the program, and their guests share them |
| `RedirectPlan.RemoveCloexecKeeps` | ocaml/forkexecd/helper/redirect_algo.h:139-147 | after the third loop every used descriptor in [3, n) has had its flag addressed; no mapping moved |
| `RedirectPlan.FillRangeKeeps` | ocaml/forkexecd/helper/redirect_algo.h:154-180 | after the fourth loop the other mappings have descriptors of their own in [3, n) |
| `RedirectPlan.FillMissingKeeps` | ocaml/forkexecd/helper/redirect_algo.h:186-193 | the fifth loop opens exactly the missing standard descriptors, each on its own number, with an exact count |
| `RedirectPlan.PackedSettles` | ocaml/forkexecd/helper/redirect_algo.h:150-180 | after the fourth loop the mappings are settled and the operations so far are exactly counted |
| `RedirectPlan.CloseRest` | ocaml/forkexecd/helper/redirect_algo.h:183-184 | closing everything from n on leaves exactly the settled mappings open |
| `RedirectPlan.RedirectCorrect` | ocaml/forkexecd/helper/redirect_algo.h:86-196 | for every list of mappings the whole plan settles them, has n + 1 + k operations, and runs right in every process |
| `Redirect.RemapFds` | ocaml/forkexecd/helper/redirect_algo.h:198-210 | remaps in place as the specification does and returns how many were on the old descriptor |
| `Redirect.CountUsed` | ocaml/forkexecd/helper/redirect_algo.h:86-91 | the counter array holds the number of mappings at each descriptor |
| `Redirect.ScanFree` | ocaml/forkexecd/helper/redirect_algo.h:101-104 | the scan stops inside its range, at the first free descriptor, also when it resumes where it last stopped |
| `Redirect.MoveAllAway` | ocaml/forkexecd/helper/redirect_algo.h:94-110 | the first loop computes its specification and keeps the counters exact |
| `Redirect.ShiftTo` | ocaml/forkexecd/helper/redirect_algo.h:119-135 | the step of both later loops: a group from above n moves whole, one mapping below n moves alone, by a MOVE exactly if it was the last; counters stay exact |
| `Redirect.PlaceAll` | ocaml/forkexecd/helper/redirect_algo.h:113-136 | the second loop computes its specification and keeps the counters exact |
| `Redirect.ClearAll` | ocaml/forkexecd/helper/redirect_algo.h:139-147 | the third loop emits its specification |
| `Redirect.FillAll` | ocaml/forkexecd/helper/redirect_algo.h:150-180 | the fourth loop, with its monotone free cursor, computes the specification that rescans from 3 each time |
| `Redirect.FillStandardFds` | ocaml/forkexecd/helper/redirect_algo.h:186-193 | the fifth loop emits its specification |
| `Redirect.PlanFits` | ocaml/forkexecd/helper/redirect_algo.h:51-52 | no phase can overrun the buffer of operations |
| `Redirect.RedirectMappings` | ocaml/forkexecd/helper/redirect_algo.h:61-196 | the in-place algorithm equals the plan, and so the promises about the plan hold of its mappings and operations |
| `RedirectTheorems.OperationCount` | ocaml/forkexecd/helper/redirect_algo.h:51-52 | exactly n + 1 + k operations, k counting which of 0-2 were named, never more than MAX_OPERATIONS |
| `RedirectTheorems.RangeOperationCount` | ocaml/forkexecd/helper/redirect_algo.h:139-180 | clearing flags and filling the range take exactly n - 3 operations together |
| `RedirectTheorems.FinalMappings` | ocaml/forkexecd/helper/redirect_algo.h:113-180 | final descriptors are pairwise distinct and below n; standard mappings are on their wanted ones; missing ones stay missing |
| `RedirectTheorems.FuzzerPostconditions` | ocaml/forkexecd/helper/algo_fuzzer.c:207-242 | the fuzzer's checks, for every process: open descriptors are exactly 0..n-1, none has close-on-exec, every mapping is on its original file, missing standard ones are the null device |
| `Leftovers.NothingStranded` | ocaml/forkexecd/helper/redirect_algo.h:113-180 | a descriptor from 3 on is closed as soon as its last mapping has gone elsewhere: none is left open by the moves, neither after the standard mappings nor before the rest is closed |
| `RedirectTheorems.HelperCloexec` | ocaml/forkexecd/helper/vfork_helper.c:224-229 | under the helper's own semantics the open descriptors are the same, and no flag is left if and only if no non-standard mapping came in on a flagged descriptor in [3, n) |
| `RedirectTheorems.HelperUnflagged` | ocaml/forkexecd/helper/vfork_helper.c:224-229 | so in a helper started by an exec, through which no flagged descriptor comes, none is flagged after the whole program |
| `RedirectTheorems.SkippingKeepsFlag` | ocaml/forkexecd/helper/algo_fuzzer.c:182-186 | in the fuzzer's table, where every descriptor is flagged, skipping a DUP onto itself would leave a flag, which is why the fuzzer clears it there |
| `RedirectTheorems.ErrorPipeFollowed` | ocaml/forkexecd/helper/vfork_helper.c:231-247 | at every prefix of the program the error descriptor is open on the original error pipe; if it is unshared it ends where its mapping ends |
| `ErrorPipe.RunFollows` | ocaml/forkexecd/helper/vfork_helper.c:231-247 | where the error descriptor goes is decided by the operations alone |
| `ErrorPipe.TrackShift` | ocaml/forkexecd/helper/redirect_algo.h:119-135 | a move takes the error descriptor along with a whole group beyond n, or else with the mapping that is moved alone, and then for good |
| `ErrorPipe.HeirKeeps` | ocaml/forkexecd/helper/redirect_algo.h:86-196 | the whole program takes the error descriptor to its heir: the first mapping that came in on it, or the second if they all were beyond n, where a group moves together first |
| `ErrorPipe.NearMeans` | ocaml/forkexecd/helper/redirect_algo.h:97-100 | for an error descriptor from 3 on, being beyond n is a matter of its number |
| `RedirectTheorems.ErrorPipeEnds` | ocaml/forkexecd/helper/vfork_helper.c:231-247 | so in every process the error descriptor ends on the final descriptor of its heir, however it is shared |
| `RedirectTheorems.HeirLosesFile` | ocaml/forkexecd/helper/vfork_helper.c:290-291 | closing the error descriptor before the exec costs its heir its file, and no other mapping |
| `RedirectTheorems.PipeClosed` | ocaml/forkexecd/helper/vfork_helper.c:290-291 | it costs no mapping but the error pipe's own a file if and only if that is the heir, which is decided by the mappings before the call |
| `RedirectTheorems.PipeClosedAlone` | ocaml/forkexecd/helper/vfork_helper.c:290-291 | so an error descriptor of its own is always safe to close |
| `RedirectTheorems.PipeClosedShared` | ocaml/forkexecd/helper/vfork_helper.c:290-291 | a shared one need not be: with stdout and the error pipe both on 3, stdout is closed |
| `RedirectTheorems.PipeClosedFirst` | ocaml/forkexecd/helper/vfork_helper.c:290-291 | but it can be: with the error pipe the first of two mappings on 3, the other keeps its file |
| `RedirectTheorems.ArgumentNamesFile` | ocaml/forkexecd/helper/vfork_helper.c:188-189 | an argument that ended in a mapping's uuid ends in the number of the descriptor that has its original file |
| `VforkHelper.Kernel.constructor` | ocaml/forkexecd/helper/vfork_helper.c:220-220 | starts from the given process |
| `VforkHelper.Kernel.Close` | ocaml/forkexecd/helper/algo_fuzzer.c:72-85 | removes one descriptor and nothing else |
| `VforkHelper.Kernel.OpenDevNull` | ocaml/forkexecd/helper/vfork_helper.c:249-257 | the null device on the lowest closed descriptor, without a flag |
| `VforkHelper.Kernel.DupTo` | ocaml/forkexecd/helper/vfork_helper.c:231-239 | dup2: succeeds exactly if the source is open, and then leaves its file on the target without a flag; the error descriptor follows even if it fails |
| `VforkHelper.Kernel.Step` | ocaml/forkexecd/helper/vfork_helper.c:221-264 | one operation, by kind: which descriptors are open afterwards and on what, and exactly when it fails |
| `VforkHelper.ExecMeans` | ocaml/forkexecd/helper/vfork_helper.c:221-264 | the specification of an operation is what its system calls do: a MOVE leaves its source closed, the null device needs every lower descriptor open |
| `VforkHelper.Kernel.Execute` | ocaml/forkexecd/helper/vfork_helper.c:220-265 | the executing loop equals the run of the program, and stops at the first failure |
| `VforkHelper.Decimal` | ocaml/forkexecd/helper/vfork_helper.c:314-314 | a descriptor is printed in decimal digits |
| `VforkHelper.DecimalRoundTrip` | ocaml/forkexecd/helper/vfork_helper.c:314-314 | the printed number reads back as the descriptor |
| `VforkHelper.FirstOf` | ocaml/forkexecd/helper/vfork_helper.c:310-315 | the mapping an argument refers to is the first with its uuid |
| `VforkHelper.AdjustArg` | ocaml/forkexecd/helper/vfork_helper.c:303-315 | an argument of less than 36 characters, or that ends in no mapping's uuid, stays as it is; any other keeps all but its last 36 characters and ends in the descriptor of the first such mapping |
| `VforkHelper.ReplaceUuid` | ocaml/forkexecd/helper/vfork_helper.c:306-315 | scanning all mappings without stopping rewrites at most once, because the rewritten suffix is no uuid |
| `VforkHelper.AdjustedAt` | ocaml/forkexecd/helper/vfork_helper.c:310-315 | the rewritten suffix is a decimal number and reads as the descriptor of the first mapping with that uuid |
| `VforkHelper.AdjustArgs` | ocaml/forkexecd/helper/vfork_helper.c:299-317 | so for every argument, in place |
| `WaitTimeout.StepKeepsInv` | ocaml/forkexecd/lib/fe_stubs.c:258-278 | every step of either thread keeps the invariant of the protocol |
| `WaitTimeout.RunKeepsInv` | ocaml/forkexecd/lib/fe_stubs.c:313-391 | so does every interleaving, with spurious wakeups, timeouts and errors |
| `WaitTimeout.AnswerStays` | ocaml/forkexecd/lib/fe_stubs.c:374-390 | after the waiter has returned nothing changes its answer and no kill is sent |
| `WaitTimeout.KillsBeforeAnswer` | ocaml/forkexecd/lib/fe_stubs.c:357-372 | there is at most one kill in a run, it comes before the waiter returns and while the child is not reaped |
| `WaitTimeout.AnswerMeansKill` | ocaml/forkexecd/lib/fe_stubs.c:390-390 | without an error the answer is 1 if and only if the run contains a kill |
| `WaitTimeout.AnswerMeansTimeout` | ocaml/forkexecd/lib/fe_stubs.c:268-390 | without an error the answer is 1 exactly if the killer's wait timed out in the run, and 0 if it never did |
| `WaitTimeout.AnswerMeansError` | ocaml/forkexecd/lib/fe_stubs.c:350-390 | the answer is negative exactly if creating the thread or waiting failed, and is then that error, whatever the killer did |
| `WaitTimeout.AnswerAfterExit` | ocaml/forkexecd/lib/fe_stubs.c:365-372 | an answer that is no error comes only after the child has ended |
| `WaitTimeout.TimeoutKills` | ocaml/forkexecd/lib/fe_stubs.c:268-270 | after a timeout the third step of the killer, at the latest, is the kill |
| `WaitTimeout.FailureEnds` | ocaml/forkexecd/lib/fe_stubs.c:265-274 | after a failed wait the killer ends with its third step and does not kill |
| `WaitTimeout.KillerEndsFor` | ocaml/forkexecd/lib/fe_stubs.c:263-274 | the killer never ends because of a spurious wakeup: only stopped, after its kill or after a failed wait |
| `WaitTimeout.JoinedIsAwake` | ocaml/forkexecd/lib/fe_stubs.c:374-384 | while the waiter joins, the killer is never blocked on the condition variable and always has a step |
| `WaitTimeout.JoinIsBounded` | ocaml/forkexecd/lib/fe_stubs.c:384-384 | once stopped the killer ends within five of its own steps, whatever else happens |
| `Delay.StepKeepsConservation` | ocaml/libs/xapi-stdext/lib/xapi-stdext-threads/delay_stubs.c:67-106 | every signal is taken by exactly one wait, pending, or merged with a pending one |
| `Delay.StepKeepsWakeup` | ocaml/libs/xapi-stdext/lib/xapi-stdext-threads/delay_stubs.c:67-106 | while a signal is pending a blocked wait is not the only one to look |
| `Delay.RunKeepsInv` | ocaml/libs/xapi-stdext/lib/xapi-stdext-threads/delay_stubs.c:67-106 | both hold in every interleaving of any number of signallers and waiters |
| `Delay.SuccessesBounded` | ocaml/libs/xapi-stdext/lib/xapi-stdext-threads/delay_stubs.c:95-105 | waits that returned 0, plus the pending signal, never outnumber the signals |
| `Delay.TakenByOne` | ocaml/libs/xapi-stdext/lib/xapi-stdext-threads/delay_stubs.c:95-100 | a pending signal ends only when one wait takes it, which then returns 0 while all others are as they were |
| `Delay.TakenIsKept` | ocaml/libs/xapi-stdext/lib/xapi-stdext-threads/delay_stubs.c:99-105 | a wait that has taken a signal returns 0 whatever the others do |
| `Delay.TimeoutTakesNothing` | ocaml/libs/xapi-stdext/lib/xapi-stdext-threads/delay_stubs.c:101-105 | a wait that ends with a timeout or an error has at no time of the run taken a signal, and none of its steps touched the flag |
| `Delay.TimeoutReturned` | ocaml/libs/xapi-stdext/lib/xapi-stdext-threads/delay_stubs.c:101-105 | a wait whose timed wait timed out or failed returns just that with its second step after it, whatever the others do |
| `Delay.TimeoutCaused` | ocaml/libs/xapi-stdext/lib/xapi-stdext-threads/delay_stubs.c:95-105 | no wait returns a timeout or an error that its own timed wait did not report |
| `Delay.PendingIsSeen` | ocaml/libs/xapi-stdext/lib/xapi-stdext-threads/delay_stubs.c:94-102 | while a signal is pending and a wait is blocked, a free mutex means that a woken wait can take it next |
| `Syslog.WriteQuoted` | ocaml/forkexecd/helper/syslog.c:39-51 | writes the quoting of one byte, whose meaning is that of the next two rows, and nothing before or after it |
| `Syslog.QuotedIs` | ocaml/forkexecd/helper/syslog.c:25-44 | a byte from 32 to 126 that is no backslash is left alone, and any quoting is of such bytes, at most four |
| `Syslog.EscapedIs` | ocaml/forkexecd/helper/syslog.c:37-51 | a backslash is doubled, and every other byte becomes a backslash, an x and its two upper-case hexadecimal digits |
| `Syslog.UnquoteQuote` | ocaml/forkexecd/helper/syslog.c:25-51 | unquoting gives the line back |
| `Syslog.QuotePrints` | ocaml/forkexecd/helper/syslog.c:25-51 | every byte of a quoting is from 32 to 126, and a quoting is at least as long as the line and at most four times that |
| `Syslog.Fitting` | ocaml/forkexecd/helper/syslog.c:89-95 | what is kept of a line fits, and one more byte would not |
| `Syslog.FittingIsLongest` | ocaml/forkexecd/helper/syslog.c:89-95 | no longer prefix fits |
| `Syslog.TruncatedByLength` | ocaml/forkexecd/helper/syslog.c:65-66 | messages stay inside the buffer, and truncated ones are told by their length |
| `Syslog.PlainSent` | ocaml/forkexecd/helper/syslog.c:60-101 | a line of bytes from 32 to 126 without a backslash, shorter than 63994, is sent unchanged |
| `Syslog.ShortComesBack` | ocaml/forkexecd/helper/syslog.c:60-101 | whatever is in a line of at most 15998 bytes, all of it can be read from its message |
| `Syslog.MessageReads` | ocaml/forkexecd/helper/syslog.c:60-101 | a line whose quoting is shorter than 63994 reads back whole; of any other the message has the beginning, at least 63990 bytes of quoting, then the ellipsis, and no further byte would have fitted |
| `Syslog.RenderInjective` | ocaml/forkexecd/helper/syslog.c:60-101 | equal messages come from equal lines, or from too long ones with the same fitting part |
| `Syslog.RenderStable` | ocaml/forkexecd/helper/syslog.c:86-87 | the rest of a line that overflowed does not matter |
| `Syslog.LinesComplete` | ocaml/forkexecd/helper/syslog.c:71-85 | lines are non-empty, have no newline, and together are the stream without its newlines |
| `Syslog.LinesAtNewline` | ocaml/forkexecd/helper/syslog.c:71-85 | byte 10, and nothing else, ends a line, wherever it is in the stream |
| `Syslog.SendEarly` | ocaml/forkexecd/helper/syslog.c:89-95 | sending at the overflow gives the same messages as waiting for the end of the line |
| `Syslog.SendLine` | ocaml/forkexecd/helper/syslog.c:71-74 | what the logger reads is the quoting of the line |
| `Syslog.SendCut` | ocaml/forkexecd/helper/syslog.c:90-94 | what the logger reads of a cut line is its rendering |
| `Syslog.EndLine` | ocaml/forkexecd/helper/syslog.c:71-85 | one message for a non-empty line that was not cut, none otherwise |
| `Syslog.AddByte` | ocaml/forkexecd/helper/syslog.c:86-98 | a byte leaves the messages still due unchanged, whether it is quoted, cut or dropped, and every write inside the buffer |
| `Syslog.ForwardToSyslog` | ocaml/forkexecd/helper/syslog.c:60-101 | for every byte stream exactly one message per non-empty line, its rendering, in order; every byte sent is from 32 to 126, and every line of at most 15998 bytes reads back from its message |
| `TypeParser.Lexer.constructor` | doc/assets/js/parse.js:47-50 | starts at the first token |
| `TypeParser.Lexer.Shift` | doc/assets/js/parse.js:52-57 | the last token is never passed |
| `TypeParser.Lexer.Peek` | doc/assets/js/parse.js:59-64 | looks without moving |
| `TypeParser.Lexer.Expect` | doc/assets/js/parse.js:66-75 | moves one token and tells whether it was expected |
| `TypeParser.Lexer.ParseNud` | doc/assets/js/parse.js:92-115 | the moving lexer computes the prefix parse |
| `TypeParser.Lexer.ParseMap` | doc/assets/js/parse.js:97-103 | so for the bracketed form |
| `TypeParser.Lexer.ParseType` | doc/assets/js/parse.js:125-132 | so for the loop over postfix constructors |
| `TypeParser.ParseSingleType` | doc/assets/js/parse.js:134-145 | so for a whole input, errors becoming null |
| `TypeSyntax.LexPrint` | doc/assets/js/parse.js:34-44 | lexing the written form of a type gives its tokens |
| `TypeSyntax.LexLaws` | doc/assets/js/parse.js:34-44 | laws that determine what the lexer finds in any string: spaces and brackets part the words |
| `TypeSyntax.LexSpread` | doc/assets/js/parse.js:34-44 | however many spaces are before, between and after them, the words and brackets are found |
| `TypeSyntax.ParsesTokens` | doc/assets/js/parse.js:92-132 | parsing at tokens that spell a type, its arrows in either form, is going on after them with that type in hand |
| `TypeSyntax.ParseStops` | doc/assets/js/parse.js:125-132 | before a token that does not bind, the parse gives the type and stops exactly there |
| `TypeSyntax.ParsePrint` | doc/assets/js/parse.js:134-145 | printing and parsing a well-formed type gives it back |
| `TypeSyntax.ParseComplete` | doc/assets/js/parse.js:134-145 | every input whose words spell a type, in either form of the arrow, parses to that type |
| `TypeSyntax.ParseSpread` | doc/assets/js/parse.js:134-145 | however the words of a type are spaced and its arrows written, they parse to it |
| `TypeSyntax.ParseIff` | doc/assets/js/parse.js:134-145 | an input parses to a type if and only if it has no end marker and its words, all of them, spell that type, or it is the bare word enum |
| `TypeSyntax.ParseReads` | doc/assets/js/parse.js:92-132 | conversely, what parses has consumed exactly tokens that spell its result |
| `TypeSyntax.ParseNameless` | doc/assets/js/parse.js:94-95 | the only exception, an enum without its name, is the whole rest of the input |
| `TypeSyntax.ParseSound` | doc/assets/js/parse.js:134-145 | what parses is spelled by the input, all of it, if and only if the input is not the bare word enum |
| `TypeSyntax.BareEnumParses` | doc/assets/js/parse.js:94-95 | that word does parse, to an enumeration named after the end marker |
| `NbdProtocol.ChunkConsumes` | ocaml/vhd-tool/scripts/python_nbd_client.py:594-624 | a chunk that parses has consumed 20 bytes and its announced length, in every branch |
| `NbdProtocol.ReplyConsumes` | ocaml/vhd-tool/scripts/python_nbd_client.py:626-631 | a reply is the run of chunks up to the first final one and takes exactly their bytes |
| `NbdProtocol.DescriptorsRoundTrip` | ocaml/vhd-tool/scripts/python_nbd_client.py:214-218 | decoding descriptors inverts encoding them |
| `NbdProtocol.ChunkRoundTrip` | ocaml/vhd-tool/scripts/python_nbd_client.py:550-624 | parsing a sendable chunk inverts encoding it, whatever follows in the stream |
| `NbdProtocol.ReplyRoundTrip` | ocaml/vhd-tool/scripts/python_nbd_client.py:626-631 | so for a whole reply, and the next one is left untouched |
| `NbdProtocol.ChunkSound` | ocaml/vhd-tool/scripts/python_nbd_client.py:594-624 | conversely, what parses under a number is the encoding under that number of a chunk a server may send: nothing else is accepted |
| `NbdProtocol.RequestRoundTrip` | ocaml/vhd-tool/scripts/python_nbd_client.py:516-529 | an encoded request has 28 bytes and decodes, by the byte offsets of the protocol document, to its type, number, offset and length |
| `NbdProtocol.ErrorOffsetUnreached` | ocaml/vhd-tool/scripts/python_nbd_client.py:77-78 | no 16-bit reply type equals the client's error-offset constant, so that branch is dead |
| `NbdClient.Client.constructor` | ocaml/vhd-tool/scripts/python_nbd_client.py:243-248 | starts with nothing sent and what the peer sends first |
| `NbdClient.Client.SendAll` | ocaml/vhd-tool/scripts/python_nbd_client.py:529-529 | the peer gets the message and reacts to it |
| `NbdClient.Client.SendRequestHeader` | ocaml/vhd-tool/scripts/python_nbd_client.py:516-529 | 28 more bytes are sent, which decode to the type, the next number, the offset and the length; or none, exactly if one of them does not fit its field |
| `NbdClient.Client.Recv` | ocaml/vhd-tool/scripts/python_nbd_client.py:287-287 | one receive gives between one byte and all asked for, unless the stream has ended |
| `NbdClient.Client.RecvAll` | ocaml/vhd-tool/scripts/python_nbd_client.py:282-294 | however the receives are split, exactly the next bytes, or an error if there are not as many |
| `NbdClient.Client.ParseDescriptors` | ocaml/vhd-tool/scripts/python_nbd_client.py:214-218 | the generator yields the decoded descriptors |
| `NbdClient.Client.ReadPayload` | ocaml/vhd-tool/scripts/python_nbd_client.py:611-623 | the branch by type reads what the parse of the remaining stream says |
| `NbdClient.Client.ReadError` | ocaml/vhd-tool/scripts/python_nbd_client.py:574-592 | so for the error branch with its message |
| `NbdClient.Client.ParseStructuredReplyChunk` | ocaml/vhd-tool/scripts/python_nbd_client.py:594-624 | one chunk, as the stream says, however it is fragmented |
| `NbdClient.Client.ParseStructuredReplyChunks` | ocaml/vhd-tool/scripts/python_nbd_client.py:626-631 | a whole reply, so |
| `NbdClient.Client.QueryBlockStatus` | ocaml/vhd-tool/scripts/python_nbd_client.py:688-697 | a block status request for this offset and length is what is sent, as decoded from the sent bytes, and the reply is parsed under its number |
| `NbdExtents.DescribedPart` | ocaml/vhd-tool/scripts/get_nbd_extents.py:91-97 | a descriptor that was cut to the region still tells the truth about what is left of it |
| `NbdExtents.YieldDescriptors` | ocaml/vhd-tool/scripts/get_nbd_extents.py:86-100 | the inner loop covers what it passes over, never passes the end, and goes on where the descriptors end or the region does |
| `NbdExtents.RequestLength` | ocaml/vhd-tool/scripts/get_nbd_extents.py:69-69 | all that is left, or the most whole sectors of 512 bytes that a 32-bit length can ask for |
| `NbdExtents.AnswerParsed` | ocaml/vhd-tool/scripts/python_nbd_client.py:626-631 | what a peer sends that answers the requests it decodes from the bytes it has received is parsed back, and nothing is left |
| `NbdExtents.Ask` | ocaml/vhd-tool/scripts/get_nbd_extents.py:70-90 | the last 28 bytes sent decode to a request for just this range; descriptors are yielded exactly if the reply is one block status chunk of the context, and are the reply's |
| `NbdExtents.Converse` | ocaml/vhd-tool/scripts/get_nbd_extents.py:70-90 | over a peer that answers what it decodes from the bytes sent, a step yields the truth about the range it is at, and goes on |
| `NbdExtents.GetExtents` | ocaml/vhd-tool/scripts/get_nbd_extents.py:62-100 | end to end: what is returned sums to the requested length, whatever the peer sends; if the peer answers truthfully the requests it decodes from the bytes it receives, then however replies are split, overrun and received the call succeeds, gives every byte its flags and leaves nothing unread; with any peer it ends |
| `Qcow2Math.AlignUp` | python3/libexec/qcow2-to-stdout.py:58-59 | a multiple of the divisor, not below and less than a divisor above |
| `Qcow2Sizing.SizeRefcounts` | python3/libexec/qcow2-to-stdout.py:288-303 | the loop ends, with the least block count that suffices for all clusters, itself and its tables |
| `Qcow2Bitmap.Bitmap.constructor` | python3/libexec/qcow2-to-stdout.py:181-183 | all bits clear |
| `Qcow2Bitmap.Bitmap.Set` | python3/libexec/qcow2-to-stdout.py:44-45 | sets that bit and no other |
| `Qcow2Bitmap.Bitmap.IsSet` | python3/libexec/qcow2-to-stdout.py:48-49 | reads the bit |
| `Qcow2Bitmap.OrBitSets` | python3/libexec/qcow2-to-stdout.py:44-49 | or-ing a bit in changes that bit alone |
| `Qcow2Format.QuotientsExact` | python3/libexec/qcow2-to-stdout.py:158-161 | entries per table and refcounts per block, by powers of two, are the quotients of the source for all cluster sizes and widths |
| `Qcow2Writer.PutEntry` | python3/libexec/qcow2-to-stdout.py:370-376 | a packed 8-byte entry reads back at its place, and all others are as they were |
| `Qcow2Header.HeaderRoundTrip` | python3/libexec/qcow2-to-stdout.py:341-361 | reading the packed header at the byte offsets of the format document gives its fields back, whatever follows; it has no backing file, encryption or unknown incompatible feature, for which the reader would refuse it |
| `Qcow2Header.HeaderClusterReads` | python3/libexec/qcow2-to-stdout.py:340-365 | so from the whole first cluster, which has the right size |
| `Qcow2Refcounts.RefcountBlock` | python3/libexec/qcow2-to-stdout.py:382-402 | for each of the seven widths, the decoded entries are 1 for the first n and 0 after |
| `Qcow2Refcounts.WriteRefcountTable` | python3/libexec/qcow2-to-stdout.py:367-377 | an entry for every block, 0 after, in exactly the number of clusters planned |
| `Qcow2Refcounts.WriteRefcountBlocks` | python3/libexec/qcow2-to-stdout.py:379-402 | the blocks together count the first `total` clusters |
| `Qcow2Refcounts.BlockHoldsCluster` | python3/libexec/qcow2-to-stdout.py:158-161 | a cluster holds exactly a block of entries, of every width |
| `Qcow2Writer.MapTable` | python3/libexec/qcow2-to-stdout.py:407-413 | a table cluster has, for every set bit, the offset by the bit's rank (or its own place in external data) with the copied flag, and 0 elsewhere |
| `Qcow2Writer.WriteL1` | python3/libexec/qcow2-to-stdout.py:404-413 | the L1 table, cluster by cluster |
| `Qcow2Writer.WriteL2` | python3/libexec/qcow2-to-stdout.py:415-430 | exactly the L2 tables that L1 entries point at, in order; skipping the others loses no entry |
| `Qcow2Writer.WriteData` | python3/libexec/qcow2-to-stdout.py:432-439 | the padded input cluster of every allocated guest cluster, at its rank |
| `Qcow2Image.SizedFits` | python3/libexec/qcow2-to-stdout.py:308-324 | no offset leaves its field, for every disk up to 2^53 bytes |
| `Qcow2Image.Layout` | python3/libexec/qcow2-to-stdout.py:308-324 | the offsets computed before writing are those of the sections |
| `Qcow2Image.WriteMetadata` | python3/libexec/qcow2-to-stdout.py:340-430 | header, refcounts, L1 and L2 tile the output up to the data |
| `Qcow2Image.WriteImage` | python3/libexec/qcow2-to-stdout.py:283-439 | sizes, offsets and sections agree: every section starts where it was planned to and the image has no other cluster |
| `Qcow2Reader.ClusterAt` | python3/libexec/qcow2-to-stdout.py:365-439 | cluster k of the output stands at k times the cluster size |
| `Qcow2Reader.MapEntryDecoded` | python3/libexec/qcow2-to-stdout.py:404-430 | an entry of the writer decodes, by bits 9-55 and 63, to the offset it was made from, and is neither compressed nor marked as zeros |
| `Qcow2Reader.GuestFound` | python3/libexec/qcow2-to-stdout.py:404-430 | an independent reader finds every allocated guest cluster at its place through header, L1 and L2, and no other |
| `Qcow2Reader.GuestReads` | python3/libexec/qcow2-to-stdout.py:432-439 | it reads the padded input there, and zeros elsewhere |
| `Qcow2Reader.RefcountFound` | python3/libexec/qcow2-to-stdout.py:367-402 | it finds refcount 1 for every counted cluster and 0 beyond, in all seven widths |
| `Qcow2Reader.ClustersDistinct` | python3/libexec/qcow2-to-stdout.py:415-430 | no two guest clusters share a host cluster |
| `Qcow2Allocation.Allocation.constructor` | python3/libexec/qcow2-to-stdout.py:181-185 | nothing allocated |
| `Qcow2Allocation.Allocation.Allocate` | python3/libexec/qcow2-to-stdout.py:187-196 | sets the bit, counts it, and keeps the L1 bitmap and its counter in agreement |
| `Qcow2Allocation.Allocation.CheckAllocate` | python3/libexec/qcow2-to-stdout.py:200-207 | allocates exactly if the padded cluster differs |
| `Qcow2Modes.ScanInput` | python3/libexec/qcow2-to-stdout.py:276-281 | allocates exactly the clusters that are not all zeros, each counted once |
| `Qcow2Modes.ScanDiff` | python3/libexec/qcow2-to-stdout.py:255-275 | allocates exactly the clusters that differ from the original as read, or from zeros past its end, each counted once |
| `Qcow2Modes.DiffersMeans` | python3/libexec/qcow2-to-stdout.py:200-207 | a cluster is left out if and only if it reads the same in both images and the original does not end inside it |
| `Qcow2Modes.OverlayIsInput` | python3/libexec/qcow2-to-stdout.py:255-275 | the allocated clusters over the original reproduce the padded input |
| `Qcow2Modes.MarkAll` | python3/libexec/qcow2-to-stdout.py:209-216 | raw mode marks every cluster and every table and counts no data |
| `Qcow2Modes.MarkNonzero` | python3/libexec/qcow2-to-stdout.py:247-250 | a disjoint list allocates exactly its clusters, each counted once |
| `Qcow2Modes.ListCount` | python3/libexec/qcow2-to-stdout.py:243-246 | allocating a list counts its clusters, and those allocated before a second time |
| `Qcow2Differences.DecideCluster` | python3/libexec/qcow2-to-stdout.py:232-241 | one cluster of the input's list: past the original, compared, or not in the original's list |
| `Qcow2Differences.PassList` | python3/libexec/qcow2-to-stdout.py:230-241 | which clusters the pass allocates, in whatever order the list is, and that it takes none from the original's list but in its turn; in ascending order, exactly what it leaves |
| `Qcow2Differences.MarkDifferences` | python3/libexec/qcow2-to-stdout.py:218-246 | in any order: every chosen cluster and every one that only the original has is allocated, and the counter is not behind; in ascending order: exactly which are, and that the counter is ahead by exactly the number of doubled clusters |
| `Qcow2Differences.CountedOnceIff` | python3/libexec/qcow2-to-stdout.py:243-246 | the count is right if and only if no changed cluster begins a run of the input's list strictly inside a range of the original's |
| `Qcow2Differences.ListedOverlayIsInput` | python3/libexec/qcow2-to-stdout.py:218-246 | with lists that leave out only zeros, the result over the original is the input |
| `Qcow2Interval.SortedAscends` | python3/libexec/qcow2-to-stdout.py:98-100 | sorting a disjoint list makes it ascending |
| `Qcow2Interval.SortedCovers` | python3/libexec/qcow2-to-stdout.py:98-100 | and leaves the clusters it stands for |
| `Qcow2Interval.Interval.constructor` | python3/libexec/qcow2-to-stdout.py:98-100 | so the object starts ascending, on the same clusters |
| `Qcow2Interval.Interval.Contains` | python3/libexec/qcow2-to-stdout.py:103-147 | the binary search answers exactly membership; the list stays ascending; every other cluster stays as it was; the queried one goes unless it is strictly inside its range |
| `Qcow2Interval.Interval.Remove` | python3/libexec/qcow2-to-stdout.py:120-141 | the four ways of cutting a range |
| `Qcow2Interval.QueriesKeep` | python3/libexec/qcow2-to-stdout.py:103-147 | over any sequence of queries the list stays ascending, nothing comes, and only queried clusters can go |
| `Qcow2Convert.SectorsFirst` | python3/libexec/qcow2-to-stdout.py:169-173 | rounding the size up to sectors first does not change the number of clusters |
| `Qcow2Convert.Convert` | python3/libexec/qcow2-to-stdout.py:153-439 | for every job an image with the allocation of its mode; there is one exactly if the disk is within reach of a 32 MiB L1 table, both lists are there or not needed, and the header has room |
| `Qcow2Convert.AcceptedIff` | python3/libexec/qcow2-to-stdout.py:175-223 | a job is accepted exactly if 2^22 L1 entries, 32 MiB, reach the end of the disk, both lists are there or not needed, and the header has room for its extensions |
| `Qcow2Convert.HeaderComesBack` | python3/libexec/qcow2-to-stdout.py:326-361 | the header of the file reads back as that of the plan |
| `Qcow2Convert.HeaderHolds` | python3/libexec/qcow2-to-stdout.py:326-361 | for the job alone, at the byte offsets of the format document: magic, version, cluster bits, a disk size that is the list's or the input's in whole sectors, just enough L1 entries, features 4 for external data, 2 for raw data and 0 otherwise, and the header length |
| `Qcow2Convert.ExtensionsStand` | python3/libexec/qcow2-to-stdout.py:341-365 | no snapshots and no compatible features; the extensions follow the header, and zeros them |
| `Qcow2Convert.InputComesBack` | python3/libexec/qcow2-to-stdout.py:252-281 | without an original every guest cluster reads as the zero-padded input cluster |
| `Qcow2Convert.BytesComeBack` | python3/libexec/qcow2-to-stdout.py:252-439 | byte for byte on the whole disk that the header announces: a guest reads the input, and zeros after its end |
| `Qcow2Convert.ZerosStayUnset` | python3/libexec/qcow2-to-stdout.py:276-281 | entries are unset exactly for the clusters all of whose bytes are 0 |
| `Qcow2Convert.ListedAreSet` | python3/libexec/qcow2-to-stdout.py:247-250 | with a list and no original, entries are set exactly for the clusters in one of its ranges |
| `Qcow2Convert.SameStayUnset` | python3/libexec/qcow2-to-stdout.py:255-275 | with an original and no lists, entries are unset exactly for the clusters whose bytes are the same in both, and inside which the original does not end |
| `Qcow2Convert.ComparedStayUnset` | python3/libexec/qcow2-to-stdout.py:218-246 | with two lists, the input's in ascending order, entries are unset exactly for the clusters in both that read the same and were not left in the original's list by their query, and for those in neither |
| `Qcow2Convert.InputComesBackOver` | python3/libexec/qcow2-to-stdout.py:218-275 | with an original, scanned or listed, every guest cluster over the original reads as the input |
| `Qcow2Convert.BytesComeBackOver` | python3/libexec/qcow2-to-stdout.py:218-439 | byte for byte on the whole disk: over the original a guest reads the input, and zeros after its end |
| `Qcow2Convert.ExternalInPlace` | python3/libexec/qcow2-to-stdout.py:428-429 | entries of external data point at the cluster's own place; raw images have all of them |
| `Qcow2Convert.CountsComeBack` | python3/libexec/qcow2-to-stdout.py:283-306 | refcounts are 1 exactly below the planned total, which is the number of clusters written except if and only if two lists are compared and a cluster is doubled |
| `Qcow2Convert.DoubledExample` | python3/libexec/qcow2-to-stdout.py:134-138 | such a cluster: 1, where the original has the range 0 to 2 |
| `Qcow2Convert.RefcountsPassEnd` | python3/libexec/qcow2-to-stdout.py:243-306 | a job that is accepted, and the cluster after the end of the file it makes has the refcount 1 |

## Left out

- System calls are steps on an abstract descriptor table, byte sequences, or choices of the
  environment: limits on descriptors, interrupted calls, signals, cgroups, fork and exec are not modelled.
- Option parsing, log output, JSON parsing and the command lines of all programs; the lists of
  clusters come as cluster numbers.
- The construction of the mapping array by the helper's options: it appears as the conditions that the
  first three mappings want 0, 1 and 2 and that only these may be missing.
- The 16-bit width of the counters in `redirect_mappings`, which 1020 mappings cannot overflow.
- The deadline arithmetic of `wait_process_timeout` and the set-up errors before its thread exists; a
  timeout is a step the environment may take at any time.
- The failure of `kill`, and memory-ordering effects of reading `stop` and `timed_out` outside the
  mutex: steps are atomic and sequentially consistent.
- The runtime lock that `delay_wait` and the slow way of `delay_signal` release; a try-lock that fails
  and the lock that follows are one step of acquiring.
- The NBD handshake, TLS, option negotiation, writes, flushes and simple replies. Whether an error
  message is valid UTF-8 is a parameter, `isText`.
- NbdExtents.GetExtents: its peer is any function of the bytes it has received; it sends nothing of its
  own accord later, and waiting for bytes that never come is the end of the stream.
- Position of a read error: `forward_to_syslog` is modelled up to the end of its stream, and its
  result, which tells an end of file from an error, is not modelled.
- Names of header features and of the external data file in qcow2 are a parameter, `extensions`; if
  they do not fit the first cluster the image is refused.
- Sizes beyond 2^53 bytes, from where on the source's floating-point divisions are no longer exact.
- Qcow2Modes.ScanDiff: takes an original that has no more clusters than the input, because with a
  longer one the source indexes past its bitmaps or writes entries beyond the disk.
- Qcow2Differences.MarkDifferences: says exactly which clusters are counted twice only for an input's
  list in ascending order, as disk maps are written; in other orders that depends on the order of the
  queries, and only that the count is not too low is stated.
- Qcow2Differences.PassList: like MarkDifferences, says exactly what is left of the original's list
  only for an ascending input's list.
- Qcow2Convert.ComparedStayUnset: likewise only for an ascending input's list; that the result over the
  original is right is stated for every order (`InputComesBackOver`).
- Qcow2Modes.MarkNonzero: takes a list of ranges that are not empty and do not overlap, which is what a
  map of a disk consists of.
- Qcow2Interval.Interval.constructor: takes ranges that do not overlap and are not empty, for the same
  reason; the library's sort is an insertion sort with the same result.
- Qcow2Convert.Convert: takes originals and lists under the conditions on them in the lines above.
- The reader refuses backing files, encryption, unknown incompatible features and compressed clusters,
  none of which the writer produces, and does not look at snapshots, bitmaps and header extensions.
- Clients generated for other languages, the remaining C stubs and scripts: thin wrappers whose claims
  rest on libraries outside the repository, or single loops easy next to these.
