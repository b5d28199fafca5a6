# crashdetect, modelled in Dafny

crashdetect is a plugin for a Pawn (AMX) scripting host. It watches every
script the host loads. When a script stops with a run-time error, or the
server process faults or is interrupted, the plugin writes a report to the
server log. A report holds the error or crash message, the script-level
backtrace rebuilt from a stack of call records, and the native (host)
backtrace.

This project models the core of the plugin:

- **Hooks** (`hook.dfy`): the 32-bit relative JMP patch that diverts a
  function. Install saves the five overwritten bytes and writes the jump.
  Remove writes the saved bytes back. GetTargetAddress decodes a jump.
  The memory is an `array<byte>`; the hook is a `class` whose methods update
  their fields and that memory in place. The proofs show that a patched
  jump decodes to its destination, and that Remove restores the memory
  exactly.
- **Cstdint** (`cstdint.dfy`): the 32-bit wrap-around and the
  little-endian layout the hook relies on, written out over unbounded
  integers.
- **AmxVm** (`amx.dfy`): the parts of the script machine the plugin reads
  and writes. These are the registers, the stack, the code cells, the
  natives and publics tables, and amx_Exec and the native callback as
  opaque steps.
- **NpCalls** (`npcall.dfy`): the record pushed for every native or public
  call. It stores the machine, the index, frm and cip.
- **AmxDebugInfo** (`amxdebuginfo.dfy`): the debug-information tables,
  their forward iterators, and the File/Line/Tag/Symbol/SymbolDim wrappers
  with their truth tests and predicates.
- **Text** and **Reports** (`text.dfy`, `reports.dfy`): specification
  functions for every line the plugin logs. This covers the "[debug] "
  prefix, the line-by-line printing of multi-line text, the error message
  with its detail line, the list of unresolved natives, the script and
  native backtraces, and the AMX_PATH split.
- **CrashDetectPlugin** (`crashdetect.dfy`): covers the process-wide
  statics, the log and the per-script service `CrashDetect`. The statics
  are the guard against nested reports, the call-record stack and the
  service registry. The service carries Load, Unload, DoAmxCallback,
  DoAmxExec, HandleExecError, HandleException and HandleInterrupt. The file
  also holds the signal-handler entry points OnException and OnInterrupt,
  and the backtrace printers.

Every method's `ensures` ties the new log and the new statics to the
specification functions of Reports; `AmxBacktraceTo` also states the
top machine's stack, STK and FRM afterwards. amx_Exec and the native callback change
the registers arbitrarily, so DoAmxCallback, DoAmxExec and HandleExecError
state nothing about them. The
properties of those functions are proved as lemmas. Examples: a terminated
text prints back as its lines; a backtrace's levels are consecutive; a
foreign call record cuts off the walk; the AMX_PATH search list is exactly
the non-empty entries of the variable, in order.

One place where the code is followed rather than the plain description of
the plugin's behaviour: a fault in native code is described as printing
the crash message and then the native backtrace. The code
(plugin/crashdetect.cpp:460-463) also prints the script backtrace in
between, and so does `CrashDetect.HandleException`.

## Model

| member | source | states |
|---|---|---|
| Cstdint.U32 | plugin/hook.cpp:64 | uint32_t conversion: the result is below 2^32 and congruent to the input modulo 2^32 |
| Cstdint.S32 | plugin/hook.cpp:99-101 | int32_t reading of a value: in [-2^31, 2^31) with the same low 32 bits |
| Cstdint.U32OfSum | plugin/hook.cpp:101 | 32-bit addition only depends on the operands' low 32 bits |
| Cstdint.U32OfDiff | plugin/hook.cpp:64 | 32-bit subtraction only depends on the operands' low 32 bits |
| Cstdint.LE32 | plugin/hook.cpp:65 | the four bytes a 32-bit value occupies in memory |
| Cstdint.FromLE32 | plugin/hook.cpp:100 | the value of four little-endian bytes is below 2^32 |
| Cstdint.FromLE32OfLE32 | plugin/hook.cpp:65 | reading back the stored bytes of a value gives the value |
| Cstdint.LE32OfFromLE32 | plugin/hook.cpp:100 | storing the value read from four bytes gives the same bytes |
| Hooks.JumpOffset | plugin/hook.cpp:64 | the rel32 operand is dst - (src + 5) taken modulo 2^32 |
| Hooks.JumpBytes | plugin/hook.cpp:60-65 | five bytes: opcode 0xE9, then the offset in little-endian order |
| Hooks.Patched | plugin/hook.cpp:57-65 | the five bytes at src become the jump; every other byte is unchanged |
| Hooks.Restored | plugin/hook.cpp:86 | the five bytes at src become the saved code; every other byte is unchanged |
| Hooks.GetTargetAddress | plugin/hook.cpp:96-104 | not a JMP gives 0; a JMP gives its signed 32-bit operand plus the next instruction's address, mod 2^32 |
| Hooks.TargetOfPatched | plugin/hook.cpp:59-103 | the jump Install writes decodes to dst modulo 2^32 |
| Hooks.TargetOfPatchedExact | plugin/hook.cpp:96-103 | for a 32-bit dst the written jump decodes to exactly dst |
| Hooks.RestoreUndoesPatch | plugin/hook.cpp:81-89 | writing the saved bytes back over a patch gives the original memory |
| Hooks.Hook.constructor | plugin/hook.cpp:30-34 | a new hook has src = dst = 0, is not installed and owns a fresh code buffer |
| Hooks.Hook.Attach | plugin/hook.cpp:36-42 | the hook saves the original five bytes and leaves the memory patched to dst |
| Hooks.Hook.IsInstalled | plugin/hook.cpp:91-93 | true exactly when installed; an installed hook's jump decodes to dst |
| Hooks.Hook.Install | plugin/hook.cpp:48-69 | returns false and changes nothing when already installed; otherwise saves the code and patches the memory |
| Hooks.Hook.Install2 | plugin/hook.cpp:71-79 | as Install; src and dst are replaced only when the hook was not installed |
| Hooks.Hook.Remove | plugin/hook.cpp:81-89 | returns false and changes nothing when not installed; otherwise restores the saved code |
| Hooks.Hook.Destroy | plugin/hook.cpp:44-46 | removes the hook if installed: the memory is restored and the hook is left uninstalled |
| Hooks.Copy | plugin/hook.cpp:57 | memcpy: the destination range holds the source bytes; the rest is unchanged |
| Hooks.Write | plugin/hook.cpp:61-65 | the destination range holds the given bytes; the rest is unchanged |
| Hooks.InstallThenRemove | plugin/hook.cpp:36-89 | attaching and then removing leaves the memory as it was |
| Hooks.InstallTwice | plugin/hook.cpp:48-51 | a second Install reports false and does not re-patch |
| Text.IntToString | plugin/crashdetect.cpp:121 | decimal text of an int: a leading '-' exactly when negative, followed by decimal digits whose value is the absolute value |
| Text.NatToString | plugin/crashdetect.cpp:214 | decimal text of a level: decimal digits, no leading zero, whose value is the number |
| Text.ValueOfDigits | plugin/crashdetect.cpp:131 | the digits written in any base from 2 to 16 read back to the number |
| Text.PadLeft | plugin/crashdetect.cpp:63 | setw with setfill: the string right-aligned in a field of at least the width, every position before it holding the fill character |
| Text.HexDwordIsEightDigits | plugin/crashdetect.cpp:56-70 | HexDword is eight lower-case hex digits, zero-padded, whose value is the 32-bit image of the input |
| Text.Hex08IsEightDigits | plugin/crashdetect.cpp:159 | %08X is eight upper-case hex digits, zero-padded, whose value is the 32-bit image of the input |
| Text.FindFrom | plugin/crashdetect.cpp:342 | the first index at or after `from` holding the character, or the length |
| Text.CString | plugin/crashdetect.cpp:112-113 | a char buffer read as a C string is a NUL-free prefix of the buffer, followed in the buffer by a NUL unless it is the whole buffer |
| Text.CStringStopsAtNul | plugin/crashdetect.cpp:112-113 | whatever follows a NUL does not appear in the string |
| Text.SegmentsOfTerminated | plugin/crashdetect.cpp:108-117 | splitting lines joined with newlines gives back the lines |
| Text.SegmentsAppendLine | plugin/crashdetect.cpp:108-117 | one more terminated line adds exactly one segment |
| Text.SegmentsIgnoreTail | plugin/crashdetect.cpp:108-117 | an unterminated tail adds no segment |
| Reports.DebugLines | plugin/crashdetect.cpp:95-105 | one log line per message: the "[debug] " prefix followed by the message |
| Reports.PrintedLinesOfTerminated | plugin/crashdetect.cpp:108-117 | PrintLines of newline-terminated lines logs exactly those lines |
| Reports.PrintedLinesAppendLine | plugin/crashdetect.cpp:108-117 | one more newline-terminated line adds exactly one log line |
| Reports.PrintLinesStep | plugin/crashdetect.cpp:108-117 | overwriting the newline with NUL in the buffer yields exactly the current line |
| Reports.PrintedLinesIgnoreTail | plugin/crashdetect.cpp:108-117 | text after the last newline is never printed |
| Reports.EarlyReturnsPrintNoBacktrace | plugin/crashdetect.cpp:384-452 | of the codes amx_Exec returns early with, only SLEEP would print a backtrace, and SLEEP is ignored |
| Reports.ErrorMessages | plugin/crashdetect.cpp:120-172 | the error report starts with the "Run time error" header for the code |
| Reports.UnresolvedNativesExact | plugin/crashdetect.cpp:138-147 | one line per native with address 0, and none when every native is resolved |
| Reports.UnresolvedNativesAppend | plugin/crashdetect.cpp:138-147 | the list of unresolved natives is built in table order |
| Reports.BoundsCases | plugin/crashdetect.cpp:124-137 | a detail line only when the faulting instruction is BOUNDS; it reads "negative index" or "index out of bounds" depending on pri |
| Reports.ErrorMessagesShape | plugin/crashdetect.cpp:123-171 | which codes get a detail line, and how many lines each code prints |
| Reports.ErrorMessagesDependOnScriptOnly | plugin/crashdetect.h:73 | PrintError's text depends only on the machine's state, not on which service prints it |
| Reports.RenderLineStartsWithLevel | plugin/crashdetect.cpp:214-233 | every backtrace line starts with '#', the decimal level and a space |
| Reports.BacktraceTextSnoc | plugin/crashdetect.cpp:269-276 | the backtrace text grows by one terminated line per frame |
| Reports.PrintedBacktrace | plugin/crashdetect.cpp:175-179 | printing a backtrace logs its header and then one line per frame |
| Reports.PublicFrames | plugin/crashdetect.cpp:246-259 | a public record gives at least one frame, and the last one is the public's entry |
| Reports.PublicLines | plugin/crashdetect.cpp:265-277 | frame i of a public record is printed at level + i |
| Reports.Walk | plugin/crashdetect.cpp:195-285 | the levels of the backtrace are consecutive from the start level; no native line has address 0 |
| Reports.WalkNativeStep | plugin/crashdetect.cpp:211-235 | a native record adds its one line and the walk goes on with the records below |
| Reports.WalkPublicStep | plugin/crashdetect.cpp:238-281 | a public record adds its frames, continues at the record's cip and frm, and goes on below |
| Reports.WalkPublicKeeps | plugin/crashdetect.cpp:201-284 | the loop invariant: lines printed so far plus the walk of the rest equals the whole walk, after a public record |
| Reports.WalkNativeKeeps | plugin/crashdetect.cpp:201-284 | the same invariant after a native record |
| Reports.WalkStopsAtForeign | plugin/crashdetect.cpp:205-208 | records below a record of another machine never affect the backtrace |
| Reports.WalkStartsWithLine | plugin/crashdetect.cpp:201-235 | a walk at a non-zero cip whose top record is a public call, or a native with a non-zero address, prints at least one line |
| Reports.NativeLines | plugin/crashdetect.cpp:305-319 | one line per host frame, numbered from 0 |
| Reports.NativeBacktraceText | plugin/crashdetect.cpp:295-303 | the native backtrace is empty exactly when the host stack trace is empty |
| Reports.SplitOnPartsFree | plugin/crashdetect.cpp:341-351 | no entry of a split contains the separator |
| Reports.JoinSplit | plugin/crashdetect.cpp:341-351 | joining the entries with the separator gives back the variable |
| Reports.NonEmptyKeepsExactly | plugin/crashdetect.cpp:347-349 | exactly the non-empty entries are kept |
| Reports.PathsFromIsNonEmptySplit | plugin/crashdetect.cpp:340-351 | the find loop yields exactly the non-empty entries of the split, in order |
| CrashDetectPlugin.Log.Printf | plugin/crashdetect.cpp:95-105 | appends one "[debug] "-prefixed line |
| CrashDetectPlugin.Log.PrintLines | plugin/crashdetect.cpp:108-117 | appends one line per newline-terminated line of the text |
| CrashDetectPlugin.Statics.constructor | plugin/crashdetect.cpp:50-51 | no report under way, no call records, no services |
| CrashDetectPlugin.StartText | plugin/crashdetect.cpp:183-193 | the backtrace is empty exactly when there is no record or cip is 0 |
| CrashDetectPlugin.AmxBacktraceText | plugin/crashdetect.cpp:182-193 | the script backtrace is empty exactly when there is no call record or the top machine's cip is 0 |
| CrashDetectPlugin.AmxBacktraceTo | plugin/crashdetect.cpp:182-285 | builds the backtrace text; stack and stk of the top machine are restored; frm ends as the walk leaves it |
| CrashDetectPlugin.WalkRecordsTo | plugin/crashdetect.cpp:195-284 | the loop over the records yields the text of Walk |
| CrashDetectPlugin.NativeRecordTo | plugin/crashdetect.cpp:211-235 | appends a native record's line |
| CrashDetectPlugin.PublicRecordTo | plugin/crashdetect.cpp:238-281 | appends one line per frame of a public record, at consecutive levels; STK, the stack and FRM end as they were |
| CrashDetectPlugin.PublicFramesOf | plugin/crashdetect.cpp:241-262 | CIP and FRM pushed and popped around the stack walk, which yields the frames with the entry point as outermost caller; STK and the stack return to their values and FRM to the record's frm |
| CrashDetectPlugin.FrameLinesTo | plugin/crashdetect.cpp:265-277 | appends one line per frame at consecutive levels |
| CrashDetectPlugin.PrintAmxBacktrace | plugin/crashdetect.cpp:175-179 | logs the lines of the script backtrace |
| CrashDetectPlugin.NativeBacktraceTo | plugin/crashdetect.cpp:295-320 | builds the native backtrace text |
| CrashDetectPlugin.PrintNativeBacktrace | plugin/crashdetect.cpp:288-292 | logs the lines of the native backtrace |
| CrashDetectPlugin.PrintError | plugin/crashdetect.cpp:120-172 | logs the error header, then its detail or the unresolved natives |
| CrashDetectPlugin.PrintUnresolved | plugin/crashdetect.cpp:138-147 | logs one line per native whose address is 0 |
| CrashDetectPlugin.SearchPaths | plugin/crashdetect.cpp:331-352 | "gamemodes", "filterscripts", then the non-empty entries of AMX_PATH |
| CrashDetectPlugin.CrashDetect.constructor | plugin/crashdetect.cpp:322-328 | a new service has no debug info, no path and no name |
| CrashDetectPlugin.CrashDetect.Load | plugin/crashdetect.cpp:330-365 | find the file in the search list; load its debug info if found and present; save the callback |
| CrashDetectPlugin.CrashDetect.Unload | plugin/crashdetect.cpp:367-369 | always AMX_ERR_NONE |
| CrashDetectPlugin.CrashDetect.DoAmxCallback | plugin/crashdetect.cpp:371-377 | a native record is on top during the call and removed after; the callback's code is returned |
| CrashDetectPlugin.CrashDetect.DoAmxExec | plugin/crashdetect.cpp:379-397 | a public record is on top during the run; an early-return code that is reported logs its messages; records and guard are restored |
| CrashDetectPlugin.CrashDetect.HandleExecError | plugin/crashdetect.cpp:399-458 | nothing while blocked or for ignored codes; otherwise logs the report unless OnRuntimeError suppressed it; the guard is up while OnRuntimeError runs, so an error it raises logs nothing; the guard is lowered again |
| CrashDetectPlugin.CrashDetect.ReportError | plugin/crashdetect.cpp:447-455 | error messages, then the backtrace only for codes that have one |
| CrashDetectPlugin.CrashDetect.HandleException | plugin/crashdetect.cpp:460-463 | logs the crash message with the script name, then the script backtrace |
| CrashDetectPlugin.CrashDetect.HandleInterrupt | plugin/crashdetect.cpp:465-468 | logs the interrupt message with the script name, then the script backtrace |
| CrashDetectPlugin.OnException | plugin/crashdetect.cpp:75-82 | the top record's service reports the crash, or "unknown error" with no record; the native backtrace follows |
| CrashDetectPlugin.OnInterrupt | plugin/crashdetect.cpp:85-92 | the same for an interrupt signal |
| AmxVm.NativeAddress | plugin/crashdetect.cpp:212 | an index outside the natives table gives address 0 |
| AmxVm.NativeName | plugin/crashdetect.cpp:216-221 | a name exactly for indices inside the natives table |
| AmxVm.FindPublic | plugin/crashdetect.cpp:435 | amx_FindPublic: an index naming the public, or -1 exactly when none has the name |
| AmxVm.Amx.PushStack | plugin/crashdetect.cpp:242-243 | amx_Push: one more cell, stk one cell lower |
| AmxVm.Amx.PopStack | plugin/crashdetect.cpp:261-262 | the pushed cell comes off, stk one cell higher |
| AmxVm.Amx.SetFrm | plugin/crashdetect.cpp:244 | frm takes the given value |
| AmxVm.Amx.Exec | plugin/crashdetect.cpp:383 | amx_Exec returns the run's error code |
| AmxVm.Amx.CallNative | plugin/crashdetect.cpp:374 | the host callback returns the native's error code |
| AmxVm.Amx.CodeAt | plugin/crashdetect.cpp:125-126 | the code cell at an offset |
| NpCalls.PublicCall | plugin/npcall.h:42 | a PUBLIC record of the machine's current frm and cip |
| NpCalls.NativeCall | plugin/npcall.h:43 | a NATIVE record of the machine's current frm and cip |
| NpCalls.ExactlyOneKind | plugin/npcall.h:34-52 | every record is exactly one of public and native |
| AmxDebugInfo.NoLine | src/amxdebuginfo.h:116-122 | a line built without an entry tests false and has address 0 |
| AmxDebugInfo.KindsExclusive | src/amxdebuginfo.h:154-177 | at most one kind predicate holds, and one holds exactly for a known kind |
| AmxDebugInfo.VClassesExclusive | src/amxdebuginfo.h:148-170 | at most one storage-class predicate holds, and one holds exactly for 0..2 |
| AmxDebugInfo.ArrayDimIsNumDims | src/amxdebuginfo.h:185-187 | GetArrayDim and GetNumDims read the same field |
| AmxDebugInfo.WrapperTruth | src/amxdebuginfo.h:101-207 | each wrapper tests true exactly when it holds an entry; a Line exactly when its address is non-zero |
| AmxDebugInfo.Table.Size | src/amxdebuginfo.h:86 | the number of entries |
| AmxDebugInfo.Table.At | src/amxdebuginfo.h:88-91 | the wrapped entry at the index |
| AmxDebugInfo.Table.Contents | src/amxdebuginfo.h:81-91 | the wrapped entries in order, as many as the size |
| AmxDebugInfo.EmptyTable | src/amxdebuginfo.h:33-35 | a default table is empty |
| AmxDebugInfo.Iterator.constructor | src/amxdebuginfo.h:47 | an iterator at the given position of the table |
| AmxDebugInfo.Iterator.Current | src/amxdebuginfo.h:49-50 | dereferencing gives the wrapped entry at the position |
| AmxDebugInfo.Iterator.Next | src/amxdebuginfo.h:61-65 | advances by one entry |
| AmxDebugInfo.Iterator.Equals | src/amxdebuginfo.h:73-74 | iterators are equal exactly when their positions are |
| AmxDebugInfo.Begin | src/amxdebuginfo.h:81-82 | an iterator at the first entry |
| AmxDebugInfo.End | src/amxdebuginfo.h:83-84 | an iterator one past the last entry |
| AmxDebugInfo.Traverse | src/amxdebuginfo.h:81-86 | iterating from begin to end visits the table's contents in order |
| AmxDebugInfo.RawIterator.constructor | src/amxdebuginfo.h:47 | as written, the constructor reads the entry at its position |
| AmxDebugInfo.RawIterator.Next | src/amxdebuginfo.h:61-65 | as written, advancing reads the next entry |
| AmxDebugInfo.RawEndReadsPastStorage | src/amxdebuginfo.h:47-84 | end() of any table, like the last ++, reads an entry that is not stored |
| AmxDebugInfo.RawEndOfOneLine | src/amxdebuginfo.h:47-84 | a one-line table: building end() needs an entry at index 1 |
| AmxDebugInfo.DebugInfo.GetFiles | src/amxdebuginfo.h:236-238 | the file table of the loaded debug information |
| AmxDebugInfo.DebugInfo.GetLines | src/amxdebuginfo.h:242-244 | the line table of the loaded debug information |
| AmxDebugInfo.DebugInfo.GetTags | src/amxdebuginfo.h:248-250 | the tag table of the loaded debug information |
| AmxDebugInfo.DebugInfo.GetSymbols | src/amxdebuginfo.h:254-256 | the symbol table of the loaded debug information |

## Left out

- The platform layers (os-win32.cpp, os-unix.cpp) and src/crashdetect.h are not part of this model. Signal and exception handlers arrive as calls of OnException and OnInterrupt with an opaque `context`.
- Unprotect (hook.cpp): memory protection is not modelled; the patched memory is taken to be writable.
- amx_Exec and the host's previous callback run code the model cannot see. Their effect on the registers is arbitrary, and their error code is the `outcome` parameter.
- amx_PushArray, amx_Push and amx_Release around OnRuntimeError are not modelled. What the script leaves in `suppress` is the `scriptSuppress` parameter.
- AMXStackTrace, StackTrace, the frame printers, GetModulePathFromAddr, GetFileName, FindAmx, AMXDebugInfo::Load and AMXError::GetString are oracles in `Collaborators.Env`. Their bodies lie outside the core.
- The line, file and function lookups of the debug information (`Queries`) are left uninterpreted for the same reason.
- getenv("AMX_PATH") is the `amxPathVar` parameter; None stands for unset.
- logprintf's printf-style formatting is not modelled: the log is a sequence of finished lines.
- DisableSysreqD in Load is not modelled; it changes only how the machine runs natives.
- The HexDword(void*) overload, and the stream-fill save and restore, are not modelled.
- Integer widths: cells are unbounded `int`, the 16-bit fields of the debug records are `int`, and ucell addresses are `nat`. The 32-bit wrap-around is written out only where the hook depends on it.
- npcall.cpp is not part of this model. PublicCall and NativeCall record the machine's current frm and cip, as the declarations say.
- NPCall: np_calls_ holds pointers to records on the C++ stack, while the model holds the record values.
- The AMXService registry is a map from machine to service. `Statics.Registered` requires that every call record's machine has a service.
- GetDims, GetValue and GetPOD of the symbol wrapper are not modelled, because they read memory the model does not represent.
- RelocateAmxOpcode is not modelled. The relocated BOUNDS and SYSREQ.C opcodes are the machine's constants `opBounds` and `opSysreqC`.
- The const_iterator variants of the tables are not modelled separately; they behave as the iterators do.
- The `assert(level != 0)` at plugin/crashdetect.cpp:206 is not modelled as a check. `Reports.WalkStartsWithLine` proves that the first record contributes a line when cip is non-zero and that record is a public call or a native with a non-zero address. A lone native record with address 0 gives an empty walk; with a foreign record right below it, the source's assert would fail, and the model simply stops.
- Reports.ErrorMessages: for SYSREQ.C with a native index outside the table, the source passes a null name to `%s`, which is undefined behaviour; the model prints "(null)", as glibc does.
- AmxVm.Amx.CodeAt: a code offset outside the code section reads as 0, where the source reads whatever raw memory lies there.
- AmxDebugInfo.Iterator.Equals: compares positions and does not check that both iterators walk the same table, where the source compares entry pointers.

## Findings

| source | as written | input that shows it | evidently intended | confidence | as-written member | corrected member |
|---|---|---|---|---|---|---|
| src/amxdebuginfo.h:47-65 | the iterator's constructor and operator++ wrap `*cur_` at once, so building end() and the last ++ read one entry past the table | a loaded line table with one record: end() builds an iterator at entries_ + 1 and reads entries_[1] | read an entry only when the iterator is dereferenced | not executed; medium | AmxDebugInfo.RawEndOfOneLine | AmxDebugInfo.Traverse |
