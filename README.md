# VSRL writer engine, modelled and proved in Dafny

VSRL is a Windows rolling-file logging library. A process
creates one engine object over a folder, a log name and an extension. Code
asks the engine for named `Logger` objects; each `Logger` method forwards
one call, with a fixed severity, to one of the engine's three entry points:
`Log` (a `std::string`), `LogFmt` (a printf format) or `LogW` (a
`std::wstring`, converted to UTF-8). The engine filters by level, renders a
fixed log4cpp-style prefix

    2018-09-06 08:52:02,693 [WARN  ] [12345] VerifySign : <message>

into a scratch buffer that it doubles whenever the text does not fit,
appends the line to the active file, and rolls the `.1` … `.N` siblings
over once the file grows strictly past the size limit. At start-up it picks
the first of `name`, `name_A`, `name_B`, … that is free or that it can open
exclusively.

This project models that engine over an abstract volume: a map from path
to bytes plus a set of held paths: those the engine cannot open exclusively
for reading and writing, because another process holds them or write
access is denied (see "## Left out").

| file | module | what it holds |
|---|---|---|
| wrappers.dfy | `Wrappers` | the `Option` datatype the other modules share |
| text.dfy | `Text` | machine integers, `to_wstring`/`%u` decimals, `%0Nu` padding, `%s` on a C string |
| log_levels.dfy | `LogLevels` | the `LogLevel` enum and its order |
| loggers.dfy | `Loggers` | the `Logger` front end as a function from a method call to an engine call |
| line_format.dfy | `LineFormat` | the level tags, the timestamp, the prefix, `_PrepareLogLine` |
| file_system.dfy | `FileSystem` | pure semantics of each Win32 file call and a `Disk` class with one method per call |
| engine_spec.dfy | `EngineSpec` | the engine's state as a value, one step function per operation, and the lemmas about them |
| engine.dfy | `Engine` | class `Engine`, whose fields mirror the C++ class; each method is proved to move `State()` by its step function |

Each method of `Engine.Engine` runs its source's loop (the retry loops of
`Log`/`LogFmt`/`LogW`, the suffix search of `Initialize`, the descending
rename loop of `_RolloverLogFile`). Its contract says that the new state is
the corresponding `EngineSpec` step applied to the old state. The
`EngineSpec` lemmas then say what those steps guarantee: closed forms of
the retry loops, the rotation of the sibling chain, the size accounting,
that an open file a call leaves over the limit was not written to by that
call, and the invariant kept by every call.
Outcomes outside the engine's control are parameters:

- the clock and the thread id (`CallEnv.time`, `CallEnv.threadId`);
- each `WriteFile` result and byte count (`WriteEnv`);
- the success of `CreateFileW` beyond what the volume decides (`openOk`, `recreateOk`);
- `GetFileSizeEx`/`SetFilePointerEx` (`sizeOk`);
- the result of user formatting (`FormatOutcome`) and of UTF-8 conversion (`TranscodeOutcome`).

The model follows the code as written in three places:

- In `LogFmt` the status of the message formatting is declared in an inner
  scope (VSRL.cpp:146). The retry test at VSRL.cpp:163 sees only the
  prefix's status, so a message too long for the buffer is dropped, not
  retried (`EngineSpec.LogFmtOverflowDropped`).
- `_RolloverLogFile` never renames the active file to `.1`. It truncates the
  active path: the active file's content is discarded at rollover, not kept
  as `.1`. When no rotated file is held (another process's hold, a read-only file or
  denied write access), `.1` is absent
  afterwards (`EngineSpec.RolloverRotates`).
- The rotation stem is `m_log_name`, and `Initialize` extends it with the
  letter *after* the one in the chosen file name (`_A` when the bare name is
  chosen). So siblings are named after the stem, not after the active path
  (`EngineSpec.InitializeStep`).

## Model

| member | source | states |
|---|---|---|
| Text.Decimal | VSRL.cpp:297-298 | `std::to_wstring` of a count: at least one decimal digit, a single digit exactly for values below 10, and no leading zero (with `ParseDecimalOfDecimal` this fixes the text) |
| Text.ParseDecimalOfDecimal | VSRL.cpp:297-298 | the decimal text of `n` reads back as `n` |
| Text.DecimalInjective | VSRL.cpp:305-308 | distinct indices give distinct suffix texts |
| Text.DecimalFits | VSRL.h:83-84 | a value below 10^w has at most w digits |
| Text.ZeroPadded | VSRL.h:83-84 | `%0<w>u`: all digits; length is w or the digit count if larger, and exactly w when the value is below 10^w; the value's digits at the end, and zeros before them |
| Text.ZeroPaddedSplit | VSRL.h:83-84 | the padded text is the padded text of `n / 10` at one fewer width, then the last digit |
| Text.AsciiBytes | VSRL.h:82-85 | the single-byte encoding keeps length and every character's code |
| Text.AsciiBytesInjective | VSRL.h:35-36 | distinct ASCII texts have distinct bytes |
| Text.DigitBytes | VSRL.h:83-85 | a digit string's byte encoding has the same length |
| Text.DigitBytesSnoc | VSRL.h:83-84 | encoding a digit string with one more digit appends that digit's byte |
| Text.CString | VSRL.h:85 | `%s` on `c_str()`: a prefix of the string with no NUL, stopping exactly at the first NUL |
| LogLevels.Ordinal | VSRL_IF.h:9 | the underlying values are 0..9, and 0 only for None |
| LogLevels.FromOrdinal | VSRL_IF.h:9 | exactly the values 0..9 name a level, and the level named has that value |
| LogLevels.OrdinalRoundTrip | VSRL_IF.h:9 | value and level convert back and forth losslessly |
| LogLevels.AtLeastIsTotalOrder | VSRL_IF.h:9 | `>=` on levels is reflexive, antisymmetric, transitive and total |
| LogLevels.LevelBounds | VSRL_IF.h:9 | None is the least and Emerg the greatest level; every level but None is renderable |
| Loggers.SeverityLevel | VSRL_IF.h:45-170 | each severity method forwards a level in 1..9, never None |
| Loggers.SeverityOf | VSRL_IF.h:45-170 | every level except None has exactly the method that forwards it |
| Loggers.SeverityLevelInjective | VSRL_IF.h:45-170 | no two severity methods forward the same level |
| Loggers.Forward | VSRL_IF.h:42-58 | a method call forwards its own level and the logger's constructed name; the format overload calls `LogFmt` with the format and arguments, the string overload `Log` with the message, the wide overload `LogW` with the wide message, each unchanged |
| Loggers.ForwardIsFaithful | VSRL_IF.h:42-170 | the engine call determines the severity method and the payload it came from |
| LineFormat.LevelTag | VSRL.h:35-36 | tag i is the table's entry for enum value i, and is six ASCII characters |
| LineFormat.TagLevel | VSRL.h:35-36 | a tag that reads back as a level is that level's tag |
| LineFormat.TagRoundTrip | VSRL.h:35-36 | the ten tags are distinct: a tag identifies its level |
| LineFormat.FieldLength | VSRL.h:83-84 | a field below 10^w prints exactly w digits |
| LineFormat.FieldIsZeroPadded | VSRL.h:83-84 | the digit-by-digit field equals the bytes of `ZeroPadded` |
| LineFormat.Field | VSRL.h:83-84 | one `%0<w>u` field rendered digit by digit; its length and text are stated by `FieldLength` and `FieldIsZeroPadded` |
| LineFormat.FieldsLength | VSRL.h:83-84 | fields that fit their widths print as wide as the widths and separators together |
| LineFormat.TimeValuesFit | VSRL.h:80-84 | an in-range SYSTEMTIME fills each of the seven widths exactly |
| LineFormat.TimestampLength | VSRL.h:83-84 | an in-range timestamp is 23 bytes long |
| LineFormat.Timestamp | VSRL.h:80-84 | the seven SYSTEMTIME fields at widths 4,2,2,2,2,2,3 with separators `-`, `-`, space, `:`, `:`, `,`; its length is stated by `TimestampLength` |
| LineFormat.TagBytes | VSRL.h:35-36 | a tag is six bytes |
| LineFormat.Prefix | VSRL.h:82-85 | an in-range prefix is 39 bytes plus the thread id's digits plus the name up to its first NUL |
| LineFormat.AssembleLayout | VSRL.h:83 | the format's literal text sits between the fields: timestamp, " [", tag, "] [", thread id, "] ", name, " : " at fixed offsets |
| LineFormat.ThreadIdAfterTag | VSRL.h:83-85 | the thread id's digits start at byte 34 |
| LineFormat.NameAfterThreadId | VSRL.h:83-85 | the logger name follows the thread id and "] " |
| LineFormat.PrefixStartsWithTimestamp | VSRL.h:83-84 | a prefix starts with its timestamp |
| LineFormat.PrefixTag | VSRL.h:83-85 | bytes 25..30 of a prefix are the level's tag |
| LineFormat.PrefixThreadId | VSRL.h:83-85 | bytes 34 onwards of a prefix are the thread id's digits |
| LineFormat.PrefixNamesItsLogger | VSRL.h:83-85 | a prefix carries the logger name up to its first NUL after the thread id |
| LineFormat.PrefixEndsWithSeparator | VSRL.h:83 | a prefix ends with " : " |
| LineFormat.PrefixNamesItsLevel | VSRL.h:35-36 | the tag read back from a rendered prefix is the level it was rendered for |
| LineFormat.PrepareLogLine | VSRL.h:73-86 | invalid-parameter exactly for levels outside 1..9; insufficient-buffer exactly when prefix and terminator do not fit; otherwise the prefix, shorter than the buffer |
| LineFormat.NoneNeverRenders | VSRL.h:75-79 | level None is rejected with a status other than insufficient-buffer |
| FileSystem.Deleted | VSRL.cpp:299-302 | `DeleteFile` removes an existing, unheld file and nothing else; otherwise nothing changes |
| FileSystem.Moved | VSRL.cpp:306-310 | `MoveFileW` moves the contents to a free destination and leaves the source absent; only those two paths change; otherwise nothing changes |
| FileSystem.Written | VSRL.h:102-111 | a write puts a prefix of its request in the file: the reported count, or all of it |
| FileSystem.Appended | VSRL.h:102-111 | appending changes only the target, whose content grows by the bytes |
| FileSystem.Opened | VSRL.cpp:262-264 | a successful create or truncate leaves an empty file; opening an existing file or failing changes nothing; only that path changes |
| FileSystem.FileExists | VSRL.cpp:220-225 | `_FileExists`: the path names a file (directories are not modelled) |
| FileSystem.HasExclusivePermissions | VSRL.cpp:227-239 | `_HasExclusivePermissionsToFile`: the share-none read/write open of an existing file succeeds exactly when the path is not held (held stands for every reason that open fails: another process's hold or missing write permission) |
| FileSystem.Disk.DeleteFile | VSRL.cpp:301 | succeeds exactly for an existing, unheld path, and the files become `Deleted` |
| FileSystem.Disk.MoveFile | VSRL.cpp:309 | succeeds exactly when the move is possible, and the files become `Moved` |
| FileSystem.Disk.CreateFile | VSRL.cpp:262-265 | succeeds exactly when the open can succeed, and the files become `Opened` |
| FileSystem.Disk.WriteFile | VSRL.h:102-111 | succeeds exactly on a reported write, appending what was reported and returning its count; a failed write changes nothing |
| EngineSpec.Constructed | VSRL.cpp:38-43 | a constructed engine has no handle, size 0, a 20 MiB limit, 10 rolling logs, a 1024-byte buffer, the level given, no loggers, and keeps the invariant |
| EngineSpec.WriteStep | VSRL.h:98-116 | returns true exactly when a handle is open and the first write succeeds; on false nothing changes; only files and size ever change |
| EngineSpec.WriteStepAppendsEmitted | VSRL.h:102-112 | the two or three writes append exactly what each reported, the second only for a second part and the newline only when asked, and the size grows by that many bytes |
| EngineSpec.WriteStepPreservesInv | VSRL.h:104-111 | the size stays equal to the active file's length |
| EngineSpec.SiblingInjective | VSRL.cpp:297-308 | distinct indices name distinct sibling files |
| EngineSpec.SiblingShape | VSRL.cpp:297-298 | the rotated file `<stem>.<k>` starts with the stem and a dot and is at least two characters longer |
| EngineSpec.ShiftDown | VSRL.cpp:303-311 | the descending rename loop from `idx` to 1, moving each existing `.i` to `.i+1`; stated by `ShiftDownTouchesOnlySiblings` and `ShiftDownChain` |
| EngineSpec.TopIndex | VSRL.cpp:303 | `m_rolling_logs_limit - 1` in 16 bits: one less than a limit of 1 or more, 0xFFFF for a limit of 0 |
| EngineSpec.RolloverFiles | VSRL.cpp:297-311 | the files after deleting `.limit` and running the rename loop; stated by `RolloverRotates` |
| EngineSpec.RolloverStep | VSRL.cpp:292-322 | a handle is open afterwards exactly when the recreate succeeds, with an empty active file and size 0; on failure the handle is 0; only the active path differs from the rotated files; nothing but files, handle and size changes |
| EngineSpec.RolloverFailureKeepsRotation | VSRL.cpp:313-318 | when the recreate fails, every path, the active one included, holds what the rotation left |
| EngineSpec.RolloverPreservesInv | VSRL.cpp:292-322 | rollover keeps the invariant |
| EngineSpec.ShiftDownTouchesOnlySiblings | VSRL.cpp:303-311 | the rename loop changes no path outside `.1` … `.idx+1` |
| EngineSpec.ShiftDownChain | VSRL.cpp:303-311 | with `.idx+1` free and no sibling held, each old `.i` ends at `.i+1` and `.1` is absent |
| EngineSpec.RolloverRotates | VSRL.cpp:292-322 | with no sibling held: every old `.i` (i < limit) is now `.i+1`, `.1` is absent, and no path outside the siblings and the active path changes |
| EngineSpec.WriteThenCheck | VSRL.cpp:112-117 | the write-then-rollover sequence changes only files, handle and size |
| EngineSpec.Admits | VSRL.cpp:104 | the loop condition `level >= m_logLevel && m_hFile != 0` of all three entry points (also VSRL.cpp:137, 177); a call it rejects changes nothing (`RejectedCallsChangeNothing`) |
| EngineSpec.GrownSize | VSRL.cpp:122-126 | repeated doubling from b reaches at least `need`, never shrinks, stays at b when b already suffices, and overshoots by less than a factor 2 |
| EngineSpec.GrownSizeIsDoubling | VSRL.cpp:122-126 | the grown size is `b * 2^k` for some `k`: only doubling changes it |
| EngineSpec.LogPass | VSRL.cpp:108-130 | a pass of `Log` grows the buffer only when the prefix does not fit |
| EngineSpec.LogRun | VSRL.cpp:104-131 | the passes of `Log`'s loop, one per doubling: where they stop is stated by `LogRunClosedForm` |
| EngineSpec.LogLoop | VSRL.cpp:101-132 | `Log` as a function of the state before; its result is stated by `LogLoopClosedForm`, `RejectedCallsChangeNothing` and `LoopsPreserveInv` |
| EngineSpec.LogLoopSettles | VSRL.cpp:104-131 | a `Log` loop that stops after the pass at size b ends as that pass decided |
| EngineSpec.LogPassGrowsOrEmits | VSRL.cpp:108-130 | for a renderable level a pass of `Log` grows exactly when the prefix does not fit, and otherwise writes prefix and message |
| EngineSpec.LogRunClosedForm | VSRL.cpp:104-131 | the passes of `Log` stop at the first doubling that holds the prefix and then write prefix and message |
| EngineSpec.LogLoopClosedForm | VSRL.cpp:101-132 | `Log` at an admitted level grows the buffer to the first doubling that holds the prefix, then writes prefix, message and LF once, then checks the limit |
| EngineSpec.FmtPass | VSRL.cpp:141-170 | a pass of `LogFmt` grows the buffer only when the prefix does not fit |
| EngineSpec.FmtRun | VSRL.cpp:137-171 | the passes of `LogFmt`'s loop: where they stop is stated by `FmtRunClosedForm` |
| EngineSpec.LogFmtLoop | VSRL.cpp:134-172 | `LogFmt` as a function of the state before; its result is stated by `LogFmtLoopClosedForm` and `LogFmtOverflowDropped` |
| EngineSpec.LogFmtLoopSettles | VSRL.cpp:137-171 | a `LogFmt` loop that stops after the pass at size b ends as that pass decided |
| EngineSpec.FmtPassGrowsOrDecides | VSRL.cpp:141-170 | a pass of `LogFmt` grows exactly when the prefix does not fit, writes when the formatted message also fits, and otherwise leaves |
| EngineSpec.FmtRunClosedForm | VSRL.cpp:137-171 | the passes of `LogFmt` stop at the first doubling that holds the prefix, whatever the message |
| EngineSpec.LogFmtLoopClosedForm | VSRL.cpp:134-172 | `LogFmt` grows the buffer only for the prefix, then writes prefix and message if the message fits behind it and leaves otherwise |
| EngineSpec.LogFmtOverflowDropped | VSRL.cpp:141-170 | a formatted message that overflows the buffer is never written, and the buffer stops at the size the prefix needed |
| EngineSpec.LogFmtFitsWritten | VSRL.cpp:141-159 | a message that fits once the prefix fits is written whole with LF |
| EngineSpec.WideTail | VSRL.cpp:184-197 | an empty message adds nothing; a conversion that does not fit sets insufficient-buffer; a failed one sets failure; a successful one adds the UTF-8 bytes within the room left |
| EngineSpec.WidePass | VSRL.cpp:181-216 | a pass of `LogW` grows the buffer only when prefix or UTF-8 text does not fit |
| EngineSpec.WideRun | VSRL.cpp:177-217 | the passes of `LogW`'s loop: where they stop is stated by `WideRunClosedForm` |
| EngineSpec.LogWLoop | VSRL.cpp:174-218 | `LogW` as a function of the state before; its result is stated by `LogWLoopClosedForm` and `LogWOutcome` |
| EngineSpec.LogWLoopSettles | VSRL.cpp:177-217 | a `LogW` loop that stops after the pass at size b ends as that pass decided |
| EngineSpec.WidePassGrowsOrDecides | VSRL.cpp:181-216 | a pass of `LogW` grows exactly when prefix plus UTF-8 text does not fit, leaves on a failed conversion, and otherwise writes the whole line |
| EngineSpec.WideRunClosedForm | VSRL.cpp:177-217 | the passes of `LogW` stop at the first doubling that holds prefix and UTF-8 text |
| EngineSpec.LogWLoopClosedForm | VSRL.cpp:174-218 | `LogW` grows the buffer until prefix and text fit, then writes the whole line unless the conversion failed |
| EngineSpec.WriteThenCheckPreservesInv | VSRL.cpp:112-117 | writing a line and rolling over keep the invariant |
| EngineSpec.RolloverOnlyAboveLimit | VSRL.cpp:112-117 | rollover happens only after a write that returned true and left the file strictly over the limit; a failed first write changes nothing |
| EngineSpec.WriteThenCheckNeverLeavesFileOverLimit | VSRL.cpp:112-117 | if an open file is over the limit after the call, nothing was written |
| EngineSpec.LogBufferTransparent | VSRL.cpp:101-132 | whatever buffer size `Log` starts with, the files, handle and size it leaves are the same |
| EngineSpec.LogFromAnyBuffer | VSRL.cpp:101-132 | `Log` from any buffer size leaves what one write-and-check of prefix and message leaves, apart from the buffer size |
| EngineSpec.WriteThenCheckIgnoresBuffer | VSRL.cpp:112-117 | writing and rolling over do not depend on the buffer size and do not change it |
| EngineSpec.LogWBufferTransparent | VSRL.cpp:174-218 | whatever buffer size `LogW` starts with, the files, handle and size it leaves are the same |
| EngineSpec.LoopsPreserveInv | VSRL.cpp:122-126 | all three calls keep the invariant and never shrink the buffer |
| EngineSpec.LogNeverLeavesFileOverLimit | VSRL.cpp:101-132 | if `Log` leaves an open file over the limit, it wrote nothing |
| EngineSpec.LogFmtNeverLeavesFileOverLimit | VSRL.cpp:134-172 | if `LogFmt` leaves an open file over the limit, it wrote nothing |
| EngineSpec.LogWNeverLeavesFileOverLimit | VSRL.cpp:174-218 | if `LogW` leaves an open file over the limit, it wrote nothing |
| EngineSpec.RejectedCallsChangeNothing | VSRL.cpp:104 | a call below the level, with handle 0 or at level None leaves the whole state unchanged, buffer included, for all three entry points |
| EngineSpec.LogWOutcome | VSRL.cpp:184-206 | a non-empty wide message that converts is written whole after the buffer grows to hold prefix and text; one that fails to convert is dropped |
| EngineSpec.CandidateInjective | VSRL.cpp:244-256 | distinct positions in the search give distinct file names |
| EngineSpec.CandidateLength | VSRL.cpp:244-256 | a suffixed name is two characters longer than the bare one |
| EngineSpec.Candidate | VSRL.cpp:244-256 | the k-th name tried: the bare name, then `_A`, `_B`, … before the extension; distinct by `CandidateInjective` |
| EngineSpec.Usable | VSRL.cpp:249-251 | the loop's exit test: the file does not exist or passes the exclusive probe |
| EngineSpec.FirstUsableFrom | VSRL.cpp:247-258 | the search stops at the first candidate that does not exist or passes the exclusive probe; every earlier one failed the test |
| EngineSpec.CandidatesCount | VSRL.cpp:244-256 | the first n candidates are n distinct names |
| EngineSpec.FirstUsableIsALetter | VSRL.cpp:247-258 | while fewer names are held than there are letters, the search ends on a letter |
| EngineSpec.InitializeStep | VSRL.cpp:241-282 | the first usable name becomes the active path and the stem gains `_` and the next letter; success exactly when the open succeeds (and the size query, for an existing file); an existing file is resumed at its length, a new one is created empty; on failure nothing but the names changes |
| EngineSpec.InitializeChoosesFirstUsable | VSRL.cpp:244-259 | the active path is usable and every earlier candidate exists and is held (another process holds it or write access is denied) |
| EngineSpec.InitializedPathIsNoSibling | VSRL.cpp:253-259 | the active path `Initialize` chooses is never a rotated file of the stem it stores, so the rotation lemma applies to every initialized engine |
| EngineSpec.InitializePreservesInv | VSRL.cpp:241-282 | `Initialize` on a fresh engine establishes the invariant |
| EngineSpec.UninitializeStep | VSRL.cpp:284-290 | the handle is closed but not reset to 0; with no handle nothing changes |
| EngineSpec.NoWritesAfterUninitialize | VSRL.cpp:284-290 | after `Uninitialize` a `Log` call writes nothing and leaves no live handle |
| EngineSpec.Register | VSRL.cpp:45-60 | `GetInstance` returns the entry for the name, inserting one only if absent; the keys gain just that name and other entries are unchanged |
| EngineSpec.RegisterIdempotent | VSRL.cpp:45-60 | a second lookup of the same name changes nothing and returns the same logger |
| EngineSpec.RegisterKeepsNames | VSRL.cpp:45-60 | the registry maps each name only to the logger of that name |
| EngineSpec.RollingLimitAfter | VSRL.cpp:80-87 | a request of 1 or more is stored, 0 is ignored, and the limit stays at least 1 |
| EngineSpec.SubmitStep | VSRL_IF.h:45-58 | a front-end call reaches the entry point of its overload; stated by `SubmitDispatches` |
| EngineSpec.SubmitDispatches | VSRL_IF.h:45-58 | a severity method's string, format or wide-string overload runs `Log`, `LogFmt` or `LogW` at that method's level, with the logger's name and the payload unchanged |
| EngineSpec.LoggerCallBelowLevelChangesNothing | VSRL_IF.h:45-170 | a severity method below the engine's level changes nothing |
| Engine.Engine.constructor | VSRL.cpp:38-43 | the fields take the defaults and the given level, with a fresh 1024-byte buffer |
| Engine.Engine.GetInstance | VSRL.cpp:45-60 | the registry and the returned logger are `Register` of the old registry; nothing else changes |
| Engine.Engine.SetLogLevel | VSRL.cpp:62-66 | only the level changes |
| Engine.Engine.GetLogLevel | VSRL.h:54 | returns the stored level |
| Engine.Engine.SetFileSizeLimit | VSRL.cpp:68-72 | only the size limit changes |
| Engine.Engine.GetFileSizeLimit | VSRL.cpp:74-78 | returns the stored size limit |
| Engine.Engine.SetRollingLogsCount | VSRL.cpp:80-87 | only the rolling limit changes, to `RollingLimitAfter` |
| Engine.Engine.GetRollingLogsCount | VSRL.cpp:89-93 | returns the stored rolling limit |
| Engine.Engine.GetCurrentLogFilePathname | VSRL.cpp:95-99 | returns the active path |
| Engine.Engine.AllocBuffer | VSRL.h:88-96 | a fresh buffer of n bytes replaces the old one and the size becomes n; nothing else changes |
| Engine.Engine.CopyToBuffer | VSRL.h:82 | the bytes land at the offset and the bytes before it are kept |
| Engine.Engine.PutBytes | VSRL.h:102-111 | one write appends what was reported and adds it to the size; a failed one changes nothing |
| Engine.Engine.WriteToFile | VSRL.h:98-116 | new state and result are `WriteStep` of the old state |
| Engine.Engine.RolloverLogFile | VSRL.cpp:292-322 | the new state is `RolloverStep` of the old state |
| Engine.Engine.FindLogFile | VSRL.cpp:244-258 | the loop ends at `FirstUsableFrom`, on a letter, and reports whether that file exists |
| Engine.Engine.Initialize | VSRL.cpp:241-282 | new state and result are `InitializeStep` of the old state |
| Engine.Engine.Uninitialize | VSRL.cpp:284-290 | the new state is `UninitializeStep` of the old state |
| Engine.Engine.WriteAndCheck | VSRL.cpp:112-117 | the new state is `WriteThenCheck` of the old state and the buffered line |
| Engine.Engine.RenderLine | VSRL.cpp:141-147 | the buffer's first bytes become the prefix followed by the tail |
| Engine.Engine.EmitLine | VSRL.cpp:146-158 | copying prefix and tail into the buffer and writing it leaves `WriteThenCheck` of the whole line |
| Engine.Engine.Log | VSRL.cpp:101-132 | the new state is `LogLoop` of the old state |
| Engine.Engine.LogOnce | VSRL.cpp:106-130 | one pass doubles the buffer and asks for another exactly when `LogPass` grows, and otherwise ends as `LogPass` decided |
| Engine.Engine.LogFmt | VSRL.cpp:134-172 | the new state is `LogFmtLoop` of the old state |
| Engine.Engine.LogFmtOnce | VSRL.cpp:139-170 | one pass doubles the buffer exactly when `FmtPass` grows, and otherwise ends as `FmtPass` decided |
| Engine.Engine.LogW | VSRL.cpp:174-218 | the new state is `LogWLoop` of the old state |
| Engine.Engine.LogWOnce | VSRL.cpp:179-216 | one pass doubles the buffer exactly when `WidePass` grows, and otherwise ends as `WidePass` decided |
| Engine.Engine.Submit | VSRL_IF.h:45-58 | each front-end call reaches its entry point: the new state is `SubmitStep` of the old state |

## Left out

- Win32 calls (`CreateFileW`, `WriteFile`, `GetFileAttributesW`, `MoveFileW`, `DeleteFile`, `GetFileSizeEx`, `SetFilePointerEx`) are replaced by the abstract volume. Their outcomes beyond what the volume decides are parameters.
- `CreateDirectory` (VSRL.cpp:243) is not modelled: the model has no directories.
- The file pointer is not modelled: every write appends to the end of the file.
- Other processes and file permissions appear only as the fixed set of held paths. A path is held when the share-none read/write open of `_HasExclusivePermissionsToFile` (VSRL.cpp:227-239) would fail: another process holds it, or it is read-only or an ACL denies write access. The engine's own handle does not count as a hold. One set stands for every kind of hold, so a held path also makes delete, rename and open fail; a read-only file that a rename would still move is not distinguished. A file that a peer engine holds open with `FILE_SHARE_DELETE`, `FILE_SHARE_READ` and `FILE_SHARE_WRITE` (VSRL.cpp:262-264) fails only the share-none probe; deleting, renaming or opening it with sharing would succeed. The model does not distinguish the two kinds of hold.
- `std::mutex` and `lock_guard`: each public method is one atomic step. `GetLogLevel` reads without the lock, which matters only under concurrency.
- The singleton `s_pVSRL` and `Create/DeleteTheOneAndOnlyInstance` (VSRL.cpp:6-36): the model uses an explicit engine object, and the `_DEBUG` throws are build-time only.
- `GetSystemTime` and `GetCurrentThreadId` are inputs. The clock is read once per call, while the source reads it again on each retry (a retry may then render a different timestamp).
- `StringCbVPrintfExA` on the user's format and `va_list` is abstract (`FormatOutcome`); format directives are not interpreted.
- `WideCharToMultiByte` is abstract (`TranscodeOutcome`); UTF-16 decoding is not modelled.
- The strsafe limit `STRSAFE_MAX_CCH` on buffer sizes is not modelled: buffer sizes are unbounded, so doubling never fails.
- `m_file_size` is an unbounded `nat`: its 64-bit wrap and the `DWORD` cast of lengths at VSRL.h:102-109 are not modelled.
- The contents of the scratch buffer are not part of the engine's state: a line is copied into it only when it is written.
- Engine.Engine.Initialize: requires a fresh engine (no handle, size 0), as the single call at VSRL.cpp:18-20 guarantees. It also requires fewer held paths than suffix letters below the surrogate range, so that the search ends on a valid letter; letter overflow past 'Z' is otherwise not modelled.
- EngineSpec.InitializeStep: VSRL.cpp:253 computes `L"_" + suffix_to_try`, which is pointer arithmetic on a string literal with undefined behaviour. The model appends `_` and the current letter, the evident intent.
- Engine.Engine.Log, Engine.Engine.LogFmt, Engine.Engine.LogW: the loop condition is evaluated on every pass, as in the source. The step functions evaluate it once, since growing the buffer changes neither the level nor the handle.
