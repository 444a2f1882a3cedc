/** The `VSRL` writer engine as a class whose fields mirror VSRL.h:16-33.
    Every public method runs under the engine's mutex in the source, so each is
    one atomic step here, proved to move the engine from `old(State())` to the
    matching step function of module EngineSpec. */
module Engine {
  import opened Text
  import opened LogLevels
  import opened Wrappers
  import opened FileSystem
  import opened LineFormat
  import Loggers
  import opened EngineSpec

  class Engine {
    const disk: Disk
    const folderPath: string
    var logName: string
    const logExt: string
    var currentPath: Path
    var handle: Handle
    var fileSize: nat
    var fileSizeLimit: u64
    var rollingLogsLimit: u16
    var logLevel: LogLevel
    var loggers: map<seq<byte>, Loggers.Logger>
    var buffer: array<byte>
    var bufferSize: nat

    /** The engine's fields and the volume, as one value. */
    function State(): State
      reads this, disk
    {
      EngineSpec.State(disk.files, disk.held, folderPath, logName, logExt, currentPath, handle, fileSize,
                       fileSizeLimit, rollingLogsLimit, logLevel, loggers, bufferSize)
    }

    ghost predicate Valid()
      reads this, disk
    {
      Inv(State()) && buffer.Length == bufferSize
    }

    /** VSRL.cpp:38-43, with `_AllocBuffer(m_buffer_size)` inlined. */
    constructor (d: Disk, folder: string, name: string, ext: string, level: LogLevel)
      ensures Valid() && fresh(buffer)
      ensures disk == d && State() == Constructed(d.files, d.held, folder, name, ext, level)
    {
      disk := d;
      folderPath := folder;
      logName := name;
      logExt := ext;
      currentPath := "";
      handle := NoHandle;
      fileSize := 0;
      fileSizeLimit := DefaultSizeLimit;
      rollingLogsLimit := DefaultRollingLimit;
      logLevel := level;
      loggers := map[];
      bufferSize := InitialBufferSize;
      buffer := new byte[InitialBufferSize];
    }

    method GetInstance(name: seq<byte>) returns (lg: Loggers.Logger)
      requires Valid()
      modifies this
      ensures Valid()
      ensures (loggers, lg) == Register(old(loggers), name)
      ensures State() == old(State()).(loggers := loggers)
    {
      RegisterKeepsNames(loggers, name);
      if name !in loggers {
        loggers := loggers[name := Loggers.Logger(name)];
      }
      lg := loggers[name];
    }

    method SetLogLevel(level: LogLevel)
      requires Valid()
      modifies this
      ensures Valid() && State() == old(State()).(level := level)
    {
      logLevel := level;
    }

    method GetLogLevel() returns (level: LogLevel)
      ensures level == logLevel
    {
      level := logLevel;
    }

    method SetFileSizeLimit(limit: u64)
      requires Valid()
      modifies this
      ensures Valid() && State() == old(State()).(sizeLimit := limit)
    {
      fileSizeLimit := limit;
    }

    method GetFileSizeLimit() returns (limit: u64)
      ensures limit == fileSizeLimit
    {
      limit := fileSizeLimit;
    }

    method SetRollingLogsCount(count: u16)
      requires Valid()
      modifies this
      ensures Valid() && State() == old(State()).(rollingLimit := RollingLimitAfter(old(rollingLogsLimit), count))
    {
      if count >= 1 {
        rollingLogsLimit := count;
      }
    }

    method GetRollingLogsCount() returns (count: u16)
      ensures count == rollingLogsLimit
    {
      count := rollingLogsLimit;
    }

    method GetCurrentLogFilePathname() returns (path: Path)
      ensures path == currentPath
    {
      path := currentPath;
    }

    /** `_AllocBuffer(n)`: a new, zeroed buffer of `n` bytes replaces the old one. */
    method AllocBuffer(n: nat)
      requires Valid() && n >= 1
      modifies this
      ensures Valid() && fresh(buffer) && buffer.Length == n
      ensures State() == old(State()).(bufferSize := n)
    {
      bufferSize := n;
      buffer := new byte[n];
    }

    /** Rendering `data` into the buffer at offset `at`. */
    method CopyToBuffer(data: seq<byte>, at: nat)
      requires at + |data| <= buffer.Length
      modifies buffer
      ensures buffer[..at + |data|] == old(buffer[..at]) + data
    {
      forall i | 0 <= i < |data| {
        buffer[at + i] := data[i];
      }
      assert buffer[..at + |data|] == old(buffer[..at]) + data by {
        forall i | 0 <= i < at + |data|
          ensures buffer[..at + |data|][i] == (old(buffer[..at]) + data)[i]
        {
          if i >= at {
            assert buffer[at + (i - at)] == data[i - at];
          }
        }
      }
    }

    /** One `WriteFile` on the active file: the bytes the system reports
        written are appended, and `m_file_size` grows by as many. */
    method PutBytes(data: seq<byte>, w: WriteOutcome) returns (ok: bool)
      requires Valid() && handle == Live
      modifies this, disk
      ensures Valid() && buffer == old(buffer) && handle == Live
      ensures ok <==> w.Wrote?
      ensures State() == if ok then Put(old(State()), data, w.count) else old(State())
    {
      var n: nat;
      ok, n := disk.WriteFile(currentPath, data, w);
      if ok {
        fileSize := fileSize + n;
      }
    }

    /** `_WriteToFile(m_buffer, len1, part2, append)` (VSRL.h:98-116). */
    method WriteToFile(len1: nat, part2: Option<seq<byte>>, appendLF: bool, w: WriteEnv) returns (ok: bool)
      requires Valid() && len1 <= buffer.Length
      modifies this, disk
      ensures Valid() && buffer == old(buffer)
      ensures (State(), ok) == WriteStep(old(State()), buffer[..len1], part2, appendLF, w)
    {
      if handle != Live {
        return false;
      }
      ok := PutBytes(buffer[..len1], w.first);
      if !ok {
        return;
      }
      if part2.Some? {
        var ok2 := PutBytes(part2.value, w.second);
      }
      if appendLF {
        var ok3 := PutBytes(LF, w.newline);
      }
    }

    /** `_RolloverLogFile` (VSRL.cpp:292-322). */
    method RolloverLogFile(recreateOk: bool)
      requires Valid()
      modifies this, disk
      ensures Valid() && buffer == old(buffer)
      ensures State() == RolloverStep(old(State()), recreateOk)
    {
      RolloverPreservesInv(State(), recreateOk);
      handle := NoHandle;
      var base := folderPath + logName + logExt;
      var last := Sibling(base, rollingLogsLimit as nat);
      if disk.Exists(last) {
        var deleted := disk.DeleteFile(last);
      }
      var idx: nat := TopIndex(rollingLogsLimit);
      while idx > 0
        modifies disk
        invariant disk.held == old(disk.held)
        invariant ShiftDown(disk.files, disk.held, base, idx) == RolloverFiles(old(State()))
        decreases idx
      {
        var e := Sibling(base, idx);
        if disk.Exists(e) {
          var n := Sibling(base, idx + 1);
          var moved := disk.MoveFile(e, n);
        }
        idx := idx - 1;
      }
      var created := disk.CreateFile(currentPath, CreateAlways, recreateOk);
      if created {
        fileSize := 0;
        handle := Live;
      }
    }

    /** The search loop of `Initialize` (VSRL.cpp:244-258): try the stem, then
        `_A`, `_B`, ... until a name is free or can be opened exclusively. */
    method FindLogFile() returns (k: nat, logfile: Path, doesFileExist: bool)
      requires |disk.held| < LetterCount
      ensures k == FirstUsableFrom(disk.files, disk.held, folderPath, logName, logExt, 0) && k < LetterCount
      ensures logfile == Candidate(folderPath, logName, logExt, k)
      ensures doesFileExist <==> logfile in disk.files
    {
      FirstUsableIsALetter(disk.files, disk.held, folderPath, logName, logExt);
      ghost var target := FirstUsableFrom(disk.files, disk.held, folderPath, logName, logExt, 0);
      logfile := Candidate(folderPath, logName, logExt, 0);
      k := 0;
      while true
        invariant k <= target && logfile == Candidate(folderPath, logName, logExt, k)
        decreases target - k
      {
        doesFileExist := disk.Exists(logfile);
        var hasExclusivePermissions := disk.ProbeExclusive(logfile);
        if !doesFileExist || hasExclusivePermissions {
          break;
        }
        logfile := Candidate(folderPath, logName, logExt, k + 1);
        k := k + 1;
      }
    }

    /** `Initialize` (VSRL.cpp:241-282), run once on a newly constructed engine
      (VSRL.cpp:18-20). `CreateDirectory` is not modelled. */
    method Initialize(openOk: bool, sizeOk: bool) returns (ok: bool)
      requires Valid() && handle == NoHandle && fileSize == 0 && |disk.held| < LetterCount
      modifies this, disk
      ensures Valid() && buffer == old(buffer)
      ensures (State(), ok) == InitializeStep(old(State()), openOk, sizeOk)
    {
      InitializePreservesInv(State(), openOk, sizeOk);
      var k, logfile, doesFileExist := FindLogFile();
      logName := logName + "_" + [Letter(k)];
      currentPath := logfile;
      var d := if doesFileExist then OpenExisting else CreateNew;
      var isOpen := disk.CreateFile(currentPath, d, openOk);
      if !isOpen {
        return false;
      }
      if doesFileExist {
        if !sizeOk {
          return false;
        }
        fileSize := |disk.files[currentPath]|;
      }
      handle := Live;
      ok := true;
    }

    /** `Uninitialize` (VSRL.cpp:284-290). */
    method Uninitialize()
      requires Valid()
      modifies this
      ensures Valid() && State() == UninitializeStep(old(State()))
    {
      if handle != NoHandle {
        handle := Stale;
      }
    }

    /** A rendered line of `len` buffer bytes is written, then the file rolls
        over if it is now strictly larger than `m_file_size_limit`. */
    method WriteAndCheck(len: nat, part2: Option<seq<byte>>, env: CallEnv) returns (ok: bool)
      requires Valid() && len <= buffer.Length
      modifies this, disk
      ensures Valid() && buffer == old(buffer)
      ensures ok == WriteStep(old(State()), old(buffer[..len]), part2, true, env.writes).1
      ensures State() == WriteThenCheck(old(State()), old(buffer[..len]), part2, env)
    {
      ok := WriteToFile(len, part2, true, env.writes);
      if ok && fileSize > fileSizeLimit as nat {
        RolloverLogFile(env.recreateOk);
      }
    }

    /** Renders `head`, then `tail` behind it, into the buffer and writes the
        whole line; `StringCbVPrintfExA` and `WideCharToMultiByte` write the
        tail behind the prefix that `_PrepareLogLine` rendered. */
    method EmitLine(head: seq<byte>, tail: seq<byte>, part2: Option<seq<byte>>, env: CallEnv)
      requires Valid() && |head| + |tail| <= buffer.Length
      modifies this, disk, buffer
      ensures Valid() && buffer == old(buffer)
      ensures State() == WriteThenCheck(old(State()), head + tail, part2, env)
    {
      RenderLine(head, tail);
      var ok := WriteAndCheck(|head| + |tail|, part2, env);
    }

    /** The buffer's first bytes become `head` followed by `tail`. */
    method RenderLine(head: seq<byte>, tail: seq<byte>)
      requires |head| + |tail| <= buffer.Length
      modifies buffer
      ensures buffer[..|head| + |tail|] == head + tail
    {
      CopyToBuffer(head, 0);
      assert buffer[..|head|] == head;
      CopyToBuffer(tail, |head|);
    }

    /** `Log` (VSRL.cpp:101-132). */
    method Log(level: LogLevel, name: seq<byte>, msg: seq<byte>, env: CallEnv)
      requires Valid()
      modifies this, disk, buffer
      ensures Valid()
      ensures State() == LogLoop(old(State()), level, name, msg, env)
    {
      ghost var run := LogRun(bufferSize, level, name, msg, env);
      while AtLeast(level, logLevel) && handle != NoHandle
        invariant Valid() && (buffer == old(buffer) || fresh(buffer))
        invariant State() == old(State()).(bufferSize := bufferSize)
        invariant !Admits(old(State()), level) ==> bufferSize == old(bufferSize)
        invariant LogRun(bufferSize, level, name, msg, env) == run
        decreases var need := PrefixNeed(level, name, env); if bufferSize < need then need - bufferSize else 0
      {
        ghost var b := bufferSize;
        var again := LogOnce(level, name, msg, env);
        if !again {
          LogLoopSettles(old(State()), b, level, name, msg, env);
          break;
        }
      }
    }

    /** One pass of `Log`'s loop body: render the prefix, then either write
        the line, or double the buffer and ask for another pass. */
    method LogOnce(level: LogLevel, name: seq<byte>, msg: seq<byte>, env: CallEnv) returns (again: bool)
      requires Valid()
      modifies this, disk, buffer
      ensures Valid() && (buffer == old(buffer) || fresh(buffer))
      ensures var d := LogPass(old(bufferSize), level, name, msg, env);
              && (again <==> d == Grow)
              && (again ==> State() == Doubled(old(State())))
              && (!again ==> State() == Conclude(old(State()), Settled(old(bufferSize), d), env))
    {
      var r := PrepareLogLine(level, name, env.time, env.threadId, bufferSize);
      if r.Rendered? {
        ConcludeEmit(State(), r.line, Some(msg), env);
        CopyToBuffer(r.line, 0);
        assert buffer[..|r.line|] == r.line;
        var ok := WriteAndCheck(|r.line|, Some(msg), env);
        return false;
      }
      if r.hr == InsufficientBuffer {
        AllocBuffer(bufferSize * 2);
        return true;
      }
      return false;
    }

    /** `LogFmt` (VSRL.cpp:134-172); `f` is what formatting the user's format
        string and arguments yields. */
    method LogFmt(level: LogLevel, name: seq<byte>, f: FormatOutcome, env: CallEnv)
      requires Valid()
      modifies this, disk, buffer
      ensures Valid()
      ensures State() == LogFmtLoop(old(State()), level, name, f, env)
    {
      ghost var run := FmtRun(bufferSize, level, name, f, env);
      while AtLeast(level, logLevel) && handle != NoHandle
        invariant Valid() && (buffer == old(buffer) || fresh(buffer))
        invariant State() == old(State()).(bufferSize := bufferSize)
        invariant !Admits(old(State()), level) ==> bufferSize == old(bufferSize)
        invariant FmtRun(bufferSize, level, name, f, env) == run
        decreases var need := PrefixNeed(level, name, env); if bufferSize < need then need - bufferSize else 0
      {
        ghost var b := bufferSize;
        var again := LogFmtOnce(level, name, f, env);
        if !again {
          LogFmtLoopSettles(old(State()), b, level, name, f, env);
          break;
        }
      }
    }

    /** One pass of `LogFmt`'s loop body. `hr` is the outer status only: the
        status of the message formatting is declared in an inner scope in the
        source and never reaches the retry test. */
    method LogFmtOnce(level: LogLevel, name: seq<byte>, f: FormatOutcome, env: CallEnv) returns (again: bool)
      requires Valid()
      modifies this, disk, buffer
      ensures Valid() && (buffer == old(buffer) || fresh(buffer))
      ensures var d := FmtPass(old(bufferSize), level, name, f, env);
              && (again <==> d == Grow)
              && (again ==> State() == Doubled(old(State())))
              && (!again ==> State() == Conclude(old(State()), Settled(old(bufferSize), d), env))
    {
      var r := PrepareLogLine(level, name, env.time, env.threadId, bufferSize);
      var hr := if r.Rendered? then Ok else r.hr;
      if r.Rendered? {
        if FitsBehind(f, r.line, bufferSize) {
          ConcludeEmit(State(), r.line + f.bytes, NoValue, env);
          EmitLine(r.line, f.bytes, NoValue, env);
          return false;
        }
      }
      if hr == InsufficientBuffer {
        AllocBuffer(bufferSize * 2);
        return true;
      }
      return false;
    }

    /** `LogW` (VSRL.cpp:174-218); `t` is what converting `msgW` to UTF-8 yields. */
    method LogW(level: LogLevel, name: seq<byte>, msgW: seq<u16>, t: TranscodeOutcome, env: CallEnv)
      requires Valid()
      modifies this, disk, buffer
      ensures Valid()
      ensures State() == LogWLoop(old(State()), level, name, msgW, t, env)
    {
      ghost var run := WideRun(bufferSize, level, name, msgW, t, env);
      while AtLeast(level, logLevel) && handle != NoHandle
        invariant Valid() && (buffer == old(buffer) || fresh(buffer))
        invariant State() == old(State()).(bufferSize := bufferSize)
        invariant !Admits(old(State()), level) ==> bufferSize == old(bufferSize)
        invariant WideRun(bufferSize, level, name, msgW, t, env) == run
        decreases var need := WideNeed(level, name, msgW, t, env); if bufferSize < need then need - bufferSize else 0
      {
        ghost var b := bufferSize;
        var again := LogWOnce(level, name, msgW, t, env);
        if !again {
          LogWLoopSettles(old(State()), b, level, name, msgW, t, env);
          break;
        }
      }
    }

    /** One pass of `LogW`'s loop body: a UTF-8 text that does not fit behind
        the prefix sets the same status as a prefix that does not fit. */
    method LogWOnce(level: LogLevel, name: seq<byte>, msgW: seq<u16>, t: TranscodeOutcome, env: CallEnv)
      returns (again: bool)
      requires Valid()
      modifies this, disk, buffer
      ensures Valid() && (buffer == old(buffer) || fresh(buffer))
      ensures var d := WidePass(old(bufferSize), level, name, msgW, t, env);
              && (again <==> d == Grow)
              && (again ==> State() == Doubled(old(State())))
              && (!again ==> State() == Conclude(old(State()), Settled(old(bufferSize), d), env))
    {
      var r := PrepareLogLine(level, name, env.time, env.threadId, bufferSize);
      var hr := if r.Rendered? then Ok else r.hr;
      if r.Rendered? {
        var line := r.line;
        var converted := WideTail(bufferSize - |line|, msgW, t);
        hr := converted.0;
        var utf8 := converted.1;
        if hr == Ok {
          ConcludeEmit(State(), line + utf8, NoValue, env);
          EmitLine(line, utf8, NoValue, env);
          return false;
        }
      }
      if hr == InsufficientBuffer {
        AllocBuffer(bufferSize * 2);
        return true;
      }
      return false;
    }

    /** The virtual entry point a `Logger` method reaches. */
    method Submit(c: Loggers.Call, f: FormatOutcome, t: TranscodeOutcome, env: CallEnv)
      requires Valid()
      modifies this, disk, buffer
      ensures Valid()
      ensures State() == SubmitStep(old(State()), c, f, t, env)
    {
      match c
      case LogFmtCall(level, name, _, _) => LogFmt(level, name, f, env);
      case LogCall(level, name, msg) => Log(level, name, msg, env);
      case LogWCall(level, name, msgW) => LogW(level, name, msgW, t, env);
    }
  }
}
