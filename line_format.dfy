/** Rendering of the fixed line prefix (VSRL.h:35-36, 69-86), in log4cpp's
    layout "%d [%-6p] [%t] %c : ":
        2018-09-06 08:52:02,693 [WARN  ] [12345] VerifySign : <message>
    The clock and the thread id are inputs. */
module LineFormat {
  import opened Text
  import opened LogLevels
  import opened Wrappers

  /** The fields of a Win32 SYSTEMTIME that the prefix prints (all WORDs). */
  datatype SystemTime = SystemTime(year: u16, month: u16, day: u16, hour: u16, minute: u16,
                                   second: u16, milliseconds: u16)

  /** m_levelStrings: one six-character tag per level, indexed by the level's value. */
  const LevelStrings: seq<string> :=
    ["NONE  ", "DEBUG ", "INFO  ", "NOTICE", "WARN  ", "ERROR ", "CRIT  ", "ALERT ", "FATAL ", "EMERG "]

  function LevelTag(l: LogLevel): (t: string)
    ensures |t| == 6 && IsAscii(t)
    ensures t == LevelStrings[Ordinal(l)]
  {
    LevelStrings[Ordinal(l)]
  }

  /** Reads a six-character tag back as its level. */
  function TagLevel(t: string): (r: Option<LogLevel>)
    ensures r.Some? ==> LevelTag(r.value) == t
  {
    if t == "NONE  " then Some(None)
    else if t == "DEBUG " then Some(Debug)
    else if t == "INFO  " then Some(Info)
    else if t == "NOTICE" then Some(Notice)
    else if t == "WARN  " then Some(Warn)
    else if t == "ERROR " then Some(Error)
    else if t == "CRIT  " then Some(Crit)
    else if t == "ALERT " then Some(Alert)
    else if t == "FATAL " then Some(Fatal)
    else if t == "EMERG " then Some(Emerg)
    else NoValue
  }

  /** The ten tags are distinct: the tag in a line identifies its level. */
  lemma TagRoundTrip(l: LogLevel)
    ensures TagLevel(LevelTag(l)) == Some(l)
  {
    match l
    case None =>
    case Debug =>
    case Info =>
    case Notice => assert "NOTICE"[2] != "NONE  "[2];
    case Warn =>
    case Error =>
    case Crit =>
    case Alert =>
    case Fatal =>
    case Emerg =>
  }

  /** printf's `%0<w>u` as bytes, a digit at a time from the right: the
      decimal digits of `n`, left-padded with '0' to at least `w` of them. */
  function Field(n: nat, w: nat): seq<byte>
    decreases n + w
  {
    var rest := if n >= 10 || w > 1 then Field(n / 10, if w > 0 then w - 1 else 0) else [];
    rest + [DigitByte(n % 10)]
  }

  /** A value below `10^w` prints exactly `w` digits. */
  lemma {:induction false} FieldLength(n: nat, w: nat)
    requires 1 <= w && n < Pow10(w)
    ensures |Field(n, w)| == w
    decreases w
  {
    if w > 1 {
      assert Pow10(w) == 10 * Pow10(w - 1);
      assert n / 10 < Pow10(w - 1);
      FieldLength(n / 10, w - 1);
    } else {
      assert Pow10(1) == 10;
    }
  }

  /** The field is the ASCII text of `ZeroPadded`: zeros, then `n`'s decimal digits. */
  lemma {:induction false} FieldIsZeroPadded(n: nat, w: nat)
    ensures Field(n, w) == DigitBytes(ZeroPadded(n, w))
    decreases n + w
  {
    if n >= 10 || w > 1 {
      var w' := if w > 0 then w - 1 else 0;
      FieldIsZeroPadded(n / 10, w');
      ZeroPaddedSplit(n, w);
      DigitBytesSnoc(ZeroPadded(n / 10, w'), n % 10);
    } else {
      assert ZeroPadded(n, w) == [DigitChar(n)];
      assert DigitBytes([DigitChar(n)])[0] == DigitByte(n);
    }
  }

  /** The seven timestamp fields, in print order. */
  function TimeValues(st: SystemTime): seq<nat> {
    [st.year as nat, st.month as nat, st.day as nat, st.hour as nat, st.minute as nat,
     st.second as nat, st.milliseconds as nat]
  }

  /** Their widths in "%04u-%02u-%02u %02u:%02u:%02u,%03u". */
  const TimeWidths: seq<nat> := [4, 2, 2, 2, 2, 2, 3]

  /** The text between consecutive fields: "-", "-", " ", ":", ":", ",". */
  const TimeSeparators: seq<byte> := [DASH, DASH, SPACE, COLON, COLON, COMMA]

  /** Fields `vs` printed at widths `ws`, field `i + 1` preceded by separator `i`. */
  function Fields(vs: seq<nat>, ws: seq<nat>, seps: seq<byte>): seq<byte>
    requires |vs| == |ws| == |seps| + 1
    decreases |seps|
  {
    var k := |seps|;
    if k == 0 then Field(vs[0], ws[0])
    else Fields(vs[..k], ws[..k], seps[..k - 1]) + [seps[k - 1]] + Field(vs[k], ws[k])
  }

  function Sum(ws: seq<nat>): nat {
    if ws == [] then 0 else Sum(ws[..|ws| - 1]) + ws[|ws| - 1]
  }

  /** Values that fit their widths print exactly as wide as the widths and separators together. */
  lemma {:induction false} FieldsLength(vs: seq<nat>, ws: seq<nat>, seps: seq<byte>)
    requires |vs| == |ws| == |seps| + 1
    requires forall i :: 0 <= i < |vs| ==> 1 <= ws[i] && vs[i] < Pow10(ws[i])
    ensures |Fields(vs, ws, seps)| == Sum(ws) + |seps|
    decreases |seps|
  {
    var k := |seps|;
    FieldLength(vs[k], ws[k]);
    if k == 0 {
      assert ws[..0] == [];
    } else {
      FieldsLength(vs[..k], ws[..k], seps[..k - 1]);
    }
  }

  /** An in-range time fills each field's width exactly. */
  lemma TimeValuesFit(st: SystemTime)
    requires InRange(st)
    ensures var vs := TimeValues(st);
            forall i :: 0 <= i < |vs| ==> 1 <= TimeWidths[i] && vs[i] < Pow10(TimeWidths[i])
  {
    assert Pow10(2) == 100 && Pow10(3) == 1000 && Pow10(4) == 10000;
  }

  lemma TimeWidthsSum()
    ensures Sum(TimeWidths) + |TimeSeparators| == 23
  {
    assert Sum([4]) == 4 by { assert [4][..0] == []; }
    assert Sum([4, 2]) == 6 by { assert [4, 2][..1] == [4]; }
    assert Sum([4, 2, 2]) == 8 by { assert [4, 2, 2][..2] == [4, 2]; }
    assert Sum([4, 2, 2, 2]) == 10 by { assert [4, 2, 2, 2][..3] == [4, 2, 2]; }
    assert Sum([4, 2, 2, 2, 2]) == 12 by { assert [4, 2, 2, 2, 2][..4] == [4, 2, 2, 2]; }
    assert Sum([4, 2, 2, 2, 2, 2]) == 14 by { assert [4, 2, 2, 2, 2, 2][..5] == [4, 2, 2, 2, 2]; }
    assert TimeWidths[..6] == [4, 2, 2, 2, 2, 2];
  }

  /** The timestamp "%04u-%02u-%02u %02u:%02u:%02u,%03u". */
  function Timestamp(st: SystemTime): seq<byte>
  {
    Fields(TimeValues(st), TimeWidths, TimeSeparators)
  }

  lemma TimestampLength(st: SystemTime)
    requires InRange(st)
    ensures |Timestamp(st)| == 23
  {
    TimeValuesFit(st);
    TimeWidthsSum();
    FieldsLength(TimeValues(st), TimeWidths, TimeSeparators);
  }

  const DASH: byte := 0x2D
  const SPACE: byte := 0x20
  const COLON: byte := 0x3A
  const COMMA: byte := 0x2C
  const OPEN: seq<byte> := [0x20, 0x5B]            // " ["
  const MIDDLE: seq<byte> := [0x5D, 0x20, 0x5B]    // "] ["
  const CLOSE: seq<byte> := [0x5D, 0x20]           // "] "
  const SEPARATOR: seq<byte> := [0x20, 0x3A, 0x20] // " : "

  /** A SYSTEMTIME whose fields fill their printf widths exactly. */
  predicate InRange(st: SystemTime) {
    st.year < 10000 && st.month < 100 && st.day < 100 && st.hour < 100
    && st.minute < 100 && st.second < 100 && st.milliseconds < 1000
  }

  /** The six bytes of a level's tag. */
  function TagBytes(level: LogLevel): (b: seq<byte>)
    ensures |b| == 6
  {
    AsciiBytes(LevelTag(level))
  }

  /** The prefix `_PrepareLogLine` prints; `%s` stops at the name's first NUL. */
  function Prefix(level: LogLevel, name: seq<byte>, st: SystemTime, tid: u32): (p: seq<byte>)
    ensures InRange(st) ==> |p| == 39 + |DigitBytes(Decimal(tid as nat))| + |CString(name)|
  {
    var p := Assemble(Timestamp(st), TagBytes(level), DigitBytes(Decimal(tid as nat)), CString(name));
    if InRange(st) then TimestampLength(st); p else p
  }

  /** The format string's fixed text around its four fields. */
  function Assemble(ts: seq<byte>, tag: seq<byte>, tid: seq<byte>, name: seq<byte>): seq<byte> {
    ts + OPEN + tag + MIDDLE + tid + CLOSE + name + SEPARATOR
  }

  lemma AssembleLayout(ts: seq<byte>, tag: seq<byte>, tid: seq<byte>, name: seq<byte>)
    requires |ts| == 23 && |tag| == 6
    ensures var p := Assemble(ts, tag, tid, name);
            var d := |tid|;
            && |p| == 39 + d + |name|
            && p[..23] == ts
            && p[23..25] == OPEN
            && p[25..31] == tag
            && p[31..34] == MIDDLE
            && p[34..34 + d] == tid
            && p[34 + d..36 + d] == CLOSE
            && p[36 + d..36 + d + |name|] == name
            && p[36 + d + |name|..] == SEPARATOR
  {
  }

  /** Where the thread id sits, whatever the timestamp's bytes. */
  lemma ThreadIdAfterTag(ts: seq<byte>, level: LogLevel, name: seq<byte>, tid: u32)
    requires |ts| == 23
    ensures var t := DigitBytes(Decimal(tid as nat));
            Assemble(ts, TagBytes(level), t, CString(name))[34..34 + |t|] == t
  {
    AssembleLayout(ts, TagBytes(level), DigitBytes(Decimal(tid as nat)), CString(name));
  }

  /** Where the logger name sits, whatever the other fields' bytes. */
  lemma NameAfterThreadId(ts: seq<byte>, tag: seq<byte>, name: seq<byte>, t: seq<byte>)
    requires |ts| == 23 && |tag| == 6
    ensures Assemble(ts, tag, t, CString(name))[36 + |t|..36 + |t| + |CString(name)|] == CString(name)
  {
    AssembleLayout(ts, tag, t, CString(name));
  }

  /** A prefix starts with its 23-byte timestamp. */
  lemma PrefixStartsWithTimestamp(level: LogLevel, name: seq<byte>, st: SystemTime, tid: u32)
    requires InRange(st)
    ensures Prefix(level, name, st, tid)[..23] == Timestamp(st)
  {
    TimestampLength(st);
    AssembleLayout(Timestamp(st), TagBytes(level), DigitBytes(Decimal(tid as nat)), CString(name));
  }

  /** Columns 25-30 of a prefix hold the level's tag. */
  lemma PrefixTag(level: LogLevel, name: seq<byte>, st: SystemTime, tid: u32)
    requires InRange(st)
    ensures Prefix(level, name, st, tid)[25..31] == TagBytes(level)
  {
    TimestampLength(st);
    AssembleLayout(Timestamp(st), TagBytes(level), DigitBytes(Decimal(tid as nat)), CString(name));
  }

  /** The thread id's digits start at column 34. */
  lemma PrefixThreadId(level: LogLevel, name: seq<byte>, st: SystemTime, tid: u32)
    requires InRange(st)
    ensures var t := DigitBytes(Decimal(tid as nat));
            Prefix(level, name, st, tid)[34..34 + |t|] == t
  {
    TimestampLength(st);
    ThreadIdAfterTag(Timestamp(st), level, name, tid);
  }

  /** After the thread id and "] " comes the logger name up to its first NUL. */
  lemma PrefixNamesItsLogger(level: LogLevel, name: seq<byte>, st: SystemTime, tid: u32)
    requires InRange(st)
    ensures var d := |DigitBytes(Decimal(tid as nat))|;
            Prefix(level, name, st, tid)[36 + d..36 + d + |CString(name)|] == CString(name)
  {
    TimestampLength(st);
    NameAfterThreadId(Timestamp(st), TagBytes(level), name, DigitBytes(Decimal(tid as nat)));
  }

  /** A prefix ends with " : ", after which the message follows. */
  lemma PrefixEndsWithSeparator(level: LogLevel, name: seq<byte>, st: SystemTime, tid: u32)
    requires InRange(st)
    ensures var p := Prefix(level, name, st, tid); p[|p| - 3..] == SEPARATOR
  {
    TimestampLength(st);
    AssembleLayout(Timestamp(st), TagBytes(level), DigitBytes(Decimal(tid as nat)), CString(name));
  }

  /** The tag read back from a rendered prefix is the level it was rendered for. */
  lemma PrefixNamesItsLevel(level: LogLevel, name: seq<byte>, st: SystemTime, tid: u32, tag: string)
    requires InRange(st)
    requires IsAscii(tag) && AsciiBytes(tag) == Prefix(level, name, st, tid)[25..31]
    ensures TagLevel(tag) == Some(level)
  {
    PrefixTag(level, name, st, tid);
    assert tag == LevelTag(level) by {
      AsciiBytesInjective(tag, LevelTag(level));
    }
    TagRoundTrip(level);
  }

  /** The STRSAFE results the engine distinguishes. */
  datatype HResult = Ok | InsufficientBuffer | InvalidParameter | Failed

  datatype Rendered = Rendered(line: seq<byte>) | RenderFailed(hr: HResult)

  /** `_PrepareLogLine` with a buffer of `bufferSize` bytes: the prefix must fit
      together with its NUL terminator. */
  function PrepareLogLine(level: LogLevel, name: seq<byte>, st: SystemTime, tid: u32, bufferSize: nat): (r: Rendered)
    ensures r == RenderFailed(InvalidParameter) <==> !IsLoggable(level)
    ensures r == RenderFailed(InsufficientBuffer) <==>
              IsLoggable(level) && bufferSize < |Prefix(level, name, st, tid)| + 1
    ensures r.Rendered? ==> r.line == Prefix(level, name, st, tid) && |r.line| < bufferSize
    ensures r.Rendered? || r == RenderFailed(InvalidParameter) || r == RenderFailed(InsufficientBuffer)
  {
    if Ordinal(level) < 1 || Ordinal(level) > 9 then RenderFailed(InvalidParameter)
    else
      var p := Prefix(level, name, st, tid);
      if |p| + 1 > bufferSize then RenderFailed(InsufficientBuffer) else Rendered(p)
  }

  /** Level None never renders, and invalid-parameter is not the status that
      makes the engine grow its buffer: a None call writes nothing. */
  lemma NoneNeverRenders(name: seq<byte>, st: SystemTime, tid: u32, bufferSize: nat)
    ensures PrepareLogLine(None, name, st, tid, bufferSize) == RenderFailed(InvalidParameter)
    ensures InvalidParameter != InsufficientBuffer
  {
  }
}
