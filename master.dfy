/**
  The concrete master object (secure/master.c): a fully open policy. Each
  driver hook is a function of the hook's arguments returning the LPC value the
  master hands back; its contract says what the driver makes of that value
  under the conventions of MasterConventions. The error hooks compute the text
  they show and append to a log file; the text is given with a parser that
  reads its parts back.
 */
module Master {
  import opened Lpc
  import opened Sscanf
  import opened MasterConventions

  /**
    ROOT_EUID. The header that defines it is not part of this model; the
    master itself uses the euid "Root" when it evaluates input as root.
   */
  const RootEuid: string := "Root"

  function GetRootUid(): (u: string)
    ensures u == RootEuid
  {
    RootEuid
  }

  function GetBbUid(): (u: string)
    ensures u != GetRootUid()
  {
    "Backbone"
  }

  // ---------------------------------------------------------------------
  // The validators. Object arguments are given by their file names.

  function ValidSeteuid(obj: string, newEuid: string): (v: Value)
    ensures Permits(v)
  {
    Int(1)
  }

  function ValidShadow(obj: string): (v: Value)
    ensures Permits(v)
  {
    Int(1)
  }

  /** Every read goes ahead, on the path exactly as the caller gave it. */
  function ValidRead(path: string, euid: Option<string>, fun: string, caller: string): (v: Value)
    ensures DecodeFileAccess(v) == Unchanged
    ensures OperatedPath(path, DecodeFileAccess(v)) == Some(path)
  {
    Int(1)
  }

  /** Every write goes ahead, on the path exactly as the caller gave it. */
  function ValidWrite(path: string, euid: Option<string>, fun: string, caller: string): (v: Value)
    ensures DecodeFileAccess(v) == Unchanged
    ensures OperatedPath(path, DecodeFileAccess(v)) == Some(path)
  {
    Int(1)
  }

  /** `name` is the program (not the object) that calls exec(). */
  function ValidExec(name: string): (v: Value)
    ensures Permits(v)
  {
    Int(1)
  }

  function ValidHide(who: string): (v: Value)
    ensures !Permits(v)
  {
    Int(0)
  }

  /** No destruction is vetoed. */
  function PrepareDestruct(obj: string): (v: Value)
    ensures DecodePrepareDestruct(v) == Ready
  {
    Int(0)
  }

  /** Every new object gets a creator, and it is never the backbone uid. */
  function CreatorFile(obj: string): (v: Value)
    ensures v.Str? && v.s != GetBbUid()
  {
    Str("foo")
  }

  function DomainFile(obj: string): (v: Value)
    ensures Truthy(v)
  {
    Str("foo")
  }

  function AuthorFile(obj: string): (v: Value)
    ensures Truthy(v)
  {
    Str("foo")
  }

  /** No object is refused for want of a creator, and every one is owned by "foo". */
  lemma {:induction false} EveryCreationOwnedByFoo(obj: string, loaderUid: string)
    ensures ResolveCreation(CreatorFile(obj), GetBbUid(), loaderUid) == Owned("foo")
  {
  }

  /** The master's include pattern. */
  const IncludeDirs: seq<string> := ["/include/%s"]

  lemma {:induction false} IncludeLookup(name: string)
    ensures IncludeCandidate(IncludeDirs[0], name) == Some("/include/" + name)
  {
    assert IncludeDirs[0] == "/include/" + "%s";
    IncludeCandidateOfDir("/include/", name);
  }

  // ---------------------------------------------------------------------
  // Error reports

  /** A line of text appended to a log file. */
  datatype LogEntry = LogEntry(file: string, text: string)

  /** What an error hook shows to the current player and what it logs. */
  datatype Report = Report(shown: string, log: LogEntry)

  /** The text runtime_error builds: `curobj:prg:line`, a newline, then the message. */
  function RuntimeErrorText(err: string, prg: string, curobj: string, line: int): string {
    curobj + ":" + prg + ":" + Decimal(line) + "\n" + err
  }

  /** The same text is shown and appended to runtime.err. */
  function RuntimeError(err: string, prg: string, curobj: string, line: int): (r: Report)
    ensures r.shown == r.log.text == RuntimeErrorText(err, prg, curobj, line)
    ensures r.log.file == "runtime.err"
  {
    var mess := RuntimeErrorText(err, prg, curobj, line);
    Report(mess, LogEntry("runtime.err", mess))
  }

  datatype RuntimeFields = RuntimeFields(curobj: string, prg: string, line: int, err: string)

  /** Reads a runtime error text back into the object, program, line and message. */
  function ParseRuntimeErrorText(t: string): Option<RuntimeFields> {
    match SplitFirst(t, ':')
    case None => None
    case Some((curobj, r1)) =>
      match SplitFirst(r1, ':')
      case None => None
      case Some((prg, r2)) =>
        match SplitFirst(r2, '\n')
        case None => None
        case Some((lineText, err)) =>
          match ParseDecimal(lineText)
          case None => None
          case Some(line) => Some(RuntimeFields(curobj, prg, line, err))
  }

  /**
    The text keeps the executed program apart from the offending object: both,
    the line and the whole message come back out of it.
   */
  lemma {:induction false} RuntimeErrorTextRoundTrip(err: string, prg: string, curobj: string, line: int)
    requires ':' !in curobj && ':' !in prg
    ensures ParseRuntimeErrorText(RuntimeErrorText(err, prg, curobj, line)) ==
      Some(RuntimeFields(curobj, prg, line, err))
  {
    var d := Decimal(line);
    DecimalSeparators(line);
    var r2 := d + "\n" + err;
    var r1 := prg + ":" + r2;
    assert RuntimeErrorText(err, prg, curobj, line) == curobj + [':'] + r1;
    SplitFirstJoin(curobj, ':', r1);
    assert r1 == prg + [':'] + r2;
    SplitFirstJoin(prg, ':', r2);
    assert r2 == d + ['\n'] + err;
    SplitFirstJoin(d, '\n', err);
    DecimalRoundTrip(line);
  }

  /** The text log_error builds: the file name, a newline, then the message. */
  function LogErrorText(file: string, err: string): string {
    file + "\n" + err
  }

  /** The same text is shown and appended to compile.err. */
  function LogError(file: string, err: string): (r: Report)
    ensures r.shown == r.log.text == LogErrorText(file, err)
    ensures r.log.file == "compile.err"
  {
    var mess := LogErrorText(file, err);
    Report(mess, LogEntry("compile.err", mess))
  }

  /** The file name and the message read back from a compile error text. */
  lemma {:induction false} LogErrorTextRoundTrip(file: string, err: string)
    requires '\n' !in file
    ensures SplitFirst(LogErrorText(file, err), '\n') == Some((file, err))
  {
    SplitFirstJoin(file, '\n', err);
  }

  /** What heart_beat_error returns and logs. */
  datatype HeartBeatReport = HeartBeatReport(result: Value, log: LogEntry)

  /**
    The text heart_beat_error logs: culprit, message, program, offending object
    and line, each followed by a newline. Program and object may be 0.
   */
  function HeartBeatText(culprit: string, err: string, prg: Option<string>, curobj: Option<string>, line: int): string {
    culprit + "\n" + err + "\n" + OrZero(prg) + "\n" + OrZero(curobj) + "\n" + Decimal(line) + "\n"
  }

  /** The heart beat is never restarted; the error goes to the heart_beat log. */
  function HeartBeatError(culprit: string, err: string, prg: Option<string>, curobj: Option<string>, line: int): (r: HeartBeatReport)
    ensures !RestartsHeartBeat(r.result)
    ensures r.log == LogEntry("heart_beat", HeartBeatText(culprit, err, prg, curobj, line))
  {
    HeartBeatReport(Int(0), LogEntry("heart_beat", HeartBeatText(culprit, err, prg, curobj, line)))
  }

  datatype HeartBeatFields = HeartBeatFields(culprit: string, err: string, prg: string, curobj: string, line: int)

  /**
    Reads a heart beat log text back: the culprit up to the first newline, the
    line, object and program from the last three, the message (which may hold
    newlines of its own) in between.
   */
  function ParseHeartBeatText(t: string): Option<HeartBeatFields> {
    if t == [] || t[|t| - 1] != '\n' then None
    else
      match SplitFirst(t[..|t| - 1], '\n')
      case None => None
      case Some((culprit, rest)) =>
        match SplitLast(rest, '\n')
        case None => None
        case Some((r1, lineText)) =>
          match SplitLast(r1, '\n')
          case None => None
          case Some((r2, curobj)) =>
            match SplitLast(r2, '\n')
            case None => None
            case Some((err, prg)) =>
              match ParseDecimal(lineText)
              case None => None
              case Some(line) => Some(HeartBeatFields(culprit, err, prg, curobj, line))
  }

  lemma {:induction false} HeartBeatTextRoundTrip(culprit: string, err: string, prg: Option<string>, curobj: Option<string>, line: int)
    requires '\n' !in culprit && '\n' !in OrZero(prg) && '\n' !in OrZero(curobj)
    ensures ParseHeartBeatText(HeartBeatText(culprit, err, prg, curobj, line)) ==
      Some(HeartBeatFields(culprit, err, OrZero(prg), OrZero(curobj), line))
  {
    DecimalSeparators(line);
    DecimalRoundTrip(line);
    HeartBeatFieldsJoin(culprit, err, OrZero(prg), OrZero(curobj), Decimal(line), line);
  }

  /** Fields without newlines (the message may hold some) come back out of the joined text. */
  lemma {:induction false} HeartBeatFieldsJoin(culprit: string, err: string, p: string, c: string, d: string, line: int)
    requires '\n' !in culprit && '\n' !in p && '\n' !in c && '\n' !in d
    requires ParseDecimal(d) == Some(line)
    ensures ParseHeartBeatText(culprit + "\n" + err + "\n" + p + "\n" + c + "\n" + d + "\n") ==
      Some(HeartBeatFields(culprit, err, p, c, line))
  {
    var r2 := err + "\n" + p;
    var r1 := r2 + "\n" + c;
    var rest := r1 + "\n" + d;
    var t := culprit + "\n" + err + "\n" + p + "\n" + c + "\n" + d + "\n";
    assert t == culprit + ['\n'] + rest + "\n";
    assert t[..|t| - 1] == culprit + ['\n'] + rest;
    SplitFirstJoin(culprit, '\n', rest);
    assert rest == r1 + ['\n'] + d;
    SplitLastJoin(r1, '\n', d);
    assert r1 == r2 + ['\n'] + c;
    SplitLastJoin(r2, '\n', c);
    assert r2 == err + ['\n'] + p;
    SplitLastJoin(err, '\n', p);
  }

  /** `CRASHED on: %s ERROR: %s\n` */
  const CrashFormat: seq<Piece> := [Lit("CRASHED on: "), Field, Lit(" ERROR: "), Field, Lit("\n")]

  /** What crash() logs; `now` is the text ctime(time()) gives, a parameter here. */
  function Crash(error: string, now: string): (e: LogEntry)
    ensures e.file == "crashes"
    ensures WellFormed(CrashFormat) && Fields(CrashFormat) == 2
    ensures e.text == Print(CrashFormat, [now, error])
  {
    CrashFormatShape([now, error]);
    LogEntry("crashes", "CRASHED on: " + now + " ERROR: " + error + "\n")
  }

  lemma {:induction false} CrashFormatShape(vals: seq<string>)
    requires |vals| == 2
    ensures WellFormed(CrashFormat) && Fields(CrashFormat) == 2
    ensures Print(CrashFormat, vals) == "CRASHED on: " + vals[0] + " ERROR: " + vals[1] + "\n"
    ensures Separated(CrashFormat, vals) <==>
      FindFirst(vals[0] + " ERROR: ", " ERROR: ") == Some(|vals[0]|) && FindFirst(vals[1] + "\n", "\n") == Some(|vals[1]|)
  {
    var f := CrashFormat;
    assert f[1..] == [Field, Lit(" ERROR: "), Field, Lit("\n")];
    assert f[2..] == [Lit(" ERROR: "), Field, Lit("\n")];
    assert f[3..] == [Field, Lit("\n")];
    assert f[4..] == [Lit("\n")];
    assert f[4..][1..] == [];
    assert vals[1..][1..] == [] && vals[2..] == [];
    var p4 := Print(f[4..], vals[2..]);
    assert p4 == "\n" + Print(f[4..][1..], vals[2..]);
    assert p4 == "\n";
    var p3 := Print(f[3..], vals[1..]);
    assert p3 == vals[1] + p4;
    var p2 := Print(f[2..], vals[1..]);
    assert p2 == " ERROR: " + p3;
    var p1 := Print(f[1..], vals);
    assert p1 == vals[0] + p2;
    assert Separated(f[4..], vals[2..]);
  }

  /**
    A crash entry is read back by `sscanf(entry, "CRASHED on: %s ERROR: %s\n")`
    when the time text holds no " ERROR: " and the error text no newline.
   */
  lemma {:induction false} CrashRoundTrip(error: string, now: string)
    requires FindFirst(now + " ERROR: ", " ERROR: ") == Some(|now|)
    requires '\n' !in error
    ensures WellFormed(CrashFormat)
    ensures Scan(Crash(error, now).text, CrashFormat) == [now, error]
  {
    CrashFormatShape([now, error]);
    SeparatorAfter(error, '\n');
    ScanPrint(CrashFormat, [now, error]);
  }
}
