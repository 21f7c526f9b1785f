/**
  How the driver reads what the master object returns: the result conventions
  of privilege_violation, valid_read/valid_write, prepare_destruct,
  heart_beat_error, the yes/no validators and creator_file (with the
  backbone-uid exception), plus the master's `flag` command-line evaluator and
  the include-directory patterns of the master skeleton.
 */
module MasterConventions {
  import opened Lpc
  import opened Sscanf

  // ---------------------------------------------------------------------
  // privilege_violation

  /** The three outcomes the driver distinguishes for a privileged operation. */
  datatype Decision = Allowed | Misled | Violation

  /** >0 allows, 0 means the caller was probably misled, anything else is a violation. */
  function DecodePrivilege(v: Value): (d: Decision)
    ensures d == Allowed <==> v.Int? && v.n > 0
    ensures d == Misled <==> v == Int(0)
    ensures d == Violation <==> v.Str? || v.n < 0
  {
    match v
    case Int(n) => if n > 0 then Allowed else if n == 0 then Misled else Violation
    case Str(_) => Violation
  }

  /** A result the master can return to obtain each decision. */
  function EncodePrivilege(d: Decision): (v: Value)
    ensures DecodePrivilege(v) == d
  {
    match d
    case Allowed => Int(1)
    case Misled => Int(0)
    case Violation => Int(-1)
  }

  // ---------------------------------------------------------------------
  // valid_read / valid_write

  /** How a file operation may go ahead. */
  datatype Access = FullPath(path: string) | Unchanged | Denied

  /**
    A string is the full path to operate on, 1 means the path as given, 0 means
    not allowed. No other value is given a meaning; the model refuses them.
   */
  function DecodeFileAccess(v: Value): (a: Access)
    ensures a.FullPath? <==> v.Str?
    ensures a.FullPath? ==> a.path == v.s
    ensures a == Unchanged <==> v == Int(1)
    ensures v == Int(0) ==> a == Denied
  {
    match v
    case Str(p) => FullPath(p)
    case Int(n) => if n == 1 then Unchanged else Denied
  }

  /** A result the master can return to obtain each access. */
  function EncodeFileAccess(a: Access): (v: Value)
    ensures DecodeFileAccess(v) == a
  {
    match a
    case FullPath(p) => Str(p)
    case Unchanged => Int(1)
    case Denied => Int(0)
  }

  /** The file the operation then acts on, or None when it fails. */
  function OperatedPath(requested: string, a: Access): (p: Option<string>)
    ensures p.None? <==> a == Denied
    ensures a == Unchanged ==> p == Some(requested)
    ensures a.FullPath? ==> p == Some(a.path)
  {
    match a
    case FullPath(q) => Some(q)
    case Unchanged => Some(requested)
    case Denied => None
  }

  // ---------------------------------------------------------------------
  // prepare_destruct

  datatype DestructOutcome = Ready | Aborted | AbortedWithError(message: string)

  /** 0 means ready; any other value aborts; a string also raises it as an error. */
  function DecodePrepareDestruct(v: Value): (o: DestructOutcome)
    ensures o == Ready <==> v == Int(0)
    ensures o.AbortedWithError? <==> v.Str?
    ensures o.AbortedWithError? ==> o.message == v.s
  {
    match v
    case Int(n) => if n == 0 then Ready else Aborted
    case Str(m) => AbortedWithError(m)
  }

  function EncodePrepareDestruct(o: DestructOutcome): (v: Value)
    ensures DecodePrepareDestruct(v) == o
  {
    match o
    case Ready => Int(0)
    case Aborted => Int(1)
    case AbortedWithError(m) => Str(m)
  }

  // ---------------------------------------------------------------------
  // heart_beat_error, and the validators answering yes or no

  /** Anything other than 0 restarts the heart beat that the driver has turned off. */
  function RestartsHeartBeat(v: Value): (restart: bool)
    ensures restart <==> v != Int(0)
  {
    Truthy(v)
  }

  /**
    The yes/no validators: 0 refuses, anything else allows. The skeleton
    documents this for valid_exec and valid_seteuid; valid_hide and
    valid_shadow are read the same way.
   */
  function Permits(v: Value): (ok: bool)
    ensures ok <==> v != Int(0)
  {
    Truthy(v)
  }

  // ---------------------------------------------------------------------
  // creator_file and the backbone uid

  /** What becomes of a newly created object. */
  datatype Creation = Refused | Owned(uid: string)

  /**
    creator_file's result decides the new object's uid: 0 (anything but a
    string) refuses it and it is destructed again; the backbone uid is not kept
    but replaced by the uid of the object that cloned or loaded it.
   */
  function ResolveCreation(creator: Value, backboneUid: string, loaderUid: string): (c: Creation)
    ensures c == Refused <==> !creator.Str?
    ensures c.Owned? && creator.s != backboneUid ==> c.uid == creator.s
    ensures c.Owned? && creator.s == backboneUid ==> c.uid == loaderUid
  {
    match creator
    case Str(cuid) => Owned(if cuid == backboneUid then loaderUid else cuid)
    case Int(_) => Refused
  }

  /** A new object holds the backbone uid only when the object that made it held it. */
  lemma {:induction false} BackboneNeverOwnsItself(creator: Value, backboneUid: string, loaderUid: string)
    requires ResolveCreation(creator, backboneUid, loaderUid) == Owned(backboneUid)
    ensures loaderUid == backboneUid
  {
  }

  // ---------------------------------------------------------------------
  // flag

  /** `call %s %s %s` */
  const CallFormat: seq<Piece> := [Lit("call "), Field, Lit(" "), Field, Lit(" "), Field]

  /**
    What `flag(arg)` does. `rest` is None when sscanf left it unassigned (the
    LPC number 0), which the check `>= 2` would let through.
   */
  datatype FlagAction =
    | Shutdown
    | CallOther(obj: string, fun: string, rest: Option<string>)
    | UnknownFlag(arg: string)

  function Flag(arg: string): (a: FlagAction)
    ensures a == Shutdown <==> arg == "shutdown"
    ensures a.UnknownFlag? ==> a.arg == arg
  {
    if arg == "shutdown" then Shutdown
    else
      var vals := Scan(arg, CallFormat);
      if |vals| >= 2 then CallOther(vals[0], vals[1], if |vals| > 2 then Some(vals[2]) else None)
      else UnknownFlag(arg)
  }

  /**
    The text `flag` writes; `result` is the text `write` gives for what the
    called function returned.
   */
  function FlagOutput(a: FlagAction, result: string): (out: string)
    ensures out == "" <==> a == Shutdown
    ensures a.UnknownFlag? ==> out == "master: Unknown flag " + a.arg + "\n"
    ensures a.CallOther? ==> out == a.obj + "->" + a.fun + "(\"" + OrZero(a.rest) + "\") = " + result + "\n"
  {
    match a
    case Shutdown => ""
    case CallOther(obj, fun, rest) =>
      obj + "->" + fun + "(\"" + OrZero(rest) + "\") = " + result + "\n"
    case UnknownFlag(arg) => "master: Unknown flag " + arg + "\n"
  }

  lemma {:induction false} CallFormatWellFormed()
    ensures WellFormed(CallFormat) && Fields(CallFormat) == 3
  {
    var f := CallFormat;
    assert f[1..] == [Field, Lit(" "), Field, Lit(" "), Field];
    assert f[2..] == [Lit(" "), Field, Lit(" "), Field];
    assert f[3..] == [Field, Lit(" "), Field];
    assert f[4..] == [Lit(" "), Field];
    assert f[5..] == [Field];
  }

  /** A single-character separator is found right after a value that does not contain it. */
  lemma {:induction false} SeparatorAfter(v: string, c: char)
    requires c !in v
    ensures FindFirst(v + [c], [c]) == Some(|v|)
  {
    var t := v + [c];
    assert t[|v|..|v| + 1] == [c];
    forall i: nat | i < |v| ensures !MatchAt(t, [c], i) {
      assert t[i..i + 1] == [v[i]];
    }
    FirstMatchAt(t, [c], |v|);
  }

  /** A value containing the separator is not followed by its first occurrence. */
  lemma {:induction false} SeparatorInside(v: string, c: char)
    requires c in v
    ensures FindFirst(v + [c], [c]) != Some(|v|)
  {
    var t := v + [c];
    var i :| 0 <= i < |v| && v[i] == c;
    assert t[i..i + 1] == [c];
    assert MatchAt(t, [c], i);
  }

  /** Once sscanf has filled `obj` and `fun`, the final `%s` is always filled too. */
  lemma {:induction false} CallScanNeverTwo(arg: string)
    ensures WellFormed(CallFormat) && |Scan(arg, CallFormat)| != 2
  {
    CallFormatWellFormed();
    ScanLitStep(arg, CallFormat);
    if IsPrefix("call ", arg) {
      CallScanAfterCall(arg[5..]);
    }
  }

  /** After `call `: nothing, the object alone, or all three fields. */
  lemma {:induction false} CallScanAfterCall(t: string)
    ensures WellFormed(CallFormat[1..])
    ensures var n := |Scan(t, CallFormat[1..])|; n == 0 || n == 1 || n == 3
  {
    CallFormatWellFormed();
    var f1 := CallFormat[1..];
    assert f1 == [Field, Lit(" "), Field, Lit(" "), Field] && f1[1..] == CallFormat[2..];
    ScanFieldStep(t, f1);
    match FindFirst(t, " ")
    case None =>
    case Some(i) =>
      CallScanAfterObj(t[i..]);
  }

  /** After the object name: the blank, then nothing or the last two fields. */
  lemma {:induction false} CallScanAfterObj(u: string)
    requires u != [] && u[0] == ' '
    ensures WellFormed(CallFormat[2..])
    ensures var n := |Scan(u, CallFormat[2..])|; n == 0 || n == 2
  {
    CallFormatWellFormed();
    var f2 := CallFormat[2..];
    assert f2 == [Lit(" "), Field, Lit(" "), Field] && f2[1..] == CallFormat[3..];
    ScanLitStep(u, f2);
    assert IsPrefix(" ", u) by {
      assert u[..1] == [u[0]];
    }
    CallScanAfterFun(u[1..]);
  }

  /** The function name and the rest: both fields or neither. */
  lemma {:induction false} CallScanAfterFun(w: string)
    ensures WellFormed(CallFormat[3..])
    ensures var n := |Scan(w, CallFormat[3..])|; n == 0 || n == 2
  {
    CallFormatWellFormed();
    var f3 := CallFormat[3..];
    assert f3 == [Field, Lit(" "), Field] && f3[1..] == [Lit(" "), Field];
    ScanFieldStep(w, f3);
    match FindFirst(w, " ")
    case None =>
    case Some(j) =>
      var f4 := f3[1..];
      ScanLitStep(w[j..], f4);
      assert IsPrefix(" ", w[j..]);
      assert f4[1..] == [Field];
      assert Scan(w[j..][1..], f4[1..]) == [w[j..][1..]];
  }

  /** A text without the separator has no occurrence of it. */
  lemma {:induction false} SeparatorAbsent(v: string, c: char)
    requires c !in v
    ensures FindFirst(v, [c]) == None
  {
    forall j: nat
      ensures !MatchAt(v, [c], j)
    {
      if j + 1 <= |v| {
        assert v[j..j + 1] == [v[j]];
      }
    }
  }

  lemma {:induction false} CallFormatPrint(vals: seq<string>)
    requires |vals| == 3
    ensures Fields(CallFormat) == 3
    ensures Print(CallFormat, vals) == "call " + vals[0] + " " + vals[1] + " " + vals[2]
  {
    CallFormatWellFormed();
    var f := CallFormat;
    var v0, v1, v2 := vals[0], vals[1], vals[2];
    assert f[5..] == [Field] && f[6..] == [];
    var p5 := Print(f[5..], vals[2..]);
    assert p5 == v2 + Print(f[6..], vals[3..]) == v2;
    assert f[4..] == [Lit(" "), Field] && f[4..][1..] == f[5..];
    var p4 := Print(f[4..], vals[2..]);
    assert p4 == " " + p5;
    assert f[3..] == [Field, Lit(" "), Field] && f[3..][1..] == f[4..];
    assert vals[1..][1..] == vals[2..];
    var p3 := Print(f[3..], vals[1..]);
    assert p3 == v1 + p4;
    assert f[2..] == [Lit(" "), Field, Lit(" "), Field] && f[2..][1..] == f[3..];
    var p2 := Print(f[2..], vals[1..]);
    assert p2 == " " + p3;
    assert f[1..] == [Field, Lit(" "), Field, Lit(" "), Field] && f[1..][1..] == f[2..];
    var p1 := Print(f[1..], vals);
    assert p1 == v0 + p2;
    assert Print(f, vals) == "call " + p1;
  }

  lemma {:induction false} CallFormatSeparated(vals: seq<string>)
    requires |vals| == 3
    ensures Fields(CallFormat) == 3
    ensures Separated(CallFormat, vals) <==>
      FindFirst(vals[0] + " ", " ") == Some(|vals[0]|) && FindFirst(vals[1] + " ", " ") == Some(|vals[1]|)
  {
    CallFormatWellFormed();
    var f := CallFormat;
    assert f[1..] == [Field, Lit(" "), Field, Lit(" "), Field];
    assert f[2..] == [Lit(" "), Field, Lit(" "), Field];
    assert f[3..] == [Field, Lit(" "), Field];
    assert f[4..] == [Lit(" "), Field];
    assert f[5..] == [Field];
    assert f[6..] == [];
    assert vals[1..][1..] == vals[2..];
    assert Separated(f[5..], vals[2..]);
    assert Separated(f[3..], vals[1..]) <==> FindFirst(vals[1] + " ", " ") == Some(|vals[1]|);
  }

  /** `call <obj> <fun> <rest>` with no blank in obj or fun calls obj->fun(rest). */
  lemma {:induction false} FlagCallComplete(obj: string, fun: string, rest: string)
    requires ' ' !in obj && ' ' !in fun
    ensures Flag("call " + obj + " " + fun + " " + rest) == CallOther(obj, fun, Some(rest))
  {
    CallFormatWellFormed();
    var vals := [obj, fun, rest];
    SeparatorAfter(obj, ' ');
    SeparatorAfter(fun, ' ');
    CallFormatSeparated(vals);
    CallFormatPrint(vals);
    ScanPrint(CallFormat, vals);
    assert ("call " + obj)[0] == 'c';
  }

  /** Conversely, every flag read as a call has exactly that shape. */
  lemma {:induction false} FlagCallSound(arg: string)
    requires Flag(arg).CallOther?
    ensures var a := Flag(arg);
      && a.rest.Some?
      && ' ' !in a.obj && ' ' !in a.fun
      && arg == "call " + a.obj + " " + a.fun + " " + a.rest.value
  {
    CallFormatWellFormed();
    var vals := Scan(arg, CallFormat);
    CallScanNeverTwo(arg);
    ScanSound(arg, CallFormat);
    CallFormatSeparated(vals);
    CallFormatPrint(vals);
    if ' ' in vals[0] {
      SeparatorInside(vals[0], ' ');
    }
    if ' ' in vals[1] {
      SeparatorInside(vals[1], ' ');
    }
  }

  /**
    A complete call flag writes `obj->fun("rest") = `, the text of the result
    and a newline; every flag read as a call has that complete shape.
   */
  lemma {:induction false} FlagCallOutput(obj: string, fun: string, rest: string, result: string)
    requires ' ' !in obj && ' ' !in fun
    ensures FlagOutput(Flag("call " + obj + " " + fun + " " + rest), result) ==
      obj + "->" + fun + "(\"" + rest + "\") = " + result + "\n"
  {
    FlagCallComplete(obj, fun, rest);
  }

  /** `-fcall foo bar` without an argument is not a call: it is reported as unknown. */
  lemma {:induction false} FlagCallWithoutArgument(obj: string, fun: string)
    requires ' ' !in obj && ' ' !in fun
    ensures Flag("call " + obj + " " + fun) == UnknownFlag("call " + obj + " " + fun)
  {
    var arg := "call " + obj + " " + fun;
    CallScanPrefix(obj, fun);
    CallScanObj(obj, " " + fun);
    CallScanLastBlank(fun);
    FlagUnknown(arg);
  }

  /** A text that is not "shutdown" and fills fewer than two fields is an unknown flag. */
  lemma {:induction false} FlagUnknown(arg: string)
    requires arg != [] && arg[0] == 'c'
    requires WellFormed(CallFormat) && |Scan(arg, CallFormat)| < 2
    ensures Flag(arg) == UnknownFlag(arg)
  {
    assert arg != "shutdown" by {
      assert "shutdown"[0] == 's';
    }
  }

  /** sscanf past the literal `call `. */
  lemma {:induction false} CallScanPrefix(obj: string, fun: string)
    ensures WellFormed(CallFormat) && WellFormed(CallFormat[1..])
    ensures var arg := "call " + obj + " " + fun;
      && arg[0] == 'c'
      && Scan(arg, CallFormat) == Scan(obj + (" " + fun), CallFormat[1..])
  {
    CallFormatWellFormed();
    var t := obj + (" " + fun);
    JoinFour("call ", obj, " ", fun);
    ScanLitStep("call " + t, CallFormat);
    assert ("call " + t)[..5] == "call " && ("call " + t)[5..] == t;
  }

  lemma {:induction false} JoinFour(a: string, b: string, c: string, d: string)
    ensures a + b + c + d == a + (b + (c + d))
  {
  }

  /** The object name ends at the first blank. */
  lemma {:induction false} CallScanObj(obj: string, rest: string)
    requires ' ' !in obj && rest != [] && rest[0] == ' '
    ensures WellFormed(CallFormat[1..]) && WellFormed(CallFormat[2..])
    ensures Scan(obj + rest, CallFormat[1..]) == [obj] + Scan(rest, CallFormat[2..])
  {
    CallFormatWellFormed();
    var f1 := CallFormat[1..];
    assert f1 == [Field, Lit(" "), Field, Lit(" "), Field] && f1[1..] == CallFormat[2..];
    var t := obj + rest;
    ScanFieldStep(t, f1);
    assert t[..|obj| + 1] == obj + " ";
    SeparatorAfter(obj, ' ');
    SameFirstMatch(obj + " ", t, " ", |obj|);
    assert t[..|obj|] == obj && t[|obj|..] == rest;
  }

  /** After the object name, a blank and a function name without a blank leave the last field empty-handed. */
  lemma {:induction false} CallScanLastBlank(fun: string)
    requires ' ' !in fun
    ensures WellFormed(CallFormat[2..])
    ensures Scan(" " + fun, CallFormat[2..]) == []
  {
    CallFormatWellFormed();
    var f2 := CallFormat[2..];
    assert f2 == [Lit(" "), Field, Lit(" "), Field] && f2[1..] == CallFormat[3..];
    var u := " " + fun;
    ScanLitStep(u, f2);
    assert u[..1] == " " && u[1..] == fun;
    ScanFieldStep(fun, CallFormat[3..]);
    SeparatorAbsent(fun, ' ');
  }

  // ---------------------------------------------------------------------
  // define_include_dirs

  /** The master skeleton's include patterns, as written: "sys/%s" and "lib/%s" (no leading slash). */
  const SkeletonIncludeDirs: seq<string> := ["sys/%s", "lib/%s"]

  /** The file an `#include <name>` is looked for under a pattern: `%s` replaced by the name. */
  function IncludeCandidate(pattern: string, name: string): (r: Option<string>)
    ensures r.None? <==> FindFirst(pattern, "%s").None?
  {
    match FindFirst(pattern, "%s")
    case None => None
    case Some(i) => Some(pattern[..i] + name + pattern[i + 2..])
  }

  /** A pattern `dir%s` whose directory part holds no `%` looks the file up as `dir` + name. */
  lemma {:induction false} IncludeCandidateOfDir(dir: string, name: string)
    requires '%' !in dir
    ensures IncludeCandidate(dir + "%s", name) == Some(dir + name)
  {
    var p := dir + "%s";
    assert p[|dir|..|dir| + 2] == "%s";
    forall i: nat | i < |dir|
      ensures !MatchAt(p, "%s", i)
    {
      assert p[i] == dir[i];
      if i + 2 <= |p| {
        assert p[i..i + 2][0] == p[i];
      }
    }
    FirstMatchAt(p, "%s", |dir|);
    assert p[..|dir|] == dir && p[|dir| + 2..] == "";
    assert IncludeCandidate(p, name) == Some(p[..|dir|] + name + p[|dir| + 2..]);
    assert p[..|dir|] + name + p[|dir| + 2..] == dir + name;
  }

  /** The skeleton looks an include file up as "sys/<name>", then "lib/<name>". */
  lemma {:induction false} SkeletonIncludeLookup(name: string)
    ensures IncludeCandidate(SkeletonIncludeDirs[0], name) == Some("sys/" + name)
    ensures IncludeCandidate(SkeletonIncludeDirs[1], name) == Some("lib/" + name)
  {
    assert SkeletonIncludeDirs[0] == "sys/" + "%s";
    assert SkeletonIncludeDirs[1] == "lib/" + "%s";
    IncludeCandidateOfDir("sys/", name);
    IncludeCandidateOfDir("lib/", name);
  }
}
