/**
  The shapes of the `sscanf` efun the mudlib uses: a format made of literal
  text and `%s` fields. The model fixes one reading of the efun: a literal
  must match at the current position; a `%s` followed by a literal takes the
  text up to the FIRST later occurrence of that literal (possibly empty) and
  fails when there is none; a `%s` at the end of the format takes the rest of
  the input. The efun's result is the number of fields it assigned before the
  first failure.
 */
module Sscanf {
  import opened Lpc

  datatype Piece = Lit(text: string) | Field

  /** Literal text and `%s` fields alternate (the formats the mudlib uses have this shape). */
  predicate WellFormed(fmt: seq<Piece>) {
    forall i :: 0 <= i < |fmt| - 1 ==> fmt[i].Field? != fmt[i + 1].Field?
  }

  function Fields(fmt: seq<Piece>): nat {
    if fmt == [] then 0 else (if fmt[0].Field? then 1 else 0) + Fields(fmt[1..])
  }

  /** The values `sscanf(s, fmt, ...)` assigns, in order; their number is its result. */
  function Scan(s: string, fmt: seq<Piece>): (vals: seq<string>)
    requires WellFormed(fmt)
    ensures |vals| <= Fields(fmt)
    decreases |fmt|
  {
    if fmt == [] then []
    else
      WellFormedTail(fmt);
      match fmt[0]
      case Lit(l) => if IsPrefix(l, s) then Scan(s[|l|..], fmt[1..]) else []
      case Field =>
        if |fmt| == 1 then [s]
        else
          match FindFirst(s, fmt[1].text)
          case None => []
          case Some(i) => [s[..i]] + Scan(s[i..], fmt[1..])
  }

  /** The text that reads back as `vals` under `fmt`: literals and values in order. */
  function Print(fmt: seq<Piece>, vals: seq<string>): string
    requires |vals| == Fields(fmt)
    decreases |fmt|
  {
    if fmt == [] then ""
    else match fmt[0]
      case Lit(l) => l + Print(fmt[1..], vals)
      case Field => vals[0] + Print(fmt[1..], vals[1..])
  }

  /** Each value ends where the first occurrence of the literal after it begins. */
  predicate Separated(fmt: seq<Piece>, vals: seq<string>)
    requires |vals| == Fields(fmt)
    decreases |fmt|
  {
    fmt == [] ||
    match fmt[0]
    case Lit(_) => Separated(fmt[1..], vals)
    case Field =>
      && (|fmt| > 1 && fmt[1].Lit? ==> FindFirst(vals[0] + fmt[1].text, fmt[1].text) == Some(|vals[0]|))
      && Separated(fmt[1..], vals[1..])
  }

  lemma {:induction false} MatchAgree(s: string, t: string, l: string, j: nat, n: nat)
    requires j + |l| <= n <= |s| && n <= |t| && s[..n] == t[..n]
    ensures MatchAt(s, l, j) == MatchAt(t, l, j)
  {
    assert s[j..j + |l|] == s[..n][j..j + |l|];
    assert t[j..j + |l|] == t[..n][j..j + |l|];
  }

  /** Texts that agree up to `n` have the same matches ending by `n`. */
  lemma {:induction false} NoEarlierMatch(s: string, t: string, l: string, k: nat, n: nat)
    requires k + |l| <= n <= |s| && n <= |t| && s[..n] == t[..n]
    requires forall i: nat :: i < k ==> !MatchAt(s, l, i)
    ensures forall i: nat :: i < k ==> !MatchAt(t, l, i)
  {
    forall i: nat | i < k
      ensures !MatchAt(t, l, i)
    {
      MatchAgree(s, t, l, i, n);
    }
  }

  lemma {:induction false} FirstMatchKept(s: string, t: string, l: string, k: nat)
    requires k + |l| <= |s| && k + |l| <= |t|
    requires s[..k + |l|] == t[..k + |l|]
    requires FindFirst(s, l) == Some(k)
    ensures MatchAt(t, l, k)
  {
    MatchAgree(s, t, l, k, k + |l|);
  }

  lemma {:induction false} NoEarlierMatchKept(s: string, t: string, l: string, k: nat)
    requires k + |l| <= |s| && k + |l| <= |t|
    requires s[..k + |l|] == t[..k + |l|]
    requires FindFirst(s, l) == Some(k)
    ensures forall i: nat :: i < k ==> !MatchAt(t, l, i)
  {
    NoEarlierMatch(s, t, l, k, k + |l|);
  }

  /** Two texts that agree up to the end of the first match of `l` agree on where it is. */
  lemma {:induction false} SameFirstMatch(s: string, t: string, l: string, k: nat)
    requires k + |l| <= |s| && k + |l| <= |t|
    requires s[..k + |l|] == t[..k + |l|]
    requires FindFirst(s, l) == Some(k)
    ensures FindFirst(t, l) == Some(k)
  {
    FirstMatchKept(s, t, l, k);
    NoEarlierMatchKept(s, t, l, k);
    FirstMatchAt(t, l, k);
  }

  lemma {:induction false} WellFormedTail(fmt: seq<Piece>)
    requires fmt != [] && WellFormed(fmt)
    ensures WellFormed(fmt[1..])
  {
    forall i | 0 <= i < |fmt[1..]| - 1
      ensures fmt[1..][i].Field? != fmt[1..][i + 1].Field?
    {
      assert fmt[1..][i] == fmt[i + 1] && fmt[1..][i + 1] == fmt[i + 2];
    }
  }

  // One-step unfoldings of Scan, Print and Separated.

  lemma {:induction false} ScanLitStep(s: string, fmt: seq<Piece>)
    requires WellFormed(fmt) && fmt != [] && fmt[0].Lit?
    ensures WellFormed(fmt[1..])
    ensures Scan(s, fmt) == if IsPrefix(fmt[0].text, s) then Scan(s[|fmt[0].text|..], fmt[1..]) else []
  {
    WellFormedTail(fmt);
  }

  lemma {:induction false} ScanFieldStep(s: string, fmt: seq<Piece>)
    requires WellFormed(fmt) && |fmt| > 1 && fmt[0].Field?
    ensures WellFormed(fmt[1..]) && fmt[1].Lit?
    ensures Scan(s, fmt) == match FindFirst(s, fmt[1].text)
      case None => []
      case Some(i) => [s[..i]] + Scan(s[i..], fmt[1..])
  {
    WellFormedTail(fmt);
  }

  lemma {:induction false} PrintLitStep(fmt: seq<Piece>, vals: seq<string>)
    requires |vals| == Fields(fmt) && fmt != [] && fmt[0].Lit?
    ensures |vals| == Fields(fmt[1..])
    ensures Print(fmt, vals) == fmt[0].text + Print(fmt[1..], vals)
    ensures Separated(fmt, vals) == Separated(fmt[1..], vals)
  {
  }

  lemma {:induction false} PrintFieldStep(fmt: seq<Piece>, vals: seq<string>)
    requires |vals| == Fields(fmt) && fmt != [] && fmt[0].Field?
    ensures vals != [] && |vals[1..]| == Fields(fmt[1..])
    ensures Print(fmt, vals) == vals[0] + Print(fmt[1..], vals[1..])
    ensures Separated(fmt, vals) ==
      ((|fmt| > 1 && fmt[1].Lit? ==> FindFirst(vals[0] + fmt[1].text, fmt[1].text) == Some(|vals[0]|))
       && Separated(fmt[1..], vals[1..]))
  {
  }

  lemma {:induction false} PrefixJoin(a: string, p: string, r: string)
    requires IsPrefix(p, r)
    ensures IsPrefix(a + p, a + r)
  {
    assert (a + r)[..|a + p|] == a + r[..|p|];
  }

  /** Printing values and scanning the text back gives the same values. */
  lemma {:induction false} ScanPrint(fmt: seq<Piece>, vals: seq<string>)
    requires WellFormed(fmt) && |vals| == Fields(fmt) && Separated(fmt, vals)
    ensures Scan(Print(fmt, vals), fmt) == vals
    decreases |fmt|
  {
    if fmt != [] {
      var s := Print(fmt, vals);
      if fmt[0].Lit? {
        var l := fmt[0].text;
        PrintLitStep(fmt, vals);
        ScanLitStep(s, fmt);
        assert s[..|l|] == l && s[|l|..] == Print(fmt[1..], vals);
        ScanPrint(fmt[1..], vals);
      } else if |fmt| == 1 {
        assert s == vals[0] + Print([], vals[1..]);
        assert s == vals[0];
      } else {
        PrintFieldStep(fmt, vals);
        ScanFieldStep(s, fmt);
        var v, rest := vals[0], Print(fmt[1..], vals[1..]);
        var l := fmt[1].text;
        PrintLitStep(fmt[1..], vals[1..]);
        assert rest == l + Print(fmt[1..][1..], vals[1..]);
        assert s[..|v| + |l|] == v + l;
        SameFirstMatch(v + l, s, l, |v|);
        assert s[..|v|] == v && s[|v|..] == rest;
        ScanPrint(fmt[1..], vals[1..]);
      }
    }
  }

  /** The shape a full scan guarantees. */
  predicate ReadsBack(s: string, fmt: seq<Piece>, vals: seq<string>)
    requires |vals| == Fields(fmt)
  {
    && Separated(fmt, vals)
    && IsPrefix(Print(fmt, vals), s)
    && (fmt != [] && fmt[|fmt| - 1].Field? ==> Print(fmt, vals) == s)
  }

  /**
    A scan that fills every field (and has at least one) read its values from
    a text that begins with the printed shape, and is that text exactly when
    the format ends with a field.
   */
  lemma {:induction false} ScanSound(s: string, fmt: seq<Piece>)
    requires WellFormed(fmt)
    ensures var vals := Scan(s, fmt);
      0 < Fields(fmt) == |vals| ==> ReadsBack(s, fmt, vals)
    decreases |fmt|, 2
  {
    if fmt != [] {
      if fmt[0].Lit? {
        ScanSoundLit(s, fmt);
      } else if |fmt| == 1 {
        var vals := Scan(s, fmt);
        assert vals == [s];
        assert Print(fmt, vals) == s + Print([], []);
        assert Separated(fmt, vals);
      } else {
        ScanSoundField(s, fmt);
      }
    }
  }

  lemma {:induction false} ScanSoundLit(s: string, fmt: seq<Piece>)
    requires WellFormed(fmt) && fmt != [] && fmt[0].Lit?
    ensures var vals := Scan(s, fmt);
      0 < Fields(fmt) == |vals| ==> ReadsBack(s, fmt, vals)
    decreases |fmt|, 0
  {
    var l := fmt[0].text;
    var vals := Scan(s, fmt);
    ScanLitStep(s, fmt);
    if 0 < Fields(fmt) == |vals| {
      PrintLitStep(fmt, vals);
      var rest := s[|l|..];
      assert vals == Scan(rest, fmt[1..]);
      ScanSound(rest, fmt[1..]);
      assert s == l + rest;
      PrefixJoin(l, Print(fmt[1..], vals), rest);
      assert fmt[1..][|fmt[1..]| - 1] == fmt[|fmt| - 1];
    }
  }

  lemma {:induction false} ScanSoundField(s: string, fmt: seq<Piece>)
    requires WellFormed(fmt) && |fmt| > 1 && fmt[0].Field?
    ensures var vals := Scan(s, fmt);
      Fields(fmt) == |vals| ==> ReadsBack(s, fmt, vals)
    decreases |fmt|, 1
  {
    if |Scan(s, fmt)| == Fields(fmt) {
      var i := FieldSplit(s, fmt);
      var tail := Scan(s[i..], fmt[1..]);
      FieldTail(s, fmt, i, tail);
      assert s == s[..i] + s[i..];
      FieldJoin(fmt, s[..i], s[i..], tail);
    }
  }

  /** A field that is filled ends where the first occurrence of the next literal begins. */
  lemma {:induction false} FieldSplit(s: string, fmt: seq<Piece>) returns (i: nat)
    requires WellFormed(fmt) && |fmt| > 1 && fmt[0].Field? && |Scan(s, fmt)| == Fields(fmt)
    ensures WellFormed(fmt[1..]) && fmt[1].Lit?
    ensures i <= |s| && MatchAt(s, fmt[1].text, i)
    ensures FindFirst(s[..i] + fmt[1].text, fmt[1].text) == Some(i)
    ensures Scan(s, fmt) == [s[..i]] + Scan(s[i..], fmt[1..])
    ensures |Scan(s[i..], fmt[1..])| == Fields(fmt[1..])
  {
    var l := fmt[1].text;
    assert WellFormed(fmt[1..]) && fmt[1].Lit? && FindFirst(s, l).Some? by {
      ScanFieldStep(s, fmt);
    }
    i := FindFirst(s, l).value;
    assert Scan(s, fmt) == [s[..i]] + Scan(s[i..], fmt[1..]) by {
      ScanFieldStep(s, fmt);
    }
    FirstMatchPrefix(s, l, i);
  }

  /** The first match of `l` in `s` is also the first in the text cut just after it. */
  lemma {:induction false} FirstMatchPrefix(s: string, l: string, i: nat)
    requires FindFirst(s, l) == Some(i)
    ensures i + |l| <= |s| && FindFirst(s[..i] + l, l) == Some(i)
  {
    assert MatchAt(s, l, i);
    var t := s[..i] + l;
    assert s[..i + |l|] == t by {
      assert s[..i + |l|] == s[..i] + s[i..i + |l|];
    }
    SameFirstMatch(s, t, l, i);
  }

  /** A value separated from the literal after it, followed by a text that reads back. */
  lemma {:induction false} FieldJoin(fmt: seq<Piece>, v: string, rest: string, tail: seq<string>)
    requires |fmt| > 1 && fmt[0].Field? && fmt[1].Lit? && |tail| == Fields(fmt[1..])
    requires FindFirst(v + fmt[1].text, fmt[1].text) == Some(|v|)
    requires ReadsBack(rest, fmt[1..], tail)
    ensures ReadsBack(v + rest, fmt, [v] + tail)
  {
    var vals := [v] + tail;
    assert vals[0] == v && vals[1..] == tail;
    PrintFieldStep(fmt, vals);
    PrefixJoin(v, Print(fmt[1..], tail), rest);
    assert fmt[1..][|fmt[1..]| - 1] == fmt[|fmt| - 1];
  }

  /** What the rest of a scan after a field guarantees about the rest of the text. */
  lemma {:induction false} FieldTail(s: string, fmt: seq<Piece>, i: nat, tail: seq<string>)
    requires WellFormed(fmt) && |fmt| > 1 && fmt[0].Field? && fmt[1].Lit?
    requires i <= |s| && MatchAt(s, fmt[1].text, i)
    requires tail == Scan(s[i..], fmt[1..]) && |tail| == Fields(fmt[1..])
    ensures ReadsBack(s[i..], fmt[1..], tail)
    decreases |fmt|, 0
  {
    WellFormedTail(fmt);
    var l := fmt[1].text;
    var f := fmt[1..];
    PrintLitStep(f, tail);
    if |fmt| == 2 {
      assert f[1..] == [] && tail == [];
      assert Print(f, tail) == l + Print([], []);
      assert s[i..][..|l|] == l;
      assert Separated(f[1..], tail);
    } else {
      ScanSoundLit(s[i..], f);
      assert f[|f| - 1] == fmt[|fmt| - 1];
    }
  }
}
