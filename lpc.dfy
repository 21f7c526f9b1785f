/**
  Values and string operations of the LPC language that the mudlib relies on:
  the `mixed` results the master hands back to the driver, prefix search,
  splitting at a separator, the ASCII case efuns and the decimal text that
  `string + int` produces.
 */
module Lpc {

  datatype Option<+T> = None | Some(value: T)

  /** An LPC `mixed` value as the master returns it to the driver. */
  datatype Value = Int(n: int) | Str(s: string)

  /** LPC truth: only the number 0 is false; every string is true. */
  predicate Truthy(v: Value) {
    v != Int(0)
  }

  predicate IsPrefix(p: string, s: string) {
    |p| <= |s| && s[..|p|] == p
  }

  /** `l` occurs in `s` starting at position `j`. */
  predicate MatchAt(s: string, l: string, j: nat) {
    j + |l| <= |s| && s[j..j + |l|] == l
  }

  /** The first position at which `l` occurs in `s`. */
  function FindFirst(s: string, l: string): (r: Option<nat>)
    ensures r.Some? ==> MatchAt(s, l, r.value)
    ensures r.Some? ==> forall j: nat :: j < r.value ==> !MatchAt(s, l, j)
    ensures r.None? ==> forall j: nat :: !MatchAt(s, l, j)
    decreases |s|
  {
    if MatchAt(s, l, 0) then Some(0)
    else if s == [] then None
    else
      var tail := FindFirst(s[1..], l);
      assert forall j: nat :: 1 <= j ==> MatchAt(s, l, j) == MatchAt(s[1..], l, j - 1) by {
        forall j: nat | 1 <= j ensures MatchAt(s, l, j) == MatchAt(s[1..], l, j - 1) {
          if j + |l| <= |s| {
            assert s[1..][j - 1..j - 1 + |l|] == s[j..j + |l|];
          }
        }
      }
      match tail
      case None => None
      case Some(i) => Some(i + 1)
  }

  /** A match with no earlier one is the first match. */
  lemma {:induction false} FirstMatchAt(s: string, l: string, k: nat)
    requires MatchAt(s, l, k)
    requires forall i: nat :: i < k ==> !MatchAt(s, l, i)
    ensures FindFirst(s, l) == Some(k)
  {
  }

  /** Text of a value that is the number 0 when absent: LPC `string + 0` gives "0". */
  function OrZero(v: Option<string>): string {
    match v
    case Some(s) => s
    case None => "0"
  }

  /** Splits `s` at the first occurrence of `c`. */
  function SplitFirst(s: string, c: char): (r: Option<(string, string)>)
    ensures r.Some? ==> s == r.value.0 + [c] + r.value.1 && c !in r.value.0
    ensures r.None? ==> c !in s
  {
    if s == [] then None
    else if s[0] == c then Some(([], s[1..]))
    else match SplitFirst(s[1..], c)
      case None => None
      case Some((a, b)) => Some(([s[0]] + a, b))
  }

  /** Splits `s` at the last occurrence of `c`. */
  function SplitLast(s: string, c: char): (r: Option<(string, string)>)
    ensures r.Some? ==> s == r.value.0 + [c] + r.value.1 && c !in r.value.1
    ensures r.None? ==> c !in s
  {
    if s == [] then None
    else if s[|s| - 1] == c then Some((s[..|s| - 1], []))
    else match SplitLast(s[..|s| - 1], c)
      case None => None
      case Some((a, b)) => Some((a, b + [s[|s| - 1]]))
  }

  /** The split at the first separator gives back the two sides when the left one holds none. */
  lemma {:induction false} SplitFirstJoin(a: string, c: char, b: string)
    requires c !in a
    ensures SplitFirst(a + [c] + b, c) == Some((a, b))
  {
    if a != [] {
      assert (a + [c] + b)[1..] == a[1..] + [c] + b;
      SplitFirstJoin(a[1..], c, b);
      assert [a[0]] + a[1..] == a;
    }
  }

  /** The split at the last separator gives back the two sides when the right one holds none. */
  lemma {:induction false} SplitLastJoin(a: string, c: char, b: string)
    requires c !in b
    ensures SplitLast(a + [c] + b, c) == Some((a, b))
  {
    var s := a + [c] + b;
    if b == [] {
      assert s[..|s| - 1] == a;
    } else {
      var b' := b[..|b| - 1];
      assert s[..|s| - 1] == a + [c] + b';
      SplitLastJoin(a, c, b');
      assert b' + [b[|b| - 1]] == b;
    }
  }

  function LowerChar(c: char): char {
    if 'A' <= c <= 'Z' then (c as int + 32) as char else c
  }

  function UpperChar(c: char): char {
    if 'a' <= c <= 'z' then (c as int - 32) as char else c
  }

  /** The `lower_case` efun on ASCII text. */
  function LowerCase(s: string): (r: string)
    ensures |r| == |s|
    ensures forall i :: 0 <= i < |s| ==> r[i] == LowerChar(s[i])
    ensures forall i :: 0 <= i < |r| ==> !('A' <= r[i] <= 'Z')
  {
    seq(|s|, i requires 0 <= i < |s| => LowerChar(s[i]))
  }

  /** The `capitalize` efun: the first character upper-cased, the rest kept. */
  function Capitalize(s: string): (r: string)
    ensures |r| == |s|
    ensures s != [] ==> r[0] == UpperChar(s[0]) && !('a' <= r[0] <= 'z')
    ensures s == [] || r[1..] == s[1..]
  {
    if s == [] then s else [UpperChar(s[0])] + s[1..]
  }

  function DigitChar(d: nat): char
    requires d < 10
  {
    "0123456789"[d]
  }

  predicate IsDigit(c: char) {
    '0' <= c <= '9'
  }

  function Digits(n: nat): (r: string)
    ensures r != []
    ensures forall i :: 0 <= i < |r| ==> IsDigit(r[i])
  {
    if n < 10 then [DigitChar(n)] else Digits(n / 10) + [DigitChar(n % 10)]
  }

  /** The text LPC produces for an int in `string + int`. */
  function Decimal(n: int): (r: string)
    ensures r != []
    ensures forall i :: 0 <= i < |r| ==> IsDigit(r[i]) || r[i] == '-'
  {
    if n < 0 then "-" + Digits(-n) else Digits(n)
  }

  /** The decimal text holds neither a newline nor a colon. */
  lemma {:induction false} DecimalSeparators(n: int)
    ensures '\n' !in Decimal(n) && ':' !in Decimal(n)
  {
    var d := Decimal(n);
    forall i | 0 <= i < |d| ensures d[i] != '\n' && d[i] != ':' {
      assert IsDigit(d[i]) || d[i] == '-';
    }
  }

  function ParseDigits(s: string): Option<nat>
  {
    if s == [] then None
    else if !IsDigit(s[|s| - 1]) then None
    else
      var d := s[|s| - 1] as int - '0' as int;
      if |s| == 1 then Some(d)
      else match ParseDigits(s[..|s| - 1])
        case None => None
        case Some(m) => Some(m * 10 + d)
  }

  function ParseDecimal(s: string): Option<int>
  {
    if s != [] && s[0] == '-' then
      match ParseDigits(s[1..])
      case None => None
      case Some(m) => Some(0 - m)
    else
      match ParseDigits(s)
      case None => None
      case Some(m) => Some(m)
  }

  lemma {:induction false} ParseDigitsRoundTrip(n: nat)
    ensures ParseDigits(Digits(n)) == Some(n)
  {
    if n >= 10 {
      var s := Digits(n);
      assert s[..|s| - 1] == Digits(n / 10);
      ParseDigitsRoundTrip(n / 10);
    }
  }

  /** The decimal text of an int reads back as that int. */
  lemma {:induction false} DecimalRoundTrip(n: int)
    ensures ParseDecimal(Decimal(n)) == Some(n)
  {
    if n < 0 {
      NegativeDecimalRoundTrip(n);
    } else {
      var s := Digits(n);
      assert Decimal(n) == s;
      assert IsDigit(s[0]);
      ParseDigitsRoundTrip(n);
    }
  }

  lemma {:induction false} NegativeDecimalRoundTrip(n: int)
    requires n < 0
    ensures ParseDecimal(Decimal(n)) == Some(n)
  {
    var d := Digits(-n);
    ParseDigitsRoundTrip(-n);
    ParseNegative(d, -n);
    assert Decimal(n) == "-" + d;
  }

  /** A minus sign in front of a digit text reads back as the negated number. */
  lemma {:induction false} ParseNegative(d: string, m: nat)
    requires ParseDigits(d) == Some(m)
    ensures ParseDecimal("-" + d) == Some(-(m as int))
  {
    var s := "-" + d;
    assert s[0] == '-' && s[1..] == d;
  }
}
