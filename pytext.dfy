/**
 * The few pieces of Python 2 string behaviour the panel relies on: `str.isdigit`,
 * `str(n)`, `int(s)`, `s.split(c)` and `c.join(parts)`, over ASCII byte strings.
 */
module PyText {
  import opened Wrappers

  predicate IsDigit(c: char) {
    '0' <= c <= '9'
  }

  predicate AllDigits(s: string) {
    forall i :: 0 <= i < |s| ==> IsDigit(s[i])
  }

  /** `s.isdigit()`: true for a non-empty string of decimal digits only. */
  predicate IsDigits(s: string) {
    |s| > 0 && AllDigits(s)
  }

  /** The number a string of decimal digits denotes (leading zeros allowed). */
  function DigitsValue(s: string): nat
    requires AllDigits(s)
  {
    if s == [] then 0 else DigitsValue(s[..|s| - 1]) * 10 + (s[|s| - 1] as int - '0' as int)
  }

  function DigitChar(d: nat): (c: char)
    requires d < 10
    ensures IsDigit(c) && c as int - '0' as int == d
  {
    ('0' as int + d) as char
  }

  /** `str(n)` for a non-negative int: its decimal digits, without leading zeros. */
  function NatToStr(n: nat): string
  {
    if n < 10 then [DigitChar(n)] else NatToStr(n / 10) + [DigitChar(n % 10)]
  }

  /** `str(n)` for any int. */
  function IntToStr(n: int): string {
    if n < 0 then "-" + NatToStr(-n) else NatToStr(n)
  }

  /** `str(n)` is a digit string that reads back as `n`, with no leading zero unless `n` is 0. */
  lemma {:induction false} NatToStrIsDecimal(n: nat)
    ensures IsDigits(NatToStr(n)) && DigitsValue(NatToStr(n)) == n
    ensures NatToStr(n)[0] == '0' ==> n == 0
  {
    if n >= 10 {
      NatToStrIsDecimal(n / 10);
      var s := NatToStr(n);
      assert s[..|s| - 1] == NatToStr(n / 10);
    }
  }

  /** C `isspace`: blank, tab, newline, vertical tab, form feed, carriage return. */
  predicate IsSpace(c: char) {
    c == ' ' || 9 <= c as int <= 13
  }

  function SkipSpace(s: string): (r: string)
  {
    if s != [] && IsSpace(s[0]) then SkipSpace(s[1..]) else s
  }

  function TrimEnd(s: string): (r: string)
  {
    if s != [] && IsSpace(s[|s| - 1]) then TrimEnd(s[..|s| - 1]) else s
  }

  /**
   * Python 2 `int(s)` in base 10: blanks, an optional sign, blanks, one or more
   * digits, blanks. `None` stands for the `ValueError` it raises otherwise.
   */
  function ParseInt(s: string): Option<int> {
    var t := TrimEnd(SkipSpace(s));
    if t != [] && (t[0] == '+' || t[0] == '-') then
      var u := SkipSpace(t[1..]);
      if IsDigits(u) then Some(if t[0] == '-' then -(DigitsValue(u) as int) else DigitsValue(u)) else None
    else if IsDigits(t) then Some(DigitsValue(t))
    else None
  }

  /** A digit string is read by `int` as the number it denotes. */
  lemma ParseIntOfDigits(s: string)
    requires IsDigits(s)
    ensures ParseInt(s) == Some(DigitsValue(s))
  {
    SkipSpaceNoop(s);
    TrimEndNoop(s);
  }

  /** `int(str(n)) == n` for every int. */
  lemma ParseIntOfIntToStr(n: int)
    ensures ParseInt(IntToStr(n)) == Some(n)
  {
    if n < 0 {
      var d := NatToStr(-n);
      NatToStrIsDecimal(-n);
      var s := "-" + d;
      SkipSpaceNoop(s);
      TrimEndNoop(s);
      assert s[1..] == d;
      SkipSpaceNoop(d);
    } else {
      NatToStrIsDecimal(n);
      ParseIntOfDigits(NatToStr(n));
    }
  }

  lemma SkipSpaceNoop(s: string)
    requires s != [] && !IsSpace(s[0])
    ensures SkipSpace(s) == s
  {
  }

  lemma TrimEndNoop(s: string)
    requires s != [] && !IsSpace(s[|s| - 1])
    ensures TrimEnd(s) == s
  {
  }

  /** The text before the first `sep` (all of `s` when there is none). */
  function BeforeFirst(s: string, sep: char): (r: string)
    ensures |r| <= |s| && r == s[..|r|] && sep !in r
    ensures |r| < |s| ==> s[|r|] == sep
  {
    if s == [] || s[0] == sep then [] else [s[0]] + BeforeFirst(s[1..], sep)
  }

  /** `s.split(sep)`: the pieces between the occurrences of `sep`, in order. */
  function Split(s: string, sep: char): (parts: seq<string>)
    ensures |parts| > 0 && parts[0] == BeforeFirst(s, sep)
    decreases |s|
  {
    var head := BeforeFirst(s, sep);
    if |head| == |s| then [s] else [head] + Split(s[|head| + 1..], sep)
  }

  /** `sep.join(parts)`. */
  function Join(parts: seq<string>, sep: char): string {
    if |parts| == 0 then "" else if |parts| == 1 then parts[0] else parts[0] + [sep] + Join(parts[1..], sep)
  }

  /** No piece that `split` returns contains the separator. */
  lemma {:induction false} SplitPartsFree(s: string, sep: char)
    ensures forall p :: p in Split(s, sep) ==> sep !in p
    decreases |s|
  {
    var head := BeforeFirst(s, sep);
    if |head| < |s| {
      SplitPartsFree(s[|head| + 1..], sep);
    }
  }

  /** Splitting a join on its own separator gives the pieces back, when no piece contains it. */
  lemma {:induction false} SplitJoin(parts: seq<string>, sep: char)
    requires |parts| > 0
    requires forall i :: 0 <= i < |parts| ==> sep !in parts[i]
    ensures Split(Join(parts, sep), sep) == parts
  {
    var s := Join(parts, sep);
    if |parts| == 1 {
      assert BeforeFirst(s, sep) == s by { BeforeFirstWhole(s, sep); }
    } else {
      var rest := Join(parts[1..], sep);
      assert s == parts[0] + [sep] + rest;
      BeforeFirstStops(parts[0], sep, rest);
      assert s[|parts[0]| + 1..] == rest;
      SplitJoin(parts[1..], sep);
    }
  }

  lemma BeforeFirstWhole(s: string, sep: char)
    requires sep !in s
    ensures BeforeFirst(s, sep) == s
  {
  }

  lemma {:induction false} BeforeFirstStops(a: string, sep: char, b: string)
    requires sep !in a
    ensures BeforeFirst(a + [sep] + b, sep) == a
  {
    if a != [] {
      assert (a + [sep] + b)[1..] == a[1..] + [sep] + b;
      BeforeFirstStops(a[1..], sep, b);
    } else {
      assert (a + [sep] + b)[0] == sep;
    }
  }

  /** Joining one more piece appends the separator and the piece. */
  lemma {:induction false} JoinSnoc(parts: seq<string>, last: string, sep: char)
    requires |parts| > 0
    ensures Join(parts + [last], sep) == Join(parts, sep) + [sep] + last
  {
    if |parts| > 1 {
      assert (parts + [last])[1..] == parts[1..] + [last];
      JoinSnoc(parts[1..], last, sep);
    }
  }

  /** `s.split(sep)[-1]`: the text after the last `sep`, or all of `s` when there is none. */
  function LastPiece(s: string, sep: char): (r: string)
    ensures sep !in r
    ensures sep !in s ==> r == s
  {
    var parts := Split(s, sep);
    SplitPartsFree(s, sep);
    assert parts[|parts| - 1] in parts;
    if sep !in s then
      BeforeFirstWhole(s, sep);
      parts[|parts| - 1]
    else parts[|parts| - 1]
  }

  /** A leading piece and its separator do not change the last piece. */
  lemma {:induction false} LastPieceDropsPrefix(a: string, sep: char, b: string)
    requires sep !in a
    ensures LastPiece(a + [sep] + b, sep) == LastPiece(b, sep)
  {
    var s := a + [sep] + b;
    BeforeFirstStops(a, sep, b);
    assert s[|a| + 1..] == b;
    assert Split(s, sep) == [a] + Split(b, sep);
  }
}
