/**
 * The string operations the Python tools rely on: `sep.join(names)`,
 * `s.split(sep)`, `'%i' % n` and `int(s)`.
 */
module Text {
  import opened Wrappers

  /** The index of the first `sep` in `s`, if any. */
  function Find(s: string, sep: char): (i: Option<nat>)
    ensures i.None? <==> sep !in s
    ensures i.Some? ==> i.value < |s| && s[i.value] == sep && sep !in s[..i.value]
  {
    if s == [] then None
    else if s[0] == sep then Some(0)
    else
      match Find(s[1..], sep)
      case None => None
      case Some(j) =>
        assert s[..j + 1] == [s[0]] + s[1..][..j];
        Some(j + 1)
  }

  /** `sep.join(names)`. */
  function Join(names: seq<string>, sep: char): string
  {
    if names == [] then ""
    else if |names| == 1 then names[0]
    else names[0] + [sep] + Join(names[1..], sep)
  }

  /** `s.split(sep)`: the pieces between the separators, at least one. */
  function Split(s: string, sep: char): (pieces: seq<string>)
    ensures |pieces| >= 1
    ensures forall i :: 0 <= i < |pieces| ==> sep !in pieces[i]
    decreases |s|
  {
    match Find(s, sep)
    case None => [s]
    case Some(i) => [s[..i]] + Split(s[i + 1..], sep)
  }

  /** Splitting a join gives back the names when none holds the separator. */
  lemma {:induction false} SplitJoin(names: seq<string>, sep: char)
    requires |names| >= 1
    requires forall i :: 0 <= i < |names| ==> sep !in names[i]
    ensures Split(Join(names, sep), sep) == names
  {
    if |names| > 1 {
      var s := Join(names, sep);
      var n := names[0];
      assert s == n + [sep] + Join(names[1..], sep);
      assert s[|n|] == sep && s[..|n|] == n;
      assert Find(s, sep) == Some(|n|);
      assert s[|n| + 1..] == Join(names[1..], sep);
      SplitJoin(names[1..], sep);
      assert names == [n] + names[1..];
    }
  }

  /** Joining the pieces of a split gives back the string. */
  lemma {:induction false} JoinSplit(s: string, sep: char)
    ensures Join(Split(s, sep), sep) == s
    decreases |s|
  {
    match Find(s, sep)
    case None =>
    case Some(i) =>
      JoinSplit(s[i + 1..], sep);
      var rest := Split(s[i + 1..], sep);
      assert Split(s, sep)[1..] == rest;
      assert s == s[..i] + [sep] + s[i + 1..];
  }

  // ---------------------------------------------------------------------------
  // Decimal numbers: `'%i' % n` and `int(s)`
  // ---------------------------------------------------------------------------

  predicate IsDigit(c: char)
  {
    '0' <= c <= '9'
  }

  function DigitChar(d: nat): (c: char)
    requires d < 10
    ensures IsDigit(c)
  {
    ('0' as int + d) as char
  }

  function DigitValue(c: char): (d: nat)
    requires IsDigit(c)
    ensures d < 10
  {
    (c as int - '0' as int)
  }

  /** The decimal digits of `n`, without leading zeros. */
  function Digits(n: nat): (s: string)
    ensures |s| >= 1 && forall i :: 0 <= i < |s| ==> IsDigit(s[i])
  {
    if n < 10 then [DigitChar(n)] else Digits(n / 10) + [DigitChar(n % 10)]
  }

  /** The value of a string of decimal digits. */
  function DigitsValue(s: string): nat
    requires forall i :: 0 <= i < |s| ==> IsDigit(s[i])
  {
    if s == [] then 0 else DigitsValue(s[..|s| - 1]) * 10 + DigitValue(s[|s| - 1])
  }

  /** Reading the digits back gives the number. */
  lemma {:induction false} DigitsValueOfDigits(n: nat)
    ensures DigitsValue(Digits(n)) == n
  {
    if n >= 10 {
      var s := Digits(n);
      assert s[..|s| - 1] == Digits(n / 10);
      DigitsValueOfDigits(n / 10);
    }
  }

  /** `'%i' % n`. */
  function Show(n: int): string
  {
    if n < 0 then "-" + Digits(-n) else Digits(n)
  }

  /** The characters `int()` strips from both ends. */
  predicate IsSpace(c: char)
  {
    c == ' ' || c == '\t' || c == '\n' || c == '\r' || c == 11 as char || c == 12 as char
  }

  /** `s` without leading and trailing white space. */
  function Strip(s: string): (t: string)
    ensures |t| <= |s|
    decreases |s|
  {
    if s == [] then s
    else if IsSpace(s[0]) then Strip(s[1..])
    else if IsSpace(s[|s| - 1]) then Strip(s[..|s| - 1])
    else s
  }

  /** An optional sign followed by one or more digits, as `int()` reads it; None where `int()` fails. */
  function ParseInt(s: string): (n: Option<int>)
  {
    var t := Strip(s);
    if |t| >= 1 && (t[0] == '-' || t[0] == '+') then
      var digits := t[1..];
      if |digits| >= 1 && forall i :: 0 <= i < |digits| ==> IsDigit(digits[i]) then
        var v: int := DigitsValue(digits);
        Some(if t[0] == '-' then -v else v)
      else None
    else if |t| >= 1 && forall i :: 0 <= i < |t| ==> IsDigit(t[i]) then Some(DigitsValue(t))
    else None
  }

  /** Text with no white space at either end is kept by `Strip`. */
  lemma StripKeeps(s: string)
    requires |s| >= 1 && !IsSpace(s[0]) && !IsSpace(s[|s| - 1])
    ensures Strip(s) == s
  {
  }

  /** `int()` of a digit string is its value. */
  lemma ParseDigits(s: string)
    requires |s| >= 1 && forall i :: 0 <= i < |s| ==> IsDigit(s[i])
    ensures ParseInt(s) == Some(DigitsValue(s))
    ensures ParseInt("-" + s) == Some(0 - DigitsValue(s) as int)
  {
    StripKeeps(s);
    var t := "-" + s;
    StripKeeps(t);
    assert t[1..] == s;
  }

  /** `int('%i' % n) == n`. */
  lemma ParseShow(n: int)
    ensures ParseInt(Show(n)) == Some(n)
  {
    var m := if n < 0 then -n else n;
    DigitsValueOfDigits(m);
    ParseDigits(Digits(m));
  }

  /** A number's text holds neither a separator nor a line end. */
  lemma ShowHasNo(n: int, c: char)
    requires c != '-' && !IsDigit(c)
    ensures c !in Show(n)
  {
    if n < 0 {
      assert Show(n) == ['-'] + Digits(-n);
    }
  }
}
