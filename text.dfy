/**
 * String primitives shared by the backend (Python) and the frontend
 * (TypeScript) halves of the system.  Characters are ASCII: the Unicode
 * tables behind Python's `isalnum`/`isspace`/`islower` and JavaScript's
 * `toUpperCase` are restricted to their ASCII part.
 */
module Text {
  import opened Wrappers

  // ---------------------------------------------------------------------
  // Character classes

  /** Python's `str.isspace` on ASCII (also what `str.split()` and
      `str.strip()` treat as whitespace): tab, LF, VT, FF, CR, the four
      separators 0x1C..0x1F, and space. */
  predicate IsPySpace(c: char) {
    ('\t' <= c <= '\r') || ('\U{1C}' <= c <= '\U{1F}') || c == ' '
  }

  /** The white space JavaScript's `parseInt` skips before a number. */
  predicate IsJsSpace(c: char) {
    ('\t' <= c <= '\r') || c == ' '
  }

  predicate IsDigit(c: char) { '0' <= c <= '9' }
  predicate IsLowerLetter(c: char) { 'a' <= c <= 'z' }
  predicate IsUpperLetter(c: char) { 'A' <= c <= 'Z' }

  /** Python's `str.isalnum` for one ASCII character. */
  predicate IsAlnum(c: char) { IsDigit(c) || IsLowerLetter(c) || IsUpperLetter(c) }

  predicate HasNoPySpace(s: string) { forall i :: 0 <= i < |s| ==> !IsPySpace(s[i]) }

  // ---------------------------------------------------------------------
  // Case

  /** JavaScript's `String.prototype.toUpperCase` on ASCII. */
  function ToUpper(s: string): (r: string)
    ensures |r| == |s|
    ensures forall i :: 0 <= i < |s| ==>
      r[i] == if IsLowerLetter(s[i]) then (s[i] as int - 32) as char else s[i]
  {
    if s == [] then []
    else [if IsLowerLetter(s[0]) then (s[0] as int - 32) as char else s[0]] + ToUpper(s[1..])
  }

  /** A string equals its upper-case form exactly when it holds no
      lower-case letter. */
  lemma ToUpperFixed(s: string)
    ensures ToUpper(s) == s <==> forall i :: 0 <= i < |s| ==> !IsLowerLetter(s[i])
  {
    if forall i :: 0 <= i < |s| ==> !IsLowerLetter(s[i]) {
      assert forall i :: 0 <= i < |s| ==> ToUpper(s)[i] == s[i];
    } else {
      var i :| 0 <= i < |s| && IsLowerLetter(s[i]);
      assert ToUpper(s)[i] != s[i];
    }
  }

  /** Python's `str.islower`: at least one cased character and none of
      them upper-case. */
  predicate IsLowerPy(s: string) {
    (exists i :: 0 <= i < |s| && IsLowerLetter(s[i]))
    && forall i :: 0 <= i < |s| ==> !IsUpperLetter(s[i])
  }

  // ---------------------------------------------------------------------
  // Splitting and joining

  /** Length of the longest prefix of `s` free of Python white space. */
  function WordLength(s: string): (n: nat)
    ensures n <= |s|
    ensures forall i :: 0 <= i < n ==> !IsPySpace(s[i])
    ensures n < |s| ==> IsPySpace(s[n])
  {
    if s == [] || IsPySpace(s[0]) then 0 else 1 + WordLength(s[1..])
  }

  /** Python's `str.split()` with no argument: the maximal runs of
      non-white-space characters, in order. */
  function SplitWs(s: string): (r: seq<string>)
    ensures forall k :: 0 <= k < |r| ==> r[k] != "" && HasNoPySpace(r[k])
    decreases |s|
  {
    if s == [] then []
    else if IsPySpace(s[0]) then SplitWs(s[1..])
    else
      var n := WordLength(s);
      [s[..n]] + SplitWs(s[n..])
  }

  /** JavaScript's `String.prototype.split` with a one-character separator:
      always at least one piece, and no piece holds the separator. */
  function SplitOn(s: string, sep: char): (r: seq<string>)
    ensures |r| >= 1
    ensures forall k :: 0 <= k < |r| ==> sep !in r[k]
  {
    if s == [] then [""]
    else if s[0] == sep then [""] + SplitOn(s[1..], sep)
    else
      var rest := SplitOn(s[1..], sep);
      [[s[0]] + rest[0]] + rest[1..]
  }

  /** `Array.prototype.join` / Python's `sep.join`. */
  function Join(parts: seq<string>, sep: string): string {
    if |parts| == 0 then ""
    else if |parts| == 1 then parts[0]
    else parts[0] + sep + Join(parts[1..], sep)
  }

  /** Splitting on a character and joining with it gives the text back. */
  lemma {:induction false} JoinSplitOn(s: string, sep: char)
    ensures Join(SplitOn(s, sep), [sep]) == s
  {
    if s == [] {
    } else if s[0] == sep {
      JoinSplitOn(s[1..], sep);
      assert s == [sep] + s[1..];
    } else {
      JoinSplitOn(s[1..], sep);
      var rest := SplitOn(s[1..], sep);
      if |rest| == 1 {
        assert s == [s[0]] + rest[0];
      } else {
        assert Join(rest, [sep]) == rest[0] + [sep] + Join(rest[1..], [sep]);
        assert s == [s[0]] + s[1..];
      }
    }
  }

  /** Joining pieces free of a character and splitting on it gives the
      pieces back. */
  lemma {:induction false} SplitOnJoin(parts: seq<string>, sep: char)
    requires |parts| >= 1
    requires forall k :: 0 <= k < |parts| ==> sep !in parts[k]
    ensures SplitOn(Join(parts, [sep]), sep) == parts
  {
    if |parts| == 1 {
      SplitOnNoSep(parts[0], sep);
    } else {
      SplitOnJoin(parts[1..], sep);
      SplitOnAppend(parts[0], Join(parts[1..], [sep]), sep);
      assert parts == [parts[0]] + parts[1..];
    }
  }

  lemma {:induction false} SplitOnNoSep(s: string, sep: char)
    requires sep !in s
    ensures SplitOn(s, sep) == [s]
  {
    if s != [] {
      SplitOnNoSep(s[1..], sep);
      assert s == [s[0]] + s[1..];
    }
  }

  lemma {:induction false} SplitOnAppend(a: string, b: string, sep: char)
    requires sep !in a
    ensures SplitOn(a + [sep] + b, sep) == [a] + SplitOn(b, sep)
  {
    if a == [] {
      assert a + [sep] + b == [sep] + b;
      assert ([sep] + b)[1..] == b;
    } else {
      var s := a + [sep] + b;
      assert s[1..] == a[1..] + [sep] + b;
      SplitOnAppend(a[1..], b, sep);
      assert [a[0]] + a[1..] == a;
    }
  }

  // ---------------------------------------------------------------------
  // Numbers as text

  function DigitChar(d: nat): char
    requires d < 10
  {
    ('0' as int + d) as char
  }

  /** Decimal text of a natural number (Python's `str`, JavaScript's
      `String`), most significant digit first. */
  function NatToString(n: nat): (r: string)
    ensures |r| >= 1 && forall i :: 0 <= i < |r| ==> IsDigit(r[i])
  {
    if n < 10 then [DigitChar(n)] else NatToString(n / 10) + [DigitChar(n % 10)]
  }

  /** Decimal text of an integer, with a leading `-` when negative. */
  function IntToString(i: int): string {
    if i < 0 then "-" + NatToString(-i) else NatToString(i)
  }

  /** Value of a string of decimal digits. */
  function DecimalValue(s: string): nat
    requires forall i :: 0 <= i < |s| ==> IsDigit(s[i])
  {
    if s == [] then 0 else 10 * DecimalValue(s[..|s| - 1]) + HexDigitValue(s[|s| - 1])
  }

  predicate IsHexDigit(c: char) { IsDigit(c) || ('a' <= c <= 'f') || ('A' <= c <= 'F') }

  function HexDigitValue(c: char): nat
    requires IsHexDigit(c)
  {
    if IsDigit(c) then c as int - '0' as int
    else if 'a' <= c <= 'f' then c as int - 'a' as int + 10
    else c as int - 'A' as int + 10
  }

  function HexValue(s: string): nat
    requires forall i :: 0 <= i < |s| ==> IsHexDigit(s[i])
  {
    if s == [] then 0 else 16 * HexValue(s[..|s| - 1]) + HexDigitValue(s[|s| - 1])
  }

  /** Length of the longest prefix of `s` made of decimal digits. */
  function DigitRun(s: string): (n: nat)
    ensures n <= |s| && forall i :: 0 <= i < n ==> IsDigit(s[i])
    ensures n < |s| ==> !IsDigit(s[n])
  {
    if s == [] || !IsDigit(s[0]) then 0 else 1 + DigitRun(s[1..])
  }

  /** Length of the longest prefix of `s` made of hexadecimal digits. */
  function HexRun(s: string): (n: nat)
    ensures n <= |s| && forall i :: 0 <= i < n ==> IsHexDigit(s[i])
    ensures n < |s| ==> !IsHexDigit(s[n])
  {
    if s == [] || !IsHexDigit(s[0]) then 0 else 1 + HexRun(s[1..])
  }

  function SkipJsSpace(s: string): (r: string)
    ensures |r| <= |s|
  {
    if s != [] && IsJsSpace(s[0]) then SkipJsSpace(s[1..]) else s
  }

  /** JavaScript's `parseInt(s)` with no radix, on integers that a double
      holds exactly: leading white space is skipped, one sign is read, a
      `0x`/`0X` prefix selects base 16, and the longest run of digits that
      follows is the value; `None` stands for `NaN` (no digit at all). */
  function ParseInt(s: string): Option<int> {
    var t := SkipJsSpace(s);
    var neg := t != [] && t[0] == '-';
    var u := if t != [] && (t[0] == '-' || t[0] == '+') then t[1..] else t;
    match Magnitude(u)
    case None => None
    case Some(m: nat) =>
      var v: int := if neg then 0 - (m as int) else m;
      Some(v)
  }

  /** The unsigned value `parseInt` reads after the sign. */
  function Magnitude(u: string): Option<nat> {
    if |u| >= 2 && u[0] == '0' && (u[1] == 'x' || u[1] == 'X') then
      var h := HexRun(u[2..]);
      if h == 0 then None else Some(HexValue(u[2..][..h]))
    else
      var d := DigitRun(u);
      if d == 0 then None else Some(DecimalValue(u[..d]))
  }

  lemma DigitRunOfDigits(s: string)
    requires forall i :: 0 <= i < |s| ==> IsDigit(s[i])
    ensures DigitRun(s) == |s|
  {
  }

  lemma {:induction false} DecimalValueOfNat(n: nat)
    ensures DecimalValue(NatToString(n)) == n
  {
    if n >= 10 {
      DecimalValueOfNat(n / 10);
      var s := NatToString(n);
      assert s[..|s| - 1] == NatToString(n / 10);
    }
  }

  lemma MagnitudeOfNat(n: nat)
    ensures Magnitude(NatToString(n)) == Some(n)
  {
    var digits := NatToString(n);
    DecimalValueOfNat(n);
    DigitRunOfDigits(digits);
    assert digits[..|digits|] == digits;
    assert !(digits[0] == '0' && |digits| >= 2 && (digits[1] == 'x' || digits[1] == 'X')) by {
      assert IsDigit(digits[0]);
      if |digits| >= 2 {
        assert IsDigit(digits[1]);
      }
    }
  }

  /** `parseInt` reads back the decimal text of every integer. */
  lemma ParseIntOfString(i: int)
    ensures ParseInt(IntToString(i)) == Some(i)
  {
    var s := IntToString(i);
    var m: nat := if i < 0 then -i else i;
    var digits := NatToString(m);
    MagnitudeOfNat(m);
    if i < 0 {
      assert s == "-" + digits && s[0] == '-';
      assert SkipJsSpace(s) == s;
      assert s[1..] == digits;
    } else {
      assert s == digits && IsDigit(s[0]);
      assert SkipJsSpace(s) == s;
    }
  }
}
