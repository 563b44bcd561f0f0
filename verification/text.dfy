/**
  The few pieces of Python's string behaviour the monitor relies on:
  `str.strip()`, `str.split(sep)`, `str.isdigit()`, `str(n)` for an integer
  and `int(s)` in base 10.  Strings are sequences of Unicode code points, as
  Python's are.
 */
module Text {
  import opened Base

  /** Python's `str.isspace()` on one code point: the characters `strip()`
      removes. */
  predicate IsSpace(c: char) {
    || c == ' '
    || ('\t' <= c <= '\r')
    || ('\U{1C}' <= c <= '\U{1F}')
    || c == '\U{85}' || c == '\U{A0}' || c == '\U{1680}'
    || ('\U{2000}' <= c <= '\U{200A}')
    || c == '\U{2028}' || c == '\U{2029}' || c == '\U{202F}'
    || c == '\U{205F}' || c == '\U{3000}'
  }

  /** Python truthiness of an optional string: present and non-empty. */
  predicate Truthy(s: Option<string>) {
    s.Some? && s.value != ""
  }

  // ---------------------------------------------------------------------
  // strip()

  /** Nothing but white space. */
  predicate AllSpace(s: string) {
    forall i :: 0 <= i < |s| ==> IsSpace(s[i])
  }

  function StripLeft(s: string): (r: string)
    ensures |r| <= |s| && r == s[|s| - |r|..]
    ensures forall i :: 0 <= i < |s| - |r| ==> IsSpace(s[i])
    ensures r == [] || !IsSpace(r[0])
  {
    if |s| > 0 && IsSpace(s[0]) then StripLeft(s[1..]) else s
  }

  function StripRight(s: string): (r: string)
    ensures |r| <= |s| && r == s[..|r|]
    ensures forall i :: |r| <= i < |s| ==> IsSpace(s[i])
    ensures r == [] || !IsSpace(r[|r| - 1])
  {
    if |s| > 0 && IsSpace(s[|s| - 1]) then StripRight(s[..|s| - 1]) else s
  }

  /** Python's `s.strip()`: drop white space at both ends. */
  function Strip(s: string): (r: string)
    ensures |r| <= |s|
    ensures r == [] || (!IsSpace(r[0]) && !IsSpace(r[|r| - 1]))
  {
    StripRight(StripLeft(s))
  }

  /** What `strip()` removes is exactly the white space around the
      result: the result is a contiguous piece of the input, everything
      before and after it is white space (and, by `Strip`'s own contract,
      it neither starts nor ends with white space). */
  lemma StripMeaning(s: string)
    ensures var r, k := Strip(s), |s| - |StripLeft(s)|;
            && k + |r| <= |s|
            && (forall i :: 0 <= i < |r| ==> r[i] == s[k + i])
            && (forall i :: 0 <= i < k ==> IsSpace(s[i]))
            && (forall i :: k + |r| <= i < |s| ==> IsSpace(s[i]))
  {
    StripIsPiece(s);
    StripIsSurrounded(s);
  }

  lemma StripIsPiece(s: string)
    ensures var r, k := Strip(s), |s| - |StripLeft(s)|;
            k + |r| <= |s| && forall i :: 0 <= i < |r| ==> r[i] == s[k + i]
  {
    var l := StripLeft(s);
    Around(s, l, StripRight(l));
  }

  lemma StripIsSurrounded(s: string)
    ensures var r, k := Strip(s), |s| - |StripLeft(s)|;
            k + |r| <= |s| && forall i :: k + |r| <= i < |s| ==> IsSpace(s[i])
  {
    var l := StripLeft(s);
    Around(s, l, StripRight(l));
  }

  /** White space cut from the front and then from the back leaves a
      piece of the input with only white space after it. */
  lemma Around(s: string, l: string, r: string)
    requires |l| <= |s| && l == s[|s| - |l|..]
    requires |r| <= |l| && r == l[..|r|] && forall i :: |r| <= i < |l| ==> IsSpace(l[i])
    ensures var k := |s| - |l|;
            && k + |r| <= |s|
            && (forall i :: 0 <= i < |r| ==> r[i] == s[k + i])
            && (forall i :: k + |r| <= i < |s| ==> IsSpace(s[i]))
  {
    var k := |s| - |l|;
    assert forall i :: k <= i < |s| ==> s[i] == l[i - k];
  }

  /** A string with no white space at either end is its own strip. */
  lemma StripOfStripped(s: string)
    requires s == [] || (!IsSpace(s[0]) && !IsSpace(s[|s| - 1]))
    ensures Strip(s) == s
  {
  }

  /** Stripping twice is stripping once. */
  lemma StripIdempotent(s: string)
    ensures Strip(Strip(s)) == Strip(s)
  {
    StripOfStripped(Strip(s));
  }

  /** Only white space strips to the empty string. */
  lemma StripEmptyIffBlank(s: string)
    ensures Strip(s) == [] <==> AllSpace(s)
  {
    var l := StripLeft(s);
    if Strip(s) == [] {
      assert l == [];
    }
  }

  // ---------------------------------------------------------------------
  // split(sep) and its inverse

  /** Python's `s.split(sep)` for a one-character separator: never empty,
      and keeps the empty pieces between adjacent separators. */
  function Split(s: string, sep: char): (r: seq<string>)
    ensures |r| >= 1
    ensures forall i :: 0 <= i < |r| ==> sep !in r[i]
    decreases |s|
  {
    if |s| == 0 then [""]
    else
      var rest := Split(s[1..], sep);
      if s[0] == sep then [""] + rest
      else [[s[0]] + rest[0]] + rest[1..]
  }

  /** Python's `sep.join(parts)`. */
  function Join(parts: seq<string>, sep: char): string
    requires |parts| >= 1
    decreases |parts|
  {
    if |parts| == 1 then parts[0] else parts[0] + [sep] + Join(parts[1..], sep)
  }

  /** Joining the pieces of a split gives back the string. */
  lemma {:induction false} JoinSplit(s: string, sep: char)
    ensures Join(Split(s, sep), sep) == s
    decreases |s|
  {
    if |s| > 0 {
      var rest := Split(s[1..], sep);
      JoinSplit(s[1..], sep);
      if s[0] == sep {
        assert Split(s, sep)[1..] == rest;
      } else {
        var r := Split(s, sep);
        if |rest| == 1 {
          assert r == [[s[0]] + rest[0]];
        } else {
          assert r[1..] == rest[1..];
          assert Join(rest, sep) == rest[0] + [sep] + Join(rest[1..], sep);
        }
      }
    }
  }

  /** A string without the separator splits into itself alone. */
  lemma {:induction false} SplitWithoutSep(s: string, sep: char)
    requires sep !in s
    ensures Split(s, sep) == [s]
    decreases |s|
  {
    if |s| > 0 {
      SplitWithoutSep(s[1..], sep);
      assert [s[0]] + s[1..] == s;
    }
  }

  /** Splitting `x + sep + y` yields `x` followed by the pieces of `y`. */
  lemma {:induction false} SplitAfterPiece(x: string, sep: char, y: string)
    requires sep !in x
    ensures Split(x + [sep] + y, sep) == [x] + Split(y, sep)
    decreases |x|
  {
    var s := x + [sep] + y;
    if |x| == 0 {
      assert s[1..] == y;
    } else {
      assert s[1..] == x[1..] + [sep] + y;
      SplitAfterPiece(x[1..], sep, y);
      assert [x[0]] + x[1..] == x;
    }
  }

  /** Splitting a join of separator-free pieces gives back the pieces. */
  lemma {:induction false} SplitJoin(parts: seq<string>, sep: char)
    requires |parts| >= 1
    requires forall i :: 0 <= i < |parts| ==> sep !in parts[i]
    ensures Split(Join(parts, sep), sep) == parts
    decreases |parts|
  {
    if |parts| == 1 {
      SplitWithoutSep(parts[0], sep);
    } else {
      SplitJoin(parts[1..], sep);
      SplitAfterPiece(parts[0], sep, Join(parts[1..], sep));
      assert [parts[0]] + parts[1..] == parts;
    }
  }

  // ---------------------------------------------------------------------
  // Decimal digits, str(n) and int(s)

  predicate IsDigit(c: char) {
    '0' <= c <= '9'
  }

  /** Python's `s.isdigit()` restricted to ASCII digits: false on "". */
  predicate AllDigits(s: string) {
    |s| > 0 && forall i :: 0 <= i < |s| ==> IsDigit(s[i])
  }

  function DigitValue(c: char): nat
    requires IsDigit(c)
  {
    (c as int) - ('0' as int)
  }

  function DigitChar(d: nat): (c: char)
    requires d < 10
    ensures IsDigit(c) && DigitValue(c) == d
  {
    (('0' as int) + d) as char
  }

  /** The value of a string of decimal digits, most significant first. */
  function DigitsValue(s: string): nat
    requires forall i :: 0 <= i < |s| ==> IsDigit(s[i])
  {
    if |s| == 0 then 0 else DigitsValue(s[..|s| - 1]) * 10 + DigitValue(s[|s| - 1])
  }

  /** Python's `str(n)` for a natural number: no sign, no leading zero. */
  function NatToString(n: nat): (r: string)
    ensures AllDigits(r)
    ensures |r| > 1 ==> r[0] != '0'
    decreases n
  {
    if n < 10 then [DigitChar(n)] else NatToString(n / 10) + [DigitChar(n % 10)]
  }

  /** Python's `str(n)` (and `f"{n}"`) for an integer. */
  function IntToString(n: int): (r: string)
    ensures |r| > 0
    ensures n < 0 <==> r[0] == '-'
    ensures forall i :: 0 <= i < |r| ==> IsDigit(r[i]) || r[i] == '-'
  {
    if n < 0 then "-" + NatToString(-n) else NatToString(n)
  }

  /** Digit runs with at most single underscores between digits, as
      `int()` accepts them ("1_000" but not "_1", "1_" or "1__0"). */
  predicate WellFormedDigits(s: string) {
    && |s| > 0
    && IsDigit(s[0]) && IsDigit(s[|s| - 1])
    && (forall i :: 0 <= i < |s| ==> IsDigit(s[i]) || s[i] == '_')
    && (forall i :: 0 <= i < |s| - 1 ==> s[i] != '_' || s[i + 1] != '_')
  }

  function RemoveUnderscores(s: string): (r: string)
    ensures forall i :: 0 <= i < |r| ==> r[i] != '_'
    ensures (forall i :: 0 <= i < |s| ==> IsDigit(s[i]) || s[i] == '_') ==>
              forall i :: 0 <= i < |r| ==> IsDigit(r[i])
  {
    if |s| == 0 then []
    else if s[0] == '_' then RemoveUnderscores(s[1..])
    else [s[0]] + RemoveUnderscores(s[1..])
  }

  /** An unsigned decimal literal as `int()` reads it. */
  function ParseUnsigned(s: string): Option<nat> {
    if WellFormedDigits(s) then Some(DigitsValue(RemoveUnderscores(s))) else None
  }

  /** The ASCII information separators U+001C to U+001F.  `str.isspace()`
      counts them as white space, but `int()` does not: it skips only the
      six ASCII white-space characters and white space above U+007F. */
  predicate IsSeparator(c: char) {
    '\U{1C}' <= c <= '\U{1F}'
  }

  predicate SeparatorFree(s: string) {
    forall i :: 0 <= i < |s| ==> !IsSeparator(s[i])
  }

  /** A signed decimal literal with no white space around it. */
  function ParseSigned(t: string): Option<int> {
    if |t| > 0 && (t[0] == '+' || t[0] == '-') then
      match ParseUnsigned(t[1..])
      case Some(n) => var m: int := n; Some(if t[0] == '-' then -m else m)
      case None => None
    else
      match ParseUnsigned(t)
      case Some(n) => Some(n)
      case None => None
  }

  /** Python's `int(s)` in base 10 over ASCII digits: surrounding white
      space is ignored, one optional sign, then a digit run; anything else
      raises `ValueError`, modelled as `None`.  An information separator
      anywhere makes it raise: at either end `int()` does not skip it, and
      inside it is not a digit.  Without one, the white space `int()` skips
      is exactly what `strip()` removes. */
  function ParseInt(s: string): Option<int> {
    if SeparatorFree(s) then ParseSigned(Strip(s)) else None
  }

  /** The sign decides the sign of the value. */
  lemma ParseIntSign(s: string)
    requires ParseInt(s).Some?
    ensures var t := Strip(s);
            (t[0] == '-' ==> ParseInt(s).value <= 0) && (t[0] != '-' ==> ParseInt(s).value >= 0)
  {
  }

  /** `int()` ignores the white space that `strip()` removes, unless that
      white space holds an information separator: then `int(s)` raises
      while `int(s.strip())` may not. */
  lemma ParseIntOfStrip(s: string)
    ensures SeparatorFree(s) ==> ParseInt(Strip(s)) == ParseInt(s)
    ensures ParseInt(s).Some? ==> ParseInt(Strip(s)) == ParseInt(s)
  {
    if SeparatorFree(s) {
      StripKeepsSeparatorFree(s);
      StripIdempotent(s);
    }
  }

  lemma StripKeepsSeparatorFree(s: string)
    requires SeparatorFree(s)
    ensures SeparatorFree(Strip(s))
  {
    StripIsPiece(s);
  }

  lemma {:induction false} DigitsValueOfNatToString(n: nat)
    ensures DigitsValue(NatToString(n)) == n
    decreases n
  {
    if n >= 10 {
      var s := NatToString(n);
      DigitsValueOfNatToString(n / 10);
      assert s[..|s| - 1] == NatToString(n / 10);
    }
  }

  lemma {:induction false} RemoveUnderscoresOfDigits(s: string)
    requires forall i :: 0 <= i < |s| ==> IsDigit(s[i])
    ensures RemoveUnderscores(s) == s
    decreases |s|
  {
    if |s| > 0 {
      RemoveUnderscoresOfDigits(s[1..]);
      assert [s[0]] + s[1..] == s;
    }
  }

  lemma NatToStringParses(n: nat)
    ensures ParseUnsigned(NatToString(n)) == Some(n)
  {
    var s := NatToString(n);
    RemoveUnderscoresOfDigits(s);
    DigitsValueOfNatToString(n);
  }

  /** `int(str(n)) == n`: the decimal rendering of an integer reads back. */
  lemma ParseIntToString(n: int)
    ensures ParseInt(IntToString(n)) == Some(n)
  {
    var s := IntToString(n);
    StripOfStripped(s);
    if n < 0 {
      assert s[1..] == NatToString(-n);
      NatToStringParses(-n);
    } else {
      NatToStringParses(n);
    }
  }

  /** Distinct integers render distinctly. */
  lemma IntToStringInjective(a: int, b: int)
    requires IntToString(a) == IntToString(b)
    ensures a == b
  {
    ParseIntToString(a);
    ParseIntToString(b);
  }
}
