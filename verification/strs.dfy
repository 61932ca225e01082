/** String helpers with JavaScript semantics: decimal formatting of integers,
    `parseInt(s, 10)`, `String.prototype.split`/`Array.prototype.join`,
    `startsWith`/`includes`, and ASCII lower-casing. */
module Strs {
  import opened Wrappers

  // ---------------------------------------------------------------------------
  // Digits and decimal formatting
  // ---------------------------------------------------------------------------

  predicate IsDigit(c: char) {
    '0' <= c <= '9'
  }

  function DigitChar(d: nat): (c: char)
    requires d < 10
    ensures IsDigit(c)
  {
    "0123456789"[d]
  }

  function DigitVal(c: char): (d: nat)
    requires IsDigit(c)
    ensures d < 10
  {
    (c as int) - ('0' as int)
  }

  lemma {:induction false} DigitCharVal(d: nat)
    requires d < 10
    ensures DigitVal(DigitChar(d)) == d
  {
  }

  /** The decimal rendering of a natural number, as `String(n)` prints it. */
  function NatToString(n: nat): (s: string)
    ensures |s| >= 1
    ensures forall i :: 0 <= i < |s| ==> IsDigit(s[i])
    decreases n
  {
    if n < 10 then [DigitChar(n)] else NatToString(n / 10) + [DigitChar(n % 10)]
  }

  /** The decimal rendering of an integer, with a leading `-` when negative. */
  function IntToString(n: int): (s: string)
    ensures |s| >= 1
    ensures n < 0 <==> s[0] == '-'
  {
    if n < 0 then "-" + NatToString(-n) else NatToString(n)
  }

  /** The value of a non-empty run of decimal digits. */
  function DigitsValue(s: string): (v: nat)
    requires forall i :: 0 <= i < |s| ==> IsDigit(s[i])
    decreases |s|
  {
    if |s| == 0 then 0 else DigitsValue(s[..|s| - 1]) * 10 + DigitVal(s[|s| - 1])
  }

  lemma {:induction false} DigitsValueOfNatToString(n: nat)
    ensures DigitsValue(NatToString(n)) == n
    decreases n
  {
    var s := NatToString(n);
    if n < 10 {
      DigitCharVal(n);
    } else {
      DigitsValueOfNatToString(n / 10);
      DigitCharVal(n % 10);
      assert s[..|s| - 1] == NatToString(n / 10);
    }
  }

  // ---------------------------------------------------------------------------
  // parseInt(s, 10)
  // ---------------------------------------------------------------------------

  /** The characters `parseInt` skips before the number: ECMAScript's
      WhiteSpace and LineTerminator productions. */
  predicate IsJsSpace(c: char) {
    var n := c as int;
    || (0x09 <= n <= 0x0D) || n == 0x20 || n == 0xA0 || n == 0x1680
    || (0x2000 <= n <= 0x200A) || n == 0x2028 || n == 0x2029 || n == 0x202F
    || n == 0x205F || n == 0x3000 || n == 0xFEFF
  }

  function TrimStartSpace(s: string): (t: string)
    ensures |t| <= |s| && t == s[|s| - |t|..]
    ensures |t| > 0 ==> !IsJsSpace(t[0])
    decreases |s|
  {
    if |s| > 0 && IsJsSpace(s[0]) then TrimStartSpace(s[1..]) else s
  }

  /** Length of the longest prefix of `s` made of decimal digits. */
  function DigitPrefixLen(s: string): (k: nat)
    ensures k <= |s|
    ensures forall i :: 0 <= i < k ==> IsDigit(s[i])
    ensures k < |s| ==> !IsDigit(s[k])
    decreases |s|
  {
    if |s| > 0 && IsDigit(s[0]) then 1 + DigitPrefixLen(s[1..]) else 0
  }

  /** The unsigned part of `parseInt`: the value of the leading digits, or
      `None` (JavaScript's `NaN`) when there are none. */
  function LeadingDigits(s: string): (r: Option<nat>)
    ensures r.Some? <==> |s| > 0 && IsDigit(s[0])
  {
    var k := DigitPrefixLen(s);
    if k == 0 then None else Some(DigitsValue(s[..k]))
  }

  /** `parseInt(s, 10)`: skip leading white space, accept one sign, then read
      decimal digits up to the first non-digit. `None` stands for `NaN`. */
  function ParseInt(s: string): (r: Option<int>)
  {
    var t := TrimStartSpace(s);
    if |t| > 0 && t[0] == '-' then
      match LeadingDigits(t[1..])
      case None => None
      case Some(v) => Some(-(v as int))
    else if |t| > 0 && t[0] == '+' then
      match LeadingDigits(t[1..])
      case None => None
      case Some(v) => Some(v as int)
    else
      match LeadingDigits(t)
      case None => None
      case Some(v) => Some(v as int)
  }

  lemma {:induction false} DigitPrefixLenAll(s: string)
    requires forall i :: 0 <= i < |s| ==> IsDigit(s[i])
    ensures DigitPrefixLen(s) == |s|
  {
  }

  lemma {:induction false} LeadingDigitsOfNat(m: nat)
    ensures LeadingDigits(NatToString(m)) == Some(m)
  {
    var d := NatToString(m);
    DigitPrefixLenAll(d);
    DigitsValueOfNatToString(m);
    assert d[..|d|] == d;
  }

  /** `parseInt` reads back every integer that `String` prints. */
  lemma {:induction false} ParseIntRoundTrip(n: int)
    ensures ParseInt(IntToString(n)) == Some(n)
  {
    var m: nat := if n < 0 then -n else n;
    var d := NatToString(m);
    LeadingDigitsOfNat(m);
    var s := IntToString(n);
    assert !IsJsSpace(s[0]);
    assert TrimStartSpace(s) == s;
    if n < 0 {
      assert s[1..] == d;
    } else {
      assert s == d;
      assert IsDigit(s[0]);
    }
  }

  /** Text that starts with a digit string and goes on with a non-digit is
      read up to that non-digit only (`parseInt("30s", 10) == 30`). */
  lemma {:induction false} ParseIntStopsAtNonDigit(n: nat, rest: string)
    requires |rest| > 0 && !IsDigit(rest[0])
    ensures ParseInt(NatToString(n) + rest) == Some(n as int)
  {
    var d := NatToString(n);
    var t := d + rest;
    assert t[..|d|] == d;
    assert DigitPrefixLen(t) == |d| by {
      DigitPrefixAppend(d, rest);
    }
    DigitsValueOfNatToString(n);
  }

  lemma {:induction false} DigitPrefixAppend(d: string, rest: string)
    requires forall i :: 0 <= i < |d| ==> IsDigit(d[i])
    requires |rest| > 0 && !IsDigit(rest[0])
    ensures DigitPrefixLen(d + rest) == |d|
    decreases |d|
  {
    if |d| > 0 {
      assert (d + rest)[1..] == d[1..] + rest;
      DigitPrefixAppend(d[1..], rest);
    } else {
      assert d + rest == rest;
    }
  }

  // ---------------------------------------------------------------------------
  // Searching, splitting and joining
  // ---------------------------------------------------------------------------

  predicate OccursAt(s: string, sub: string, j: int) {
    0 <= j && j + |sub| <= |s| && s[j..j + |sub|] == sub
  }

  /** `s.includes(sub)`. */
  predicate Contains(s: string, sub: string) {
    exists j :: 0 <= j <= |s| && OccursAt(s, sub, j)
  }

  /** An occurrence survives text added on either side. */
  lemma {:induction false} ContainsWithin(a: string, s: string, b: string, sub: string)
    requires Contains(s, sub)
    ensures Contains(a + s + b, sub)
  {
    var j :| 0 <= j <= |s| && OccursAt(s, sub, j);
    assert (a + s + b)[|a| + j..|a| + j + |sub|] == s[j..j + |sub|];
    assert OccursAt(a + s + b, sub, |a| + j);
  }

  /** Lower-casing both sides keeps an occurrence. */
  lemma {:induction false} ContainsLower(s: string, sub: string)
    requires Contains(s, sub)
    ensures Contains(ToLower(s), ToLower(sub))
  {
    var j :| 0 <= j <= |s| && OccursAt(s, sub, j);
    assert ToLower(s)[j..j + |sub|] == ToLower(sub);
    assert OccursAt(ToLower(s), ToLower(sub), j);
  }

  /** The index of the first occurrence of a non-empty `sep` in `s`
      (`s.indexOf(sep)`, with `None` for -1). */
  function FirstIndex(s: string, sep: string): (r: Option<nat>)
    requires |sep| > 0
    ensures r.Some? ==> OccursAt(s, sep, r.value)
    ensures r.Some? ==> forall j :: 0 <= j < r.value ==> !OccursAt(s, sep, j)
    ensures r.None? ==> forall j :: 0 <= j <= |s| ==> !OccursAt(s, sep, j)
    decreases |s|
  {
    if |s| < |sep| then None
    else if sep <= s then Some(0)
    else
      match FirstIndex(s[1..], sep)
      case None =>
        assert forall j :: 1 <= j <= |s| ==> (OccursAt(s, sep, j) ==> OccursAt(s[1..], sep, j - 1));
        None
      case Some(i) =>
        assert forall j :: 1 <= j <= i ==> (OccursAt(s, sep, j) ==> OccursAt(s[1..], sep, j - 1));
        assert s[i + 1..i + 1 + |sep|] == s[1..][i..i + |sep|];
        Some(i + 1)
  }

  /** `parts.join(sep)`. */
  function Join(parts: seq<string>, sep: string): string
    decreases |parts|
  {
    if |parts| == 0 then ""
    else if |parts| == 1 then parts[0]
    else parts[0] + sep + Join(parts[1..], sep)
  }

  /** Every part occurs in the joined text. */
  lemma {:induction false} JoinContains(parts: seq<string>, sep: string, i: int)
    requires 0 <= i < |parts|
    ensures Contains(Join(parts, sep), parts[i])
    decreases |parts|
  {
    if |parts| == 1 {
      assert OccursAt(parts[0], parts[0], 0);
    } else if i == 0 {
      assert OccursAt(parts[0], parts[0], 0);
      ContainsWithin("", parts[0], sep + Join(parts[1..], sep), parts[0]);
      assert "" + parts[0] + (sep + Join(parts[1..], sep)) == Join(parts, sep);
    } else {
      JoinContains(parts[1..], sep, i - 1);
      ContainsWithin(parts[0] + sep, Join(parts[1..], sep), "", parts[i]);
      assert parts[0] + sep + Join(parts[1..], sep) + "" == Join(parts, sep);
    }
  }

  /** `s.split(sep)` for a non-empty separator: the pieces between successive
      left-to-right occurrences of `sep`. Joining them back gives `s`. */
  function Split(s: string, sep: string): (parts: seq<string>)
    requires |sep| > 0
    ensures |parts| >= 1
    ensures Join(parts, sep) == s
    decreases |s|
  {
    match FirstIndex(s, sep)
    case None => [s]
    case Some(i) =>
      var tail := s[i + |sep|..];
      var rest := Split(tail, sep);
      var parts := [s[..i]] + rest;
      assert parts[1..] == rest;
      assert Join(parts, sep) == s[..i] + sep + tail;
      assert s[..i] + sep + tail == s by {
        assert s[i..i + |sep|] == sep;
        assert s == s[..i] + s[i..i + |sep|] + tail;
      }
      parts
  }

  /** `s.split(sep).slice(1).join(sep)` is everything after the first
      occurrence of `sep`, and the empty string when there is none. */
  lemma {:induction false} SplitTailJoin(s: string, sep: string)
    requires |sep| > 0
    ensures FirstIndex(s, sep).None? ==> Join(Split(s, sep)[1..], sep) == ""
    ensures FirstIndex(s, sep).Some? ==>
      Join(Split(s, sep)[1..], sep) == s[FirstIndex(s, sep).value + |sep|..]
  {
    match FirstIndex(s, sep)
    case None =>
    case Some(i) =>
      assert Split(s, sep)[1..] == Split(s[i + |sep|..], sep);
  }

  // ---------------------------------------------------------------------------
  // Case
  // ---------------------------------------------------------------------------

  function LowerChar(c: char): (d: char)
    ensures 'A' <= c <= 'Z' ==> 'a' <= d <= 'z'
    ensures !('A' <= c <= 'Z') ==> d == c
  {
    if 'A' <= c <= 'Z' then (c as int + 32) as char else c
  }

  /** `s.toLowerCase()` restricted to ASCII letters. */
  function ToLower(s: string): (t: string)
    ensures |t| == |s|
    ensures forall i :: 0 <= i < |s| ==> t[i] == LowerChar(s[i])
  {
    seq(|s|, i requires 0 <= i < |s| => LowerChar(s[i]))
  }

  function UpperChar(c: char): (d: char)
    ensures 'a' <= c <= 'z' ==> 'A' <= d <= 'Z'
    ensures !('a' <= c <= 'z') ==> d == c
  {
    if 'a' <= c <= 'z' then (c as int - 32) as char else c
  }

  /** `s.toUpperCase()` restricted to ASCII letters. */
  function ToUpper(s: string): (t: string)
    ensures |t| == |s|
    ensures forall i :: 0 <= i < |s| ==> t[i] == UpperChar(s[i])
  {
    seq(|s|, i requires 0 <= i < |s| => UpperChar(s[i]))
  }

  // ---------------------------------------------------------------------------
  // Slicing
  // ---------------------------------------------------------------------------

  /** `s.slice(0, n)`: the first `n` characters, or all of `s` when it is
      shorter. */
  function Take(s: string, n: nat): (t: string)
    ensures t <= s
    ensures |t| == if |s| < n then |s| else n
  {
    if |s| < n then s else s[..n]
  }

  // ---------------------------------------------------------------------------
  // Ordering
  // ---------------------------------------------------------------------------

  /** Code-unit lexicographic order (SQLite's `BINARY` collation for ASCII
      text): a prefix comes first, otherwise the first differing character
      decides. */
  predicate LexLe(a: string, b: string)
    decreases |a|
  {
    |a| == 0 || (|b| > 0 && (a[0] < b[0] || (a[0] == b[0] && LexLe(a[1..], b[1..]))))
  }

  lemma {:induction false} LexLeTotal(a: string, b: string)
    ensures LexLe(a, b) || LexLe(b, a)
    decreases |a|
  {
    if |a| > 0 && |b| > 0 && a[0] == b[0] {
      LexLeTotal(a[1..], b[1..]);
    }
  }

  lemma {:induction false} LexLeTrans(a: string, b: string, c: string)
    requires LexLe(a, b) && LexLe(b, c)
    ensures LexLe(a, c)
    decreases |a|
  {
    if |a| > 0 && a[0] == b[0] && b[0] == c[0] {
      LexLeTrans(a[1..], b[1..], c[1..]);
    }
  }

  lemma {:induction false} LexLeAntisym(a: string, b: string)
    requires LexLe(a, b) && LexLe(b, a)
    ensures a == b
    decreases |a|
  {
    if |a| > 0 {
      LexLeAntisym(a[1..], b[1..]);
      assert a == [a[0]] + a[1..] && b == [b[0]] + b[1..];
    }
  }
}
