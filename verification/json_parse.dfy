/** `JSON.parse` for the integer-number fragment of JSON, and the proof that
    it reads back every text `JSON.stringify` writes. */
module JsonParse {
  import opened Wrappers
  import Strs
  import opened Json

  // ---------------------------------------------------------------------------
  // Lexical pieces
  // ---------------------------------------------------------------------------

  /** The white space JSON allows between tokens. */
  predicate IsWs(c: char) {
    c == ' ' || c == '\t' || c == '\n' || c == '\r'
  }

  function SkipWs(s: string): (t: string)
    ensures |t| <= |s|
    ensures |t| > 0 ==> !IsWs(t[0])
    decreases |s|
  {
    if |s| > 0 && IsWs(s[0]) then SkipWs(s[1..]) else s
  }

  function HexVal(c: char): (r: Option<nat>)
    ensures r.Some? ==> r.value < 16
  {
    if '0' <= c <= '9' then Some((c as int) - ('0' as int))
    else if 'a' <= c <= 'f' then Some((c as int) - ('a' as int) + 10)
    else if 'A' <= c <= 'F' then Some((c as int) - ('A' as int) + 10)
    else None
  }

  /** The character an escape sequence stands for (the text after the
      backslash), and what follows the sequence. A `\u` escape naming a UTF-16
      surrogate has no single-character meaning here and is refused. */
  function Unescape(s: string): (r: Option<(char, string)>)
    ensures r.Some? ==> |r.value.1| < |s|
  {
    if |s| == 0 then None
    else if s[0] == '"' || s[0] == '\\' || s[0] == '/' then Some((s[0], s[1..]))
    else if s[0] == 'b' then Some((8 as char, s[1..]))
    else if s[0] == 'f' then Some((12 as char, s[1..]))
    else if s[0] == 'n' then Some(('\n', s[1..]))
    else if s[0] == 'r' then Some(('\r', s[1..]))
    else if s[0] == 't' then Some(('\t', s[1..]))
    else if s[0] == 'u' && |s| >= 5 then
      match (HexVal(s[1]), HexVal(s[2]), HexVal(s[3]), HexVal(s[4]))
      case (Some(a), Some(b), Some(c), Some(d)) =>
        var v := ((a * 16 + b) * 16 + c) * 16 + d;
        if 0xD800 <= v <= 0xDFFF then None else Some((v as char, s[5..]))
      case _ => None
    else None
  }

  /** The contents of a string literal whose opening quote has been read, and
      the text after its closing quote. Raw control characters are refused. */
  function ParseStringBody(s: string): (r: Option<(string, string)>)
    ensures r.Some? ==> |r.value.1| < |s|
    decreases |s|
  {
    if |s| == 0 then None
    else if s[0] == '"' then Some(("", s[1..]))
    else if s[0] == '\\' then
      match Unescape(s[1..])
      case None => None
      case Some(e) =>
        match ParseStringBody(e.1)
        case None => None
        case Some(p) => Some(([e.0] + p.0, p.1))
    else if (s[0] as int) < 0x20 then None
    else
      match ParseStringBody(s[1..])
      case None => None
      case Some(p) => Some(([s[0]] + p.0, p.1))
  }

  /** An unsigned integer without superfluous leading zeros. */
  function ParseNat(s: string): (r: Option<(nat, string)>)
    ensures r.Some? ==> |r.value.1| < |s|
  {
    if |s| == 0 || !Strs.IsDigit(s[0]) then None
    else if s[0] == '0' then Some((0, s[1..]))
    else
      var k := Strs.DigitPrefixLen(s);
      Some((Strs.DigitsValue(s[..k]), s[k..]))
  }

  /** Text that would make the number before it a fraction or carry an
      exponent: outside the integer fragment this model covers. */
  predicate FractionOrExponent(s: string) {
    |s| > 0 && (s[0] == '.' || s[0] == 'e' || s[0] == 'E')
  }

  function ParseNumber(s: string): (r: Option<(Json, string)>)
    ensures r.Some? ==> |r.value.1| < |s| && r.value.0.JNum?
  {
    var neg := |s| > 0 && s[0] == '-';
    var digits := if neg then s[1..] else s;
    match ParseNat(digits)
    case None => None
    case Some(p) =>
      if FractionOrExponent(p.1) then None
      else Some((JNum(if neg then -(p.0 as int) else p.0 as int), p.1))
  }

  function ParseLiteral(s: string, word: string, v: Json): (r: Option<(Json, string)>)
    requires |word| > 0
    ensures r.Some? ==> |r.value.1| < |s| && r.value.0 == v
  {
    if |word| <= |s| && s[..|word|] == word then Some((v, s[|word|..])) else None
  }

  // ---------------------------------------------------------------------------
  // Values
  // ---------------------------------------------------------------------------

  function AsStr(r: Option<(string, string)>): (v: Option<(Json, string)>)
    ensures v.Some? <==> r.Some?
    ensures v.Some? ==> v.value == (JStr(r.value.0), r.value.1)
  {
    match r
    case None => None
    case Some(p) => Some((JStr(p.0), p.1))
  }

  function AsArr(r: Option<(seq<Json>, string)>): (v: Option<(Json, string)>)
    ensures v.Some? <==> r.Some?
    ensures v.Some? ==> v.value == (JArr(r.value.0), r.value.1)
  {
    match r
    case None => None
    case Some(p) => Some((JArr(p.0), p.1))
  }

  function AsObj(r: Option<(seq<Member>, string)>): (v: Option<(Json, string)>)
    ensures v.Some? <==> r.Some?
    ensures v.Some? ==> v.value == (JObj(r.value.0), r.value.1)
  {
    match r
    case None => None
    case Some(p) => Some((JObj(p.0), p.1))
  }

  /** One value after optional white space, and the text after it. */
  function ParseValue(s: string): (r: Option<(Json, string)>)
    ensures r.Some? ==> |r.value.1| < |s|
    decreases |s|, 0
  {
    var t := SkipWs(s);
    if |t| == 0 then None
    else if t[0] == '[' then ParseArray(t[1..])
    else if t[0] == '{' then ParseObject(t[1..])
    else if t[0] == '"' then AsStr(ParseStringBody(t[1..]))
    else if t[0] == 'n' then ParseLiteral(t, "null", JNull)
    else if t[0] == 't' then ParseLiteral(t, "true", JBool(true))
    else if t[0] == 'f' then ParseLiteral(t, "false", JBool(false))
    else ParseNumber(t)
  }

  /** The rest of an array whose `[` has been read. */
  function ParseArray(s: string): (r: Option<(Json, string)>)
    ensures r.Some? ==> |r.value.1| < |s|
    decreases |s|, 3
  {
    var t := SkipWs(s);
    if |t| > 0 && t[0] == ']' then Some((JArr([]), t[1..]))
    else AsArr(ParseElements(t))
  }

  /** One or more comma-separated values and the closing `]`. */
  function ParseElements(s: string): (r: Option<(seq<Json>, string)>)
    ensures r.Some? ==> |r.value.1| < |s|
    decreases |s|, 1
  {
    match ParseValue(s)
    case None => None
    case Some(p) =>
      var u := SkipWs(p.1);
      if |u| > 0 && u[0] == ']' then Some(([p.0], u[1..]))
      else if |u| > 0 && u[0] == ',' then
        match ParseElements(u[1..])
        case None => None
        case Some(q) => Some(([p.0] + q.0, q.1))
      else None
  }

  /** The rest of an object whose `{` has been read. */
  function ParseObject(s: string): (r: Option<(Json, string)>)
    ensures r.Some? ==> |r.value.1| < |s|
    decreases |s|, 3
  {
    var t := SkipWs(s);
    if |t| > 0 && t[0] == '}' then Some((JObj([]), t[1..]))
    else AsObj(ParseMembers(t))
  }

  /** One `"key": value` pair. */
  function ParseMember(s: string): (r: Option<(Member, string)>)
    ensures r.Some? ==> |r.value.1| < |s|
    decreases |s|, 1
  {
    var t := SkipWs(s);
    if |t| == 0 || t[0] != '"' then None
    else
      match ParseStringBody(t[1..])
      case None => None
      case Some(k) =>
        var c := SkipWs(k.1);
        if |c| == 0 || c[0] != ':' then None
        else
          match ParseValue(c[1..])
          case None => None
          case Some(p) => Some((Member(k.0, p.0), p.1))
  }

  /** One or more comma-separated members and the closing `}`. */
  function ParseMembers(s: string): (r: Option<(seq<Member>, string)>)
    ensures r.Some? ==> |r.value.1| < |s|
    decreases |s|, 2
  {
    match ParseMember(s)
    case None => None
    case Some(p) =>
      var u := SkipWs(p.1);
      if |u| > 0 && u[0] == '}' then Some(([p.0], u[1..]))
      else if |u| > 0 && u[0] == ',' then
        match ParseMembers(u[1..])
        case None => None
        case Some(q) => Some(([p.0] + q.0, q.1))
      else None
  }

  /** `JSON.parse(s)`: one value, surrounded by nothing but white space;
      `None` where `JSON.parse` throws. */
  function Parse(s: string): (r: Option<Json>)
    ensures r.Some? ==> ParseValue(s).Some? && r.value == ParseValue(s).value.0
  {
    match ParseValue(s)
    case None => None
    case Some(p) => if SkipWs(p.1) == "" then Some(p.0) else None
  }

  // ---------------------------------------------------------------------------
  // Parse reads back what Stringify writes
  // ---------------------------------------------------------------------------

  lemma {:induction false} SkipWsNone(s: string)
    requires |s| == 0 || !IsWs(s[0])
    ensures SkipWs(s) == s
  {
  }

  lemma {:induction false} HexValOfDigit(d: nat)
    requires d < 16
    ensures HexVal(HexDigit(d)) == Some(d)
  {
  }

  /** Reading one escaped character back gives that character, followed by
      whatever the rest of the literal reads as. */
  lemma {:induction false} EscapeCharParses(c: char, tail: string)
    ensures ParseStringBody(EscapeChar(c) + tail) ==
      match ParseStringBody(tail)
      case None => None
      case Some(p) => Some(([c] + p.0, p.1))
  {
    var e := EscapeChar(c);
    if e == [c] {
      assert (e + tail)[1..] == tail;
    } else if (c as int) < 0x20 && c != '\n' && c != '\r' && c != '\t' && (c as int) != 8 && (c as int) != 12 {
      UnescapeHex(c, tail);
      EscapedStep(e + tail, c, tail);
    } else {
      UnescapeShort(c, tail);
      EscapedStep(e + tail, c, tail);
    }
  }

  /** A backslash sequence that reads as `c`: the string goes on after it. */
  lemma {:induction false} EscapedStep(s: string, c: char, tail: string)
    requires |s| > 0 && s[0] == '\\' && Unescape(s[1..]) == Some((c, tail))
    ensures ParseStringBody(s) ==
      match ParseStringBody(tail)
      case None => None
      case Some(p) => Some(([c] + p.0, p.1))
  {
  }

  lemma {:induction false} UnescapeHex(c: char, tail: string)
    requires (c as int) < 0x20 && c != '\n' && c != '\r' && c != '\t' && (c as int) != 8 && (c as int) != 12
    ensures var s := EscapeChar(c) + tail;
      s[0] == '\\' && Unescape(s[1..]) == Some((c, tail))
  {
    var v := c as int;
    var s := EscapeChar(c) + tail;
    HexValOfDigit(v / 16);
    HexValOfDigit(v % 16);
    assert s[1..] == ['u', '0', '0', HexDigit(v / 16), HexDigit(v % 16)] + tail;
    assert s[1..][5..] == tail;
  }

  lemma {:induction false} UnescapeShort(c: char, tail: string)
    requires EscapeChar(c) != [c]
    requires !((c as int) < 0x20 && c != '\n' && c != '\r' && c != '\t' && (c as int) != 8 && (c as int) != 12)
    ensures var s := EscapeChar(c) + tail;
      s[0] == '\\' && Unescape(s[1..]) == Some((c, tail))
  {
    var e := EscapeChar(c);
    var s := e + tail;
    assert |e| == 2;
    assert s[1..] == [e[1]] + tail;
    assert s[1..][1..] == tail;
  }

  lemma {:induction false} EscapeStringParses(s: string, rest: string)
    ensures ParseStringBody(EscapeString(s) + "\"" + rest) == Some((s, rest))
    decreases |s|
  {
    if |s| == 0 {
      assert EscapeString(s) + "\"" + rest == "\"" + rest;
      assert ("\"" + rest)[1..] == rest;
    } else {
      var tail := EscapeString(s[1..]) + "\"" + rest;
      assert EscapeString(s) + "\"" + rest == EscapeChar(s[0]) + tail;
      EscapeStringParses(s[1..], rest);
      EscapeCharParses(s[0], tail);
      assert [s[0]] + s[1..] == s;
    }
  }

  /** What may follow a value inside a text `JSON.stringify` wrote. */
  predicate Delimited(rest: string) {
    |rest| == 0 || rest[0] == ',' || rest[0] == ']' || rest[0] == '}'
  }

  lemma {:induction false} NatToStringLead(n: nat)
    requires n > 0
    ensures Strs.NatToString(n)[0] != '0'
    decreases n
  {
    if n >= 10 {
      NatToStringLead(n / 10);
    }
  }

  lemma {:induction false} ParseNatOfNat(n: nat, rest: string)
    requires Delimited(rest)
    ensures ParseNat(Strs.NatToString(n) + rest) == Some((n, rest))
  {
    var d := Strs.NatToString(n);
    var s := d + rest;
    if n == 0 {
      assert d == "0";
      assert s[1..] == rest;
    } else {
      NatToStringLead(n);
      if |rest| > 0 {
        Strs.DigitPrefixAppend(d, rest);
      } else {
        assert s == d;
        Strs.DigitPrefixLenAll(d);
      }
      assert s[..|d|] == d;
      assert s[|d|..] == rest;
      Strs.DigitsValueOfNatToString(n);
    }
  }

  lemma {:induction false} ParseNumberOfInt(n: int, rest: string)
    requires Delimited(rest)
    ensures ParseNumber(Strs.IntToString(n) + rest) == Some((JNum(n), rest))
  {
    if n < 0 {
      NegativeText(n);
      ParseNegative(-n, rest);
    } else {
      ParseNonNegative(n, rest);
    }
  }

  lemma {:induction false} NegativeText(n: int)
    requires n < 0
    ensures Strs.IntToString(n) == "-" + Strs.NatToString(-n)
  {
  }

  lemma {:induction false} ParseNegative(m: nat, rest: string)
    requires Delimited(rest) && m > 0
    ensures ParseNumber("-" + Strs.NatToString(m) + rest) == Some((JNum(-(m as int)), rest))
  {
    var s := "-" + Strs.NatToString(m) + rest;
    assert s[1..] == Strs.NatToString(m) + rest;
    ParseNatOfNat(m, rest);
    ParseNumberSteps(s, true, m, rest);
  }

  lemma {:induction false} ParseNonNegative(n: int, rest: string)
    requires Delimited(rest) && n >= 0
    ensures ParseNumber(Strs.IntToString(n) + rest) == Some((JNum(n), rest))
  {
    var d := Strs.NatToString(n);
    assert Strs.IntToString(n) == d;
    ParseNatOfNat(n, rest);
    assert Strs.IsDigit(d[0]);
    ParseNumberSteps(d + rest, false, n, rest);
  }

  /** `ParseNumber`, step by step: the sign, the digits, and no fraction or
      exponent after them. */
  lemma {:induction false} ParseNumberSteps(s: string, neg: bool, m: nat, rest: string)
    requires neg <==> |s| > 0 && s[0] == '-'
    requires ParseNat(if neg then s[1..] else s) == Some((m, rest))
    requires !FractionOrExponent(rest)
    ensures ParseNumber(s) == Some((JNum(if neg then -(m as int) else m), rest))
  {
  }

  /** Every rendering is non-empty and starts with a character that opens a
      value. */
  lemma {:induction false} StringifyStart(j: Json)
    ensures |Stringify(j)| > 0
    ensures var c := Stringify(j)[0];
      !IsWs(c) && c != ']' && c != '}' && c != ',' && c != ':'
  {
    match j
    case JNum(n) =>
      var m: nat := if n < 0 then -n else n;
      assert Strs.IsDigit(Strs.NatToString(m)[0]);
    case _ =>
  }

  /** The renderings of array items, in order. */
  function ItemTexts(items: seq<Json>): (ts: seq<string>)
    ensures |ts| == |items|
  {
    seq(|items|, i requires 0 <= i < |items| => Stringify(items[i]))
  }

  function MemberText(m: Member): string {
    Quote(m.key) + ":" + Stringify(m.value)
  }

  /** The renderings of object members, in order. */
  function MemberTexts(ms: seq<Member>): (ts: seq<string>)
    ensures |ts| == |ms|
  {
    seq(|ms|, i requires 0 <= i < |ms| => MemberText(ms[i]))
  }

  lemma {:induction false} StringifyArr(items: seq<Json>)
    ensures Stringify(JArr(items)) == "[" + Strs.Join(ItemTexts(items), ",") + "]"
  {
  }

  lemma {:induction false} StringifyObj(ms: seq<Member>)
    ensures Stringify(JObj(ms)) == "{" + Strs.Join(MemberTexts(ms), ",") + "}"
  {
    assert MemberTexts(ms) == seq(|ms|, i requires 0 <= i < |ms| => Quote(ms[i].key) + ":" + Stringify(ms[i].value));
  }

  /** Joining a list of one or more texts: the first, then the rest. */
  lemma {:induction false} JoinCons(parts: seq<string>, sep: string)
    requires |parts| > 0
    ensures |parts| == 1 ==> Strs.Join(parts, sep) == parts[0]
    ensures |parts| > 1 ==> Strs.Join(parts, sep) == parts[0] + sep + Strs.Join(parts[1..], sep)
  {
  }

  lemma {:induction false} JoinHead(parts: seq<string>, sep: string)
    requires |parts| > 0 && |parts[0]| > 0
    ensures |Strs.Join(parts, sep)| > 0 && Strs.Join(parts, sep)[0] == parts[0][0]
  {
  }

  /** How `ParseValue` dispatches on the first character of a value. */
  lemma {:induction false} ParseValueAt(s: string)
    requires |s| > 0 && !IsWs(s[0])
    ensures s[0] == '[' ==> ParseValue(s) == ParseArray(s[1..])
    ensures s[0] == '{' ==> ParseValue(s) == ParseObject(s[1..])
    ensures s[0] == '"' ==> ParseValue(s) == AsStr(ParseStringBody(s[1..]))
    ensures s[0] == 'n' ==> ParseValue(s) == ParseLiteral(s, "null", JNull)
    ensures s[0] == 't' ==> ParseValue(s) == ParseLiteral(s, "true", JBool(true))
    ensures s[0] == 'f' ==> ParseValue(s) == ParseLiteral(s, "false", JBool(false))
    ensures (s[0] == '-' || Strs.IsDigit(s[0])) ==> ParseValue(s) == ParseNumber(s)
  {
    SkipWsNone(s);
  }

  lemma {:induction false} ParseArrayAt(s: string)
    requires |s| > 0 && !IsWs(s[0])
    ensures s[0] == ']' ==> ParseArray(s) == Some((JArr([]), s[1..]))
    ensures s[0] != ']' ==> ParseArray(s) == AsArr(ParseElements(s))
  {
    SkipWsNone(s);
  }

  lemma {:induction false} ParseObjectAt(s: string)
    requires |s| > 0 && !IsWs(s[0])
    ensures s[0] == '}' ==> ParseObject(s) == Some((JObj([]), s[1..]))
    ensures s[0] != '}' ==> ParseObject(s) == AsObj(ParseMembers(s))
  {
    SkipWsNone(s);
  }

  lemma {:induction false} ParseElementsLast(s: string, v: Json, after: string)
    requires ParseValue(s) == Some((v, after))
    requires |after| > 0 && after[0] == ']'
    ensures ParseElements(s) == Some(([v], after[1..]))
  {
    SkipWsNone(after);
  }

  lemma {:induction false} ParseElementsMore(s: string, v: Json, after: string, vs: seq<Json>, rest: string)
    requires ParseValue(s) == Some((v, after))
    requires |after| > 0 && after[0] == ','
    requires ParseElements(after[1..]) == Some((vs, rest))
    ensures ParseElements(s) == Some(([v] + vs, rest))
  {
    SkipWsNone(after);
  }

  /** A rendered member followed by the rest of the text reads back as
      itself, given that its value does. */
  lemma {:induction false} ParseMemberText(m: Member, after: string)
    requires ParseValue(Stringify(m.value) + after) == Some((m.value, after))
    ensures ParseMember(MemberText(m) + after) == Some((m, after))
  {
    ParseMemberOf(m.key, Stringify(m.value), m.value, after);
  }

  /** A quoted key, a colon and the text of a value parse as that member,
      whatever the value's text. */
  lemma {:induction false} ParseMemberOf(key: string, text: string, v: Json, after: string)
    requires ParseValue(text + after) == Some((v, after))
    ensures ParseMember(Quote(key) + ":" + text + after) == Some((Member(key, v), after))
  {
    var tail := ":" + (text + after);
    assert Quote(key) + ":" + text + after == Quote(key) + tail;
    QuotedKey(key, tail);
    ColonValue(text + after);
    ParseMemberSteps(Quote(key) + tail, key, tail, text + after, v, after);
  }

  /** `s` opens with a quoted key and `tail` follows its closing quote. */
  predicate KeyThen(s: string, key: string, tail: string) {
    SkipWs(s) == s && |s| > 0 && s[0] == '"' && ParseStringBody(s[1..]) == Some((key, tail))
  }

  /** `tail` is a colon and then `v`. */
  predicate ColonThen(tail: string, v: string) {
    SkipWs(tail) == tail && |tail| > 0 && tail[0] == ':' && tail[1..] == v
  }

  /** `ParseMember`, step by step: the quoted key, the colon, the value. */
  lemma {:induction false} ParseMemberSteps(s: string, key: string, tail: string, text: string, v: Json, after: string)
    requires KeyThen(s, key, tail) && ColonThen(tail, text)
    requires ParseValue(text) == Some((v, after))
    ensures ParseMember(s) == Some((Member(key, v), after))
  {
  }

  /** A quoted key, then anything: the key is read back and the rest left. */
  lemma {:induction false} QuotedKey(key: string, tail: string)
    ensures KeyThen(Quote(key) + tail, key, tail)
  {
    var s := Quote(key) + tail;
    assert s == "\"" + (EscapeString(key) + "\"" + tail);
    SkipWsNone(s);
    assert s[1..] == EscapeString(key) + "\"" + tail;
    EscapeStringParses(key, tail);
  }

  lemma {:induction false} ColonValue(v: string)
    ensures ColonThen(":" + v, v)
  {
    SkipWsNone(":" + v);
  }

  lemma {:induction false} ParseMembersLast(s: string, m: Member, after: string)
    requires ParseMember(s) == Some((m, after))
    requires |after| > 0 && after[0] == '}'
    ensures ParseMembers(s) == Some(([m], after[1..]))
  {
    SkipWsNone(after);
  }

  lemma {:induction false} ParseMembersMore(s: string, m: Member, after: string, ms: seq<Member>, rest: string)
    requires ParseMember(s) == Some((m, after))
    requires |after| > 0 && after[0] == ','
    requires ParseMembers(after[1..]) == Some((ms, rest))
    ensures ParseMembers(s) == Some(([m] + ms, rest))
  {
    SkipWsNone(after);
  }

  lemma {:induction false} ParseScalarStringify(j: Json, rest: string)
    requires !j.JArr? && !j.JObj?
    requires Delimited(rest)
    ensures ParseValue(Stringify(j) + rest) == Some((j, rest))
  {
    var s := Stringify(j) + rest;
    StringifyStart(j);
    ParseValueAt(s);
    match j {
      case JNull =>
        assert s[..4] == "null" && s[4..] == rest;
      case JBool(b) =>
        if b {
          assert s[..4] == "true" && s[4..] == rest;
        } else {
          assert s[..5] == "false" && s[5..] == rest;
        }
      case JNum(n) =>
        var m: nat := if n < 0 then -n else n;
        assert Strs.IsDigit(Strs.NatToString(m)[0]);
        assert s[0] == '-' || Strs.IsDigit(s[0]);
        ParseNumberOfInt(n, rest);
      case JStr(str) =>
        assert s[1..] == EscapeString(str) + "\"" + rest;
        EscapeStringParses(str, rest);
    }
  }

  /** `JSON.parse` inverts `JSON.stringify`: a rendered value followed by a
      delimiter reads back as itself. */
  lemma {:induction false} ParseValueStringify(j: Json, rest: string)
    requires Delimited(rest)
    ensures ParseValue(Stringify(j) + rest) == Some((j, rest))
    decreases j, 2
  {
    if j.JArr? {
      ParseArrayStringify(j, rest);
    } else if j.JObj? {
      ParseObjectStringify(j, rest);
    } else {
      ParseScalarStringify(j, rest);
    }
  }

  /** `[]` followed by a delimiter parses to the empty array. */
  lemma {:induction false} EmptyArrayParses(rest: string)
    ensures ParseArray(ItemsBody([], rest)) == Some((JArr([]), rest))
  {
    var body := ItemsBody([], rest);
    assert body == "]" + rest;
    ParseArrayAt(body);
    assert body[1..] == rest;
  }

  /** `{}` followed by a delimiter parses to the empty object. */
  lemma {:induction false} EmptyObjectParses(rest: string)
    ensures ParseObject(MembersBody([], rest)) == Some((JObj([]), rest))
  {
    var body := MembersBody([], rest);
    assert body == "}" + rest;
    ParseObjectAt(body);
    assert body[1..] == rest;
  }

  lemma {:induction false} ParseArrayStringify(j: Json, rest: string)
    requires j.JArr? && Delimited(rest)
    ensures ParseValue(Stringify(j) + rest) == Some((j, rest))
    decreases j, 1
  {
    var items := j.items;
    var body := ItemsBody(items, rest);
    var s := Stringify(j) + rest;
    StringifyArr(items);
    assert s == "[" + body;
    ParseValueAt(s);
    assert s[1..] == body;
    if |items| == 0 {
      EmptyArrayParses(rest);
    } else {
      StringifyStart(items[0]);
      JoinHead(ItemTexts(items), ",");
      ParseArrayAt(body);
      ParseElementsStringify(j, 0, rest);
      assert items[0..] == items;
    }
  }

  lemma {:induction false} ParseObjectStringify(j: Json, rest: string)
    requires j.JObj? && Delimited(rest)
    ensures ParseValue(Stringify(j) + rest) == Some((j, rest))
    decreases j, 1
  {
    var ms := j.members;
    var body := MembersBody(ms, rest);
    var s := Stringify(j) + rest;
    StringifyObj(ms);
    assert s == "{" + body;
    ParseValueAt(s);
    assert s[1..] == body;
    if |ms| == 0 {
      EmptyObjectParses(rest);
    } else {
      JoinHead(MemberTexts(ms), ",");
      assert body[0] == '"';
      ParseObjectAt(body);
      ParseMembersStringify(j, 0, rest);
      assert ms[0..] == ms;
    }
  }

  /** The text of a list of items, joined with commas and closed by `]`. */
  function ItemsBody(items: seq<Json>, rest: string): string {
    Strs.Join(ItemTexts(items), ",") + "]" + rest
  }

  /** The text of a list of members, joined with commas and closed by `}`. */
  function MembersBody(ms: seq<Member>, rest: string): string {
    Strs.Join(MemberTexts(ms), ",") + "}" + rest
  }

  lemma {:induction false} ParseItemsOne(head: Json, rest: string)
    requires ParseValue(Stringify(head) + ("]" + rest)) == Some((head, "]" + rest))
    ensures ParseElements(ItemsBody([head], rest)) == Some(([head], rest))
  {
    var s := Stringify(head) + ("]" + rest);
    JoinCons(ItemTexts([head]), ",");
    assert ItemsBody([head], rest) == s;
    ParseElementsLast(s, head, "]" + rest);
    assert ("]" + rest)[1..] == rest;
  }

  lemma {:induction false} ItemsBodyCons(items: seq<Json>, rest: string)
    requires |items| > 1
    ensures ItemsBody(items, rest) == Stringify(items[0]) + ("," + ItemsBody(items[1..], rest))
  {
    JoinBodyCons(ItemTexts(items), "]", rest);
    ItemTextsTail(items);
  }

  lemma {:induction false} ItemTextsTail(items: seq<Json>)
    requires |items| > 0
    ensures ItemTexts(items)[0] == Stringify(items[0]) && ItemTexts(items)[1..] == ItemTexts(items[1..])
  {
    assert ItemTexts(items)[1..] == ItemTexts(items[1..]);
  }

  /** Two or more texts joined with commas, closed and followed by more: the
      first text, a comma, then the rest joined the same way. */
  lemma {:induction false} JoinBodyCons(parts: seq<string>, close: string, rest: string)
    requires |parts| > 1
    ensures Strs.Join(parts, ",") + close + rest
      == parts[0] + ("," + (Strs.Join(parts[1..], ",") + close + rest))
  {
    JoinCons(parts, ",");
  }

  lemma {:induction false} ParseItemsCons(items: seq<Json>, rest: string)
    requires |items| > 1
    requires ParseValue(Stringify(items[0]) + ("," + ItemsBody(items[1..], rest)))
      == Some((items[0], "," + ItemsBody(items[1..], rest)))
    requires ParseElements(ItemsBody(items[1..], rest)) == Some((items[1..], rest))
    ensures ParseElements(ItemsBody(items, rest)) == Some((items, rest))
  {
    var after := "," + ItemsBody(items[1..], rest);
    ItemsBodyCons(items, rest);
    assert after[1..] == ItemsBody(items[1..], rest);
    ParseElementsMore(ItemsBody(items, rest), items[0], after, items[1..], rest);
    assert [items[0]] + items[1..] == items;
  }

  lemma {:induction false} ParseMembersOne(head: Member, rest: string)
    requires ParseValue(Stringify(head.value) + ("}" + rest)) == Some((head.value, "}" + rest))
    ensures ParseMembers(MembersBody([head], rest)) == Some(([head], rest))
  {
    var s := MemberText(head) + ("}" + rest);
    JoinCons(MemberTexts([head]), ",");
    assert MembersBody([head], rest) == s;
    ParseMemberText(head, "}" + rest);
    ParseMembersLast(s, head, "}" + rest);
    assert ("}" + rest)[1..] == rest;
  }

  lemma {:induction false} MembersBodyCons(ms: seq<Member>, rest: string)
    requires |ms| > 1
    ensures MembersBody(ms, rest) == MemberText(ms[0]) + ("," + MembersBody(ms[1..], rest))
  {
    JoinBodyCons(MemberTexts(ms), "}", rest);
    MemberTextsTail(ms);
  }

  lemma {:induction false} MemberTextsTail(ms: seq<Member>)
    requires |ms| > 0
    ensures MemberTexts(ms)[0] == MemberText(ms[0]) && MemberTexts(ms)[1..] == MemberTexts(ms[1..])
  {
    assert MemberTexts(ms)[1..] == MemberTexts(ms[1..]);
  }

  lemma {:induction false} ParseMembersCons(ms: seq<Member>, rest: string)
    requires |ms| > 1
    requires ParseValue(Stringify(ms[0].value) + ("," + MembersBody(ms[1..], rest)))
      == Some((ms[0].value, "," + MembersBody(ms[1..], rest)))
    requires ParseMembers(MembersBody(ms[1..], rest)) == Some((ms[1..], rest))
    ensures ParseMembers(MembersBody(ms, rest)) == Some((ms, rest))
  {
    var after := "," + MembersBody(ms[1..], rest);
    MembersBodyCons(ms, rest);
    ParseMemberText(ms[0], after);
    assert after[1..] == MembersBody(ms[1..], rest);
    ParseMembersMore(MembersBody(ms, rest), ms[0], after, ms[1..], rest);
    assert [ms[0]] + ms[1..] == ms;
  }

  /** The items `parent.items[k..]`, rendered, joined with commas and followed
      by `]`, read back as themselves. */
  lemma {:induction false} ParseElementsStringify(parent: Json, k: nat, rest: string)
    requires parent.JArr? && k < |parent.items|
    requires Delimited(rest)
    ensures ParseElements(ItemsBody(parent.items[k..], rest)) == Some((parent.items[k..], rest))
    decreases parent, 0, |parent.items| - k
  {
    var items := parent.items[k..];
    assert items[0] == parent.items[k];
    if |items| == 1 {
      ParseValueStringify(items[0], "]" + rest);
      assert items == [items[0]];
      ParseItemsOne(items[0], rest);
    } else {
      assert items[1..] == parent.items[k + 1..];
      ParseValueStringify(items[0], "," + ItemsBody(items[1..], rest));
      ParseElementsStringify(parent, k + 1, rest);
      ParseItemsCons(items, rest);
    }
  }

  /** The members `parent.members[k..]`, rendered, joined with commas and
      followed by `}`, read back as themselves. */
  lemma {:induction false} ParseMembersStringify(parent: Json, k: nat, rest: string)
    requires parent.JObj? && k < |parent.members|
    requires Delimited(rest)
    ensures ParseMembers(MembersBody(parent.members[k..], rest)) == Some((parent.members[k..], rest))
    decreases parent, 0, |parent.members| - k
  {
    var ms := parent.members[k..];
    assert ms[0] == parent.members[k];
    assert ms[0].value < ms[0];
    if |ms| == 1 {
      ParseValueStringify(ms[0].value, "}" + rest);
      assert ms == [ms[0]];
      ParseMembersOne(ms[0], rest);
    } else {
      assert ms[1..] == parent.members[k + 1..];
      ParseValueStringify(ms[0].value, "," + MembersBody(ms[1..], rest));
      ParseMembersStringify(parent, k + 1, rest);
      ParseMembersCons(ms, rest);
    }
  }

  /** `JSON.parse(JSON.stringify(j))` is `j`. */
  lemma {:induction false} ParseStringify(j: Json)
    ensures Parse(Stringify(j)) == Some(j)
  {
    ParseValueStringify(j, "");
    assert Stringify(j) + "" == Stringify(j);
  }
}
