/** The JSON values that `JSON.parse` produces, `JSON.parse` itself (the
    grammar of ECMA-404 with JavaScript's four white-space characters), and
    `JSON.stringify` of an array of strings, with the round trip between
    the two that the saved-agent store relies on. */
module Json {
  import opened Wrappers
  import Decimal

  datatype Json =
    | JNull
    | JBool(b: bool)
    | JNumber(lexeme: string)
    | JString(text: string)
    | JArray(items: seq<Json>)
    | JObject(members: seq<(string, Json)>)

  predicate IsWs(c: char)
  {
    c == ' ' || c == '\t' || c == '\n' || c == '\r'
  }

  function SkipWs(s: string): (r: string)
    ensures |r| <= |s| && r == s[|s| - |r|..]
    ensures r == [] || !IsWs(r[0])
  {
    if s != [] && IsWs(s[0]) then SkipWs(s[1..]) else s
  }

  predicate StartsWith(s: string, p: string)
  {
    |p| <= |s| && s[..|p|] == p
  }

  /** The value of four hexadecimal digits at the head of `s`. */
  function Hex4(s: string): (r: Option<nat>)
    ensures r.Some? ==> r.value < 0x10000
  {
    if |s| < 4 then None
    else
      match (Decimal.DigitValue(s[0], 16), Decimal.DigitValue(s[1], 16),
             Decimal.DigitValue(s[2], 16), Decimal.DigitValue(s[3], 16))
      case (Some(a), Some(b), Some(c), Some(d)) => Some(((a * 16 + b) * 16 + c) * 16 + d)
      case _ => None
  }

  /** A `\u` escape after its `u`. A high surrogate followed by an escaped
      low surrogate denotes one supplementary character; a lone surrogate
      becomes U+FFFD, since a Dafny character cannot hold one. */
  function ParseUnicodeEscape(s: string): (r: Option<(char, string)>)
    ensures r.Some? ==> |r.value.1| < |s|
  {
    match Hex4(s)
    case None => None
    case Some(u) =>
      if 0xD800 <= u < 0xDC00 && |s| >= 10 && s[4..6] == "\\u" && Hex4(s[6..]).Some?
         && 0xDC00 <= Hex4(s[6..]).value < 0xE000
      then
        var low := Hex4(s[6..]).value;
        Some((((u - 0xD800) * 0x400 + (low - 0xDC00) + 0x10000) as char, s[10..]))
      else if 0xD800 <= u < 0xE000 then Some(('\U{FFFD}', s[4..]))
      else Some((u as char, s[4..]))
  }

  /** One escape sequence after its backslash. */
  function ParseEscape(s: string): (r: Option<(char, string)>)
    ensures r.Some? ==> |r.value.1| < |s|
  {
    if s == [] then None
    else if s[0] == '"' then Some(('"', s[1..]))
    else if s[0] == '\\' then Some(('\\', s[1..]))
    else if s[0] == '/' then Some(('/', s[1..]))
    else if s[0] == 'b' then Some(('\U{0008}', s[1..]))
    else if s[0] == 'f' then Some(('\U{000C}', s[1..]))
    else if s[0] == 'n' then Some(('\n', s[1..]))
    else if s[0] == 'r' then Some(('\r', s[1..]))
    else if s[0] == 't' then Some(('\t', s[1..]))
    else if s[0] == 'u' then ParseUnicodeEscape(s[1..])
    else None
  }

  /** The characters of a string literal after its opening quote, up to and
      excluding the closing quote; raw control characters are refused. */
  function ParseChars(s: string): (r: Option<(string, string)>)
    ensures r.Some? ==> |r.value.1| < |s|
    decreases |s|
  {
    if s == [] then None
    else if s[0] == '"' then Some(([], s[1..]))
    else if s[0] == '\\' then
      match ParseEscape(s[1..])
      case None => None
      case Some((c, rest)) =>
        match ParseChars(rest)
        case None => None
        case Some((t, after)) => Some(([c] + t, after))
    else if (s[0] as int) < 0x20 then None
    else
      match ParseChars(s[1..])
      case None => None
      case Some((t, after)) => Some(([s[0]] + t, after))
  }

  /** The length of the run of decimal digits at the head of `s`. */
  function DigitRun(s: string): (n: nat)
    ensures n <= |s|
  {
    if s != [] && Decimal.IsDigit(s[0]) then 1 + DigitRun(s[1..]) else 0
  }

  /** A number: `-`? (`0` | [1-9][0-9]*) (`.` [0-9]+)? ([eE] [+-]? [0-9]+)?;
      its value is kept as the lexeme. */
  function ParseNumber(s: string): (r: Option<(Json, string)>)
    ensures r.Some? ==> |r.value.1| < |s|
  {
    var i0 := if s != [] && s[0] == '-' then 1 else 0;
    var n0 := DigitRun(s[i0..]);
    if n0 == 0 then None
    else
      var i1 := if s[i0] == '0' then i0 + 1 else i0 + n0;
      var nf := if i1 < |s| && s[i1] == '.' then DigitRun(s[i1 + 1..]) else 0;
      if i1 < |s| && s[i1] == '.' && nf == 0 then None
      else
        var i2 := if i1 < |s| && s[i1] == '.' then i1 + 1 + nf else i1;
        var hasExp := i2 < |s| && s[i2] in "eE";
        var i3 := if hasExp && i2 + 1 < |s| && s[i2 + 1] in "+-" then i2 + 2 else i2 + 1;
        var ne := if hasExp && i3 <= |s| then DigitRun(s[i3..]) else 0;
        if hasExp && ne == 0 then None
        else
          var i4 := if hasExp then i3 + ne else i2;
          Some((JNumber(s[..i4]), s[i4..]))
  }

  /** One value at the head of `s` (no leading white space) and the text
      after it. */
  function ParseValue(s: string): (r: Option<(Json, string)>)
    ensures r.Some? ==> |r.value.1| < |s|
    decreases |s|, 0
  {
    if s == [] then None
    else if s[0] == 'n' then (if StartsWith(s, "null") then Some((JNull, s[4..])) else None)
    else if s[0] == 't' then (if StartsWith(s, "true") then Some((JBool(true), s[4..])) else None)
    else if s[0] == 'f' then (if StartsWith(s, "false") then Some((JBool(false), s[5..])) else None)
    else if s[0] == '"' then
      match ParseChars(s[1..])
      case None => None
      case Some((t, rest)) => Some((JString(t), rest))
    else if s[0] == '[' then ParseArray(s[1..])
    else if s[0] == '{' then ParseObject(s[1..])
    else if s[0] == '-' || Decimal.IsDigit(s[0]) then ParseNumber(s)
    else None
  }

  /** An array after its `[`. */
  function ParseArray(s: string): (r: Option<(Json, string)>)
    ensures r.Some? ==> |r.value.1| < |s|
    decreases |s|, 2
  {
    var t := SkipWs(s);
    if t != [] && t[0] == ']' then Some((JArray([]), t[1..]))
    else
      match ParseItems(t)
      case None => None
      case Some((items, rest)) => Some((JArray(items), rest))
  }

  /** The elements of a non-empty array and the text after its `]`. */
  function ParseItems(s: string): (r: Option<(seq<Json>, string)>)
    ensures r.Some? ==> |r.value.1| < |s|
    decreases |s|, 1
  {
    match ParseValue(s)
    case None => None
    case Some((v, rest)) =>
      var t := SkipWs(rest);
      if t != [] && t[0] == ',' then
        match ParseItems(SkipWs(t[1..]))
        case None => None
        case Some((vs, after)) => Some(([v] + vs, after))
      else if t != [] && t[0] == ']' then Some(([v], t[1..]))
      else None
  }

  /** An object after its `{`. */
  function ParseObject(s: string): (r: Option<(Json, string)>)
    ensures r.Some? ==> |r.value.1| < |s|
    decreases |s|, 2
  {
    var t := SkipWs(s);
    if t != [] && t[0] == '}' then Some((JObject([]), t[1..]))
    else
      match ParseMembers(t)
      case None => None
      case Some((ms, rest)) => Some((JObject(ms), rest))
  }

  /** The members of a non-empty object and the text after its `}`. */
  function ParseMembers(s: string): (r: Option<(seq<(string, Json)>, string)>)
    ensures r.Some? ==> |r.value.1| < |s|
    decreases |s|, 1
  {
    if s == [] || s[0] != '"' then None
    else
      match ParseChars(s[1..])
      case None => None
      case Some((key, rest)) =>
        var t := SkipWs(rest);
        if t == [] || t[0] != ':' then None
        else
          match ParseValue(SkipWs(t[1..]))
          case None => None
          case Some((v, rest2)) =>
            var u := SkipWs(rest2);
            if u != [] && u[0] == ',' then
              match ParseMembers(SkipWs(u[1..]))
              case None => None
              case Some((ms, after)) => Some(([(key, v)] + ms, after))
            else if u != [] && u[0] == '}' then Some(([(key, v)], u[1..]))
            else None
  }

  /** `JSON.parse(text)`; `None` is the SyntaxError it throws. */
  function Parse(text: string): Option<Json>
  {
    match ParseValue(SkipWs(text))
    case None => None
    case Some((v, rest)) => if SkipWs(rest) == [] then Some(v) else None
  }

  function HexDigit(d: nat): char
    requires d < 16
  {
    if d < 10 then ('0' as int + d) as char else ('a' as int + d - 10) as char
  }

  /** How `JSON.stringify` writes one character inside a string literal. */
  function EscapeChar(c: char): string
  {
    if c == '"' then "\\\""
    else if c == '\\' then "\\\\"
    else if c == '\U{0008}' then "\\b"
    else if c == '\U{000C}' then "\\f"
    else if c == '\n' then "\\n"
    else if c == '\r' then "\\r"
    else if c == '\t' then "\\t"
    else if (c as int) < 0x20 then "\\u00" + [HexDigit(c as int / 16), HexDigit(c as int % 16)]
    else [c]
  }

  function EscapeBody(s: string): string
  {
    if s == [] then [] else EscapeChar(s[0]) + EscapeBody(s[1..])
  }

  /** `JSON.stringify` of one string. */
  function Quote(s: string): string
  {
    "\"" + EscapeBody(s) + "\""
  }

  function JoinQuoted(xs: seq<string>): string
  {
    if xs == [] then ""
    else if |xs| == 1 then Quote(xs[0])
    else Quote(xs[0]) + "," + JoinQuoted(xs[1..])
  }

  /** `JSON.stringify` of an array of strings. */
  function StringifyStrings(xs: seq<string>): string
  {
    "[" + JoinQuoted(xs) + "]"
  }

  function Strings(xs: seq<string>): (r: seq<Json>)
    ensures |r| == |xs| && forall i :: 0 <= i < |xs| ==> r[i] == JString(xs[i])
  {
    seq(|xs|, i requires 0 <= i < |xs| => JString(xs[i]))
  }

  lemma HexDigitValue(d: nat)
    requires d < 16
    ensures Decimal.DigitValue(HexDigit(d), 16) == Some(d)
  {
  }

  /** The string parser reads back the escape `JSON.stringify` writes for
      one character. */
  lemma ParseEscapedChar(c: char, rest: string)
    ensures ParseChars(EscapeChar(c) + rest)
         == match ParseChars(rest)
            case None => None
            case Some((t, after)) => Some(([c] + t, after))
  {
    var s := EscapeChar(c) + rest;
    if c == '"' || c == '\\' || c == '\U{0008}' || c == '\U{000C}' || c == '\n' || c == '\r' || c == '\t' {
      assert |EscapeChar(c)| == 2 && s[0] == '\\';
      assert s[1..][1..] == rest;
    } else if (c as int) < 0x20 {
      var n := c as int;
      HexDigitValue(n / 16);
      HexDigitValue(n % 16);
      var u := s[1..];
      assert u == "u00" + [HexDigit(n / 16), HexDigit(n % 16)] + rest;
      assert u[1..][4..] == rest;
      assert Hex4(u[1..]) == Some(n);
    } else {
      assert s[1..] == rest;
    }
  }

  lemma {:induction false} ParseQuotedBody(x: string, rest: string)
    ensures ParseChars(EscapeBody(x) + "\"" + rest) == Some((x, rest))
  {
    if x == [] {
      assert EscapeBody(x) + "\"" + rest == "\"" + rest;
    } else {
      var tail := EscapeBody(x[1..]) + "\"" + rest;
      assert EscapeBody(x) + "\"" + rest == EscapeChar(x[0]) + tail;
      ParseQuotedBody(x[1..], rest);
      ParseEscapedChar(x[0], tail);
      assert [x[0]] + x[1..] == x;
    }
  }

  /** Every string survives `JSON.stringify` followed by `JSON.parse`. */
  lemma ParseQuote(x: string, rest: string)
    ensures ParseValue(Quote(x) + rest) == Some((JString(x), rest))
  {
    var s := Quote(x) + rest;
    assert s[1..] == EscapeBody(x) + "\"" + rest;
    ParseQuotedBody(x, rest);
  }

  lemma JoinQuotedStartsWithQuote(xs: seq<string>)
    requires xs != []
    ensures JoinQuoted(xs) != [] && JoinQuoted(xs)[0] == '"'
  {
  }

  lemma SkipWsNone(t: string)
    requires t == [] || !IsWs(t[0])
    ensures SkipWs(t) == t
  {
  }

  lemma ParseItemsLast(s: string, v: Json, rest: string)
    requires ParseValue(s) == Some((v, "]" + rest))
    ensures ParseItems(s) == Some(([v], rest))
  {
    SkipWsNone("]" + rest);
    assert ("]" + rest)[1..] == rest;
  }

  lemma ParseItemsMore(s: string, v: Json, tail: string, vs: seq<Json>, rest: string)
    requires ParseValue(s) == Some((v, "," + tail))
    requires tail != [] && !IsWs(tail[0])
    requires ParseItems(tail) == Some((vs, rest))
    ensures ParseItems(s) == Some(([v] + vs, rest))
  {
    SkipWsNone("," + tail);
    assert ("," + tail)[1..] == tail;
    SkipWsNone(tail);
  }

  lemma StringsCons(xs: seq<string>)
    requires xs != []
    ensures Strings(xs) == [JString(xs[0])] + Strings(xs[1..])
  {
  }

  lemma {:induction false} ParseJoinQuoted(xs: seq<string>, rest: string)
    requires xs != []
    ensures ParseItems(JoinQuoted(xs) + "]" + rest) == Some((Strings(xs), rest))
  {
    if |xs| == 1 {
      assert JoinQuoted(xs) + "]" + rest == Quote(xs[0]) + ("]" + rest);
      ParseQuote(xs[0], "]" + rest);
      ParseItemsLast(JoinQuoted(xs) + "]" + rest, JString(xs[0]), rest);
      assert Strings(xs) == [JString(xs[0])];
    } else {
      var tail := JoinQuoted(xs[1..]) + "]" + rest;
      assert JoinQuoted(xs) + "]" + rest == Quote(xs[0]) + ("," + tail);
      ParseQuote(xs[0], "," + tail);
      JoinQuotedStartsWithQuote(xs[1..]);
      assert tail[0] == '"';
      ParseJoinQuoted(xs[1..], rest);
      ParseItemsMore(JoinQuoted(xs) + "]" + rest, JString(xs[0]), tail, Strings(xs[1..]), rest);
      StringsCons(xs);
    }
  }

  lemma ParseArrayValue(s: string)
    requires s != [] && s[0] == '['
    ensures ParseValue(s) == ParseArray(s[1..])
  {
  }

  lemma ParseArrayItems(t: string, items: seq<Json>, rest: string)
    requires t != [] && !IsWs(t[0]) && t[0] != ']'
    requires ParseItems(t) == Some((items, rest))
    ensures ParseArray(t) == Some((JArray(items), rest))
  {
    SkipWsNone(t);
  }

  lemma ParseWhole(s: string, v: Json)
    requires s != [] && !IsWs(s[0])
    requires ParseValue(s) == Some((v, []))
    ensures Parse(s) == Some(v)
  {
    SkipWsNone(s);
    SkipWsNone([]);
  }

  lemma ParseArrayClose(t: string)
    requires t != [] && t[0] == ']'
    ensures ParseArray(t) == Some((JArray([]), t[1..]))
  {
    SkipWsNone(t);
  }

  lemma ParseEmptyArray(s: string)
    requires |s| >= 2 && s[0] == '[' && s[1] == ']'
    ensures ParseValue(s) == Some((JArray([]), s[2..]))
  {
    ParseArrayValue(s);
    var t := s[1..];
    ParseArrayClose(t);
    assert t[1..] == s[2..];
  }

  lemma ParseStringifyNonEmpty(xs: seq<string>)
    requires xs != []
    ensures Parse(StringifyStrings(xs)) == Some(JArray(Strings(xs)))
  {
    var s := StringifyStrings(xs);
    ParseArrayValue(s);
    var t := JoinQuoted(xs) + "]" + "";
    assert s[1..] == t;
    JoinQuotedStartsWithQuote(xs);
    ParseJoinQuoted(xs, "");
    ParseArrayItems(t, Strings(xs), "");
    ParseWhole(s, JArray(Strings(xs)));
  }

  /** `JSON.parse(JSON.stringify(xs))` gives back the array of strings. */
  lemma ParseStringifyStrings(xs: seq<string>)
    ensures Parse(StringifyStrings(xs)) == Some(JArray(Strings(xs)))
  {
    if xs == [] {
      var s := StringifyStrings(xs);
      ParseEmptyArray(s);
      assert s[2..] == [];
      ParseWhole(s, JArray([]));
    } else {
      ParseStringifyNonEmpty(xs);
    }
  }

  /** `JSON.stringify({ [key]: value })` for a string value, as the API
      routes write their `{ error }` bodies. */
  function StringifyStringMember(key: string, value: string): string
  {
    "{" + Quote(key) + ":" + Quote(value) + "}"
  }

  /** One step of `ParseMembers` on a last member, over its parts. */
  lemma ParseMembersLast(t: string, key: string, rest: string, vt: string, v: Json, u: string)
    requires t != [] && t[0] == '"' && ParseChars(t[1..]) == Some((key, rest))
    requires SkipWs(rest) == rest && rest != [] && rest[0] == ':' && SkipWs(rest[1..]) == vt
    requires ParseValue(vt) == Some((v, u)) && SkipWs(u) == u && u != [] && u[0] == '}'
    ensures ParseMembers(t) == Some(([(key, v)], u[1..]))
  {
  }

  /** A quoted key followed by anything reads back as the key. */
  lemma ParseQuotedKey(key: string, rest: string)
    ensures var t := Quote(key) + rest;
            t != [] && t[0] == '"' && ParseChars(t[1..]) == Some((key, rest))
  {
    var t := Quote(key) + rest;
    assert t[1..] == EscapeBody(key) + "\"" + rest;
    ParseQuotedBody(key, rest);
  }

  /** The members of `t` read as the one member `(key, v)` when the key is
      followed by a colon, the value and a closing brace. */
  lemma ParseMembersOne(t: string, key: string, rest: string, v: Json, u: string)
    requires t != [] && t[0] == '"' && ParseChars(t[1..]) == Some((key, rest))
    requires |rest| > 1 && rest[0] == ':' && !IsWs(rest[1])
    requires ParseValue(rest[1..]) == Some((v, u)) && u != [] && u[0] == '}'
    ensures ParseMembers(t) == Some(([(key, v)], u[1..]))
  {
    assert SkipWs(rest) == rest by { SkipWsNone(rest); }
    assert SkipWs(rest[1..]) == rest[1..] by { SkipWsNone(rest[1..]); }
    assert SkipWs(u) == u by { SkipWsNone(u); }
    ParseMembersLast(t, key, rest, rest[1..], v, u);
  }

  /** The members `"key":v}` read as the one member `(key, v)`. */
  lemma ParseMembersSingle(key: string, vt: string, v: Json, after: string)
    requires vt != [] && !IsWs(vt[0])
    requires ParseValue(vt) == Some((v, "}" + after))
    ensures ParseMembers(Quote(key) + (":" + vt)) == Some(([(key, v)], after))
  {
    var rest := ":" + vt;
    var u := "}" + after;
    assert rest[1..] == vt && rest[1] == vt[0];
    assert u[1..] == after;
    ParseQuotedKey(key, rest);
    ParseMembersOne(Quote(key) + rest, key, rest, v, u);
  }

  lemma ParseObjectValue(s: string)
    requires s != [] && s[0] == '{'
    ensures ParseValue(s) == ParseObject(s[1..])
  {
  }

  lemma ParseObjectOf(t: string, ms: seq<(string, Json)>, after: string)
    requires t != [] && t[0] == '"'
    requires ParseMembers(t) == Some((ms, after))
    ensures ParseObject(t) == Some((JObject(ms), after))
  {
    SkipWsNone(t);
  }

  /** `{"key":v}` followed by `after` reads as the one-member object. */
  lemma ParseSingleMemberObject(s: string, key: string, vt: string, v: Json, after: string)
    requires vt != [] && !IsWs(vt[0])
    requires ParseValue(vt) == Some((v, "}" + after))
    requires s == "{" + (Quote(key) + (":" + vt))
    ensures ParseValue(s) == Some((JObject([(key, v)]), after))
  {
    var t := s[1..];
    ParseMembersSingle(key, vt, v, after);
    ParseObjectOf(t, [(key, v)], after);
    ParseObjectValue(s);
  }

  /** An object of one string member reads back as that member. */
  lemma ParseStringMember(key: string, value: string)
    ensures Parse(StringifyStringMember(key, value)) == Some(JObject([(key, JString(value))]))
  {
    var s := StringifyStringMember(key, value);
    var e: string := [];
    var vt := Quote(value) + ("}" + e);
    ParseQuote(value, "}" + e);
    assert vt[0] == '"';
    assert s == "{" + (Quote(key) + (":" + vt));
    ParseSingleMemberObject(s, key, vt, JString(value), e);
    ParseWhole(s, JObject([(key, JString(value))]));
  }

  /** The last member named `key`: `JSON.parse` keeps the last of
      duplicate keys. */
  function LastMember(ms: seq<(string, Json)>, key: string): (r: Option<Json>)
    ensures r.Some? <==> exists i :: 0 <= i < |ms| && ms[i].0 == key
    ensures r.Some? ==> exists i :: 0 <= i < |ms| && ms[i] == (key, r.value)
                                    && forall j :: i < j < |ms| ==> ms[j].0 != key
  {
    if ms == [] then None
    else if ms[|ms| - 1].0 == key then Some(ms[|ms| - 1].1)
    else
      var r := LastMember(ms[..|ms| - 1], key);
      assert forall i :: 0 <= i < |ms| - 1 ==> ms[..|ms| - 1][i] == ms[i];
      r
  }

  /** A one-member object holds its member. */
  lemma LastMemberSingle(key: string, v: Json)
    ensures LastMember([(key, v)], key) == Some(v)
  {
  }

  /** `value?.[key]` on a parsed value: only an object has members; every
      other value, `null` included, gives `undefined` (`None`). */
  function Property(j: Json, key: string): (r: Option<Json>)
    ensures r.Some? ==> j.JObject?
  {
    if j.JObject? then LastMember(j.members, key) else None
  }

  /** The integer part and fraction of a number literal, before any
      exponent. */
  function Mantissa(lexeme: string): (r: string)
    ensures |r| <= |lexeme| && r == lexeme[..|r|]
    ensures |r| < |lexeme| ==> lexeme[|r|] == 'e' || lexeme[|r|] == 'E'
  {
    if lexeme == [] || lexeme[0] == 'e' || lexeme[0] == 'E' then []
    else [lexeme[0]] + Mantissa(lexeme[1..])
  }

  /** What follows the `e` or `E` of a number literal: an optional sign and
      the exponent's digits; empty when there is no exponent. */
  function ExponentPart(lexeme: string): string
  {
    var m := Mantissa(lexeme);
    if |m| < |lexeme| then lexeme[|m| + 1..] else []
  }

  /** The part of a mantissa after its decimal point; empty when there is
      none. */
  function AfterPoint(m: string): (r: string)
    ensures |r| <= |m|
  {
    if m == [] then []
    else if m[0] == '.' then m[1..]
    else AfterPoint(m[1..])
  }

  predicate IsDigit(c: char)
  {
    '0' <= c <= '9'
  }

  /** The decimal digits of `s` read as one integer, other characters (the
      sign, the point) skipped. */
  function DecimalDigits(s: string): nat
  {
    if s == [] then 0
    else
      var last := s[|s| - 1];
      if IsDigit(last) then 10 * DecimalDigits(s[..|s| - 1]) + (last as int - '0' as int)
      else DecimalDigits(s[..|s| - 1])
  }

  function DigitCount(s: string): nat
  {
    if s == [] then 0 else (if IsDigit(s[0]) then 1 else 0) + DigitCount(s[1..])
  }

  /** The signed value of an exponent part. */
  function ExponentValue(e: string): int
  {
    if e != [] && e[0] == '-' then -(DecimalDigits(e[1..]) as int) else DecimalDigits(e)
  }

  function Pow(b: nat, n: nat): nat
  {
    if n == 0 then 1 else b * Pow(b, n - 1)
  }

  /** A number literal denotes M·10^k, M its mantissa digits and k its
      exponent less the number of fraction digits. `JSON.parse` rounds it
      to the nearest double (ties to even), which is 0 exactly when M is 0
      or the magnitude is at most 2^-1075, half the smallest subnormal. */
  predicate RoundsToZero(lexeme: string)
  {
    var m := Mantissa(lexeme);
    var digits := DecimalDigits(m);
    var k := ExponentValue(ExponentPart(lexeme)) - DigitCount(AfterPoint(m));
    digits == 0 || (k < 0 && digits * Pow(2, 1075) <= Pow(10, -k))
  }

  /** `DecimalDigits` is 0 exactly when no digit is non-zero. */
  lemma {:induction false} DecimalDigitsZero(s: string)
    ensures DecimalDigits(s) == 0 <==> forall i :: 0 <= i < |s| ==> !('1' <= s[i] <= '9')
    decreases |s|
  {
    if s != [] {
      var init := s[..|s| - 1];
      DecimalDigitsZero(init);
      assert forall i :: 0 <= i < |init| ==> init[i] == s[i];
    }
  }

  /** An integer literal, without point or exponent, is falsy exactly when
      all its digits are 0. */
  lemma IntegerTruthy(lexeme: string)
    requires forall i :: 0 <= i < |lexeme| ==> lexeme[i] == '-' || IsDigit(lexeme[i])
    ensures Truthy(JNumber(lexeme)) <==> exists i :: 0 <= i < |lexeme| && '1' <= lexeme[i] <= '9'
  {
    var m := Mantissa(lexeme);
    assert m == lexeme;
    AfterPointOfInteger(m);
    DecimalDigitsZero(m);
  }

  lemma {:induction false} AfterPointOfInteger(m: string)
    requires forall i :: 0 <= i < |m| ==> m[i] != '.'
    ensures AfterPoint(m) == []
    decreases |m|
  {
    if m != [] {
      assert m[0] != '.';
      assert forall i :: 0 <= i < |m[1..]| ==> m[1..][i] == m[i + 1];
      AfterPointOfInteger(m[1..]);
    }
  }

  /** JavaScript truthiness of a parsed JSON value. A number is falsy
      exactly when `JSON.parse` makes it 0: a zero literal, or one too
      small for a double. */
  predicate Truthy(j: Json)
  {
    match j
    case JNull => false
    case JBool(b) => b
    case JNumber(lexeme) => !RoundsToZero(lexeme)
    case JString(t) => t != []
    case JArray(_) => true
    case JObject(_) => true
  }
}
