/**
 * The X-User-Roles header carries the principal's roles as the JSON text of
 * an array of strings (RFC 8259). This module is the reading of that text
 * (JSON.parse, restricted to arrays of strings) and the writing of it
 * (JSON.stringify of an array of strings), and proves that reading what was
 * written gives back the same roles in the same order.
 */
module RolesJson {
  import opened Wrappers

  /** Insignificant whitespace between JSON tokens (RFC 8259, section 2). */
  predicate IsWhitespace(c: char) {
    c == ' ' || c == '\t' || c == '\n' || c == '\r'
  }

  function SkipWhitespace(s: string): (r: string)
    ensures |r| <= |s|
    ensures r == [] || !IsWhitespace(r[0])
    ensures s != [] && !IsWhitespace(s[0]) ==> r == s
  {
    if s != [] && IsWhitespace(s[0]) then SkipWhitespace(s[1..]) else s
  }

  /** The value of one hexadecimal digit, either case. */
  function HexValue(c: char): (r: Option<nat>)
    ensures r.Some? ==> r.value < 16
  {
    if '0' <= c <= '9' then Some(c as int - '0' as int)
    else if 'a' <= c <= 'f' then Some(c as int - 'a' as int + 10)
    else if 'A' <= c <= 'F' then Some(c as int - 'A' as int + 10)
    else None
  }

  /** The value of four hexadecimal digits, as in a `\uXXXX` escape. */
  function Hex4(s: string): (r: Option<nat>)
    requires |s| == 4
    ensures r.Some? ==> r.value < 0x1_0000
  {
    match (HexValue(s[0]), HexValue(s[1]), HexValue(s[2]), HexValue(s[3]))
    case (Some(a), Some(b), Some(c), Some(d)) => Some(((a * 16 + b) * 16 + c) * 16 + d)
    case _ => None
  }

  /**
   * Reads the four hex digits after `\u`. A high surrogate must be followed
   * by a `\u` escape of a low surrogate; the pair stands for one character
   * outside the Basic Multilingual Plane.
   */
  function ParseUnicodeEscape(s: string): (r: Option<(char, string)>)
    ensures r.Some? ==> |r.value.1| < |s|
  {
    if |s| < 4 then None
    else match Hex4(s[..4])
      case None => None
      case Some(hi) =>
        if hi < 0xD800 || 0xE000 <= hi then Some((hi as char, s[4..]))
        else if hi < 0xDC00 && |s| >= 10 && s[4] == '\\' && s[5] == 'u' then
          match Hex4(s[6..10])
          case Some(lo) =>
            if 0xDC00 <= lo < 0xE000
            then Some(((0x1_0000 + (hi - 0xD800) * 0x400 + (lo - 0xDC00)) as char, s[10..]))
            else None
          case None => None
        else None
  }

  /** Reads the escape sequence after a backslash inside a string. */
  function ParseEscape(s: string): (r: Option<(char, string)>)
    ensures r.Some? ==> |r.value.1| < |s|
  {
    if s == [] then None
    else match s[0]
      case '"' => Some(('"', s[1..]))
      case '\\' => Some(('\\', s[1..]))
      case '/' => Some(('/', s[1..]))
      case 'b' => Some((0x08 as char, s[1..]))
      case 'f' => Some((0x0C as char, s[1..]))
      case 'n' => Some(('\n', s[1..]))
      case 'r' => Some(('\r', s[1..]))
      case 't' => Some(('\t', s[1..]))
      case 'u' => ParseUnicodeEscape(s[1..])
      case _ => None
  }

  /**
   * Reads the characters of a string up to and including its closing quote;
   * returns the decoded characters and the text after the quote. An
   * unescaped control character is an error.
   */
  function ParseChars(s: string): (r: Option<(string, string)>)
    ensures r.Some? ==> |r.value.1| < |s|
    decreases |s|
  {
    if s == [] then None
    else if s[0] == '"' then Some(([], s[1..]))
    else if s[0] == '\\' then
      match ParseEscape(s[1..])
      case None => None
      case Some((c, rest)) =>
        match ParseChars(rest)
        case None => None
        case Some((t, after)) => Some(([c] + t, after))
    else if s[0] < ' ' then None
    else
      match ParseChars(s[1..])
      case None => None
      case Some((t, after)) => Some(([s[0]] + t, after))
  }

  /** Reads one JSON string. */
  function ParseString(s: string): (r: Option<(string, string)>)
    ensures r.Some? ==> |r.value.1| < |s|
  {
    if s != [] && s[0] == '"' then ParseChars(s[1..]) else None
  }

  /** Reads the strings of a non-empty array and its closing bracket. */
  function ParseItems(s: string): (r: Option<(seq<string>, string)>)
    ensures r.Some? ==> r.value.0 != [] && |r.value.1| < |s|
    decreases |s|, 1
  {
    match ParseString(s)
    case None => None
    case Some((x, rest)) => ParseAfterItem(x, SkipWhitespace(rest))
  }

  /**
   * Reads what follows the array item `x` (and whitespace): the closing
   * bracket, or a comma and the remaining items.
   */
  function ParseAfterItem(x: string, t: string): (r: Option<(seq<string>, string)>)
    ensures r.Some? ==> r.value.0 != [] && r.value.0[0] == x && |r.value.1| < |t|
    decreases |t|, 0
  {
    if t == [] then None
    else if t[0] == ']' then Some(([x], t[1..]))
    else if t[0] == ',' then
      match ParseItems(SkipWhitespace(t[1..]))
      case None => None
      case Some((xs, after)) => Some(([x] + xs, after))
    else None
  }

  /** Reads an array of strings, from its opening bracket. */
  function ParseArray(s: string): (r: Option<(seq<string>, string)>)
    ensures r.Some? ==> |r.value.1| < |s|
  {
    if s == [] || s[0] != '[' then None
    else
      var t := SkipWhitespace(s[1..]);
      if t != [] && t[0] == ']' then Some(([], t[1..]))
      else ParseItems(t)
  }

  /**
   * JSON.parse of a whole header value, when it is an array of strings
   * surrounded by optional whitespace; None for any other text.
   */
  function DecodeRoles(text: string): (r: Option<seq<string>>)
    ensures r.Some? ==> SkipWhitespace(text) != [] && SkipWhitespace(text)[0] == '['
  {
    match ParseArray(SkipWhitespace(text))
    case Some((xs, rest)) => if SkipWhitespace(rest) == [] then Some(xs) else None
    case None => None
  }

  /** The lower-case hexadecimal digit for `n`. */
  function HexDigit(n: nat): (c: char)
    requires n < 16
    ensures HexValue(c) == Some(n)
  {
    if n < 10 then ('0' as int + n) as char else ('a' as int + n - 10) as char
  }

  /**
   * How JSON.stringify writes one character inside a string: the quote and
   * the backslash escaped, the five control characters that have a short
   * escape written with it, the other control characters as `\u00XX`, and
   * everything else as it is.
   */
  function EscapeChar(c: char): string {
    if c == '"' then "\\\""
    else if c == '\\' then "\\\\"
    else if c == 0x08 as char then "\\b"
    else if c == 0x0C as char then "\\f"
    else if c == '\n' then "\\n"
    else if c == '\r' then "\\r"
    else if c == '\t' then "\\t"
    else if c < ' ' then "\\u00" + [HexDigit(c as int / 16), HexDigit(c as int % 16)]
    else [c]
  }

  function EscapeAll(s: string): string {
    if s == [] then [] else EscapeChar(s[0]) + EscapeAll(s[1..])
  }

  function EncodeString(s: string): string {
    "\"" + EscapeAll(s) + "\""
  }

  function EncodeItems(xs: seq<string>): string
    requires xs != []
  {
    if |xs| == 1 then EncodeString(xs[0])
    else EncodeString(xs[0]) + "," + EncodeItems(xs[1..])
  }

  /** JSON.stringify of an array of strings: no whitespace between tokens. */
  function EncodeRoles(xs: seq<string>): string {
    if xs == [] then "[]" else "[" + EncodeItems(xs) + "]"
  }

  /** Reading one written character gives it back and leaves the rest unread. */
  lemma EscapeCharRoundTrip(c: char, rest: string)
    ensures ParseChars(EscapeChar(c) + rest) ==
      match ParseChars(rest)
      case None => None
      case Some((t, after)) => Some(([c] + t, after))
  {
    var s := EscapeChar(c) + rest;
    if c == '"' || c == '\\' || c == 0x08 as char || c == 0x0C as char || c == '\n' || c == '\r' || c == '\t' {
      assert s[0] == '\\' && s[2..] == rest;
      assert ParseEscape(s[1..]) == Some((c, rest));
    } else if c < ' ' {
      var hex := [HexDigit(c as int / 16), HexDigit(c as int % 16)];
      assert s[0] == '\\' && s[1] == 'u';
      var u := s[2..];
      assert u[..4] == "00" + hex && u[4..] == rest;
      assert Hex4(u[..4]) == Some(c as int);
      assert ParseEscape(s[1..]) == Some((c, rest));
    } else {
      assert s[0] == c && s[1..] == rest;
    }
  }

  lemma {:induction false} EscapeAllRoundTrip(s: string, rest: string)
    ensures ParseChars(EscapeAll(s) + "\"" + rest) == Some((s, rest))
  {
    if s == [] {
      assert EscapeAll(s) + "\"" + rest == "\"" + rest;
    } else {
      var tail := EscapeAll(s[1..]) + "\"" + rest;
      assert EscapeAll(s) + "\"" + rest == EscapeChar(s[0]) + tail;
      EscapeAllRoundTrip(s[1..], rest);
      EscapeCharRoundTrip(s[0], tail);
      assert [s[0]] + s[1..] == s;
    }
  }

  lemma StringRoundTrip(x: string, rest: string)
    ensures ParseString(EncodeString(x) + rest) == Some((x, rest))
  {
    var s := EncodeString(x) + rest;
    assert s[0] == '"' && s[1..] == EscapeAll(x) + "\"" + rest;
    EscapeAllRoundTrip(x, rest);
  }

  lemma ItemsLast(x: string, rest: string)
    ensures ParseItems(EncodeString(x) + "]" + rest) == Some(([x], rest))
  {
    var u := "]" + rest;
    assert EncodeString(x) + "]" + rest == EncodeString(x) + u;
    StringRoundTrip(x, u);
    assert SkipWhitespace(u) == u;
    assert u[0] == ']' && u[1..] == rest;
    assert ParseAfterItem(x, u) == Some(([x], rest));
  }

  lemma ItemsMore(x: string, more: string, xs: seq<string>, rest: string)
    requires more != [] && more[0] == '"'
    requires ParseItems(more) == Some((xs, rest))
    ensures ParseItems(EncodeString(x) + "," + more) == Some(([x] + xs, rest))
  {
    var u := "," + more;
    assert EncodeString(x) + "," + more == EncodeString(x) + u;
    StringRoundTrip(x, u);
    assert SkipWhitespace(u) == u;
    assert u[0] == ',' && u[1..] == more;
    assert SkipWhitespace(more) == more;
    assert ParseAfterItem(x, u) == Some(([x] + xs, rest));
  }

  /** The written items of a longer array: the first string, a comma, the others. */
  lemma EncodeItemsUnfold(xs: seq<string>, rest: string)
    requires |xs| > 1
    ensures EncodeItems(xs) + "]" + rest == EncodeString(xs[0]) + "," + (EncodeItems(xs[1..]) + "]" + rest)
  {
    var head, tail := EncodeString(xs[0]), EncodeItems(xs[1..]);
    assert EncodeItems(xs) == head + "," + tail;
    RegroupConcat(head, ",", tail, "]", rest);
  }

  lemma RegroupConcat(a: string, b: string, c: string, d: string, e: string)
    ensures a + b + c + d + e == a + b + (c + d + e)
  {
  }

  lemma {:induction false} ItemsRoundTrip(xs: seq<string>, rest: string)
    requires xs != []
    ensures ParseItems(EncodeItems(xs) + "]" + rest) == Some((xs, rest))
  {
    if |xs| == 1 {
      ItemsLast(xs[0], rest);
      assert [xs[0]] == xs;
    } else {
      var more := EncodeItems(xs[1..]) + "]" + rest;
      EncodeItemsUnfold(xs, rest);
      assert more[0] == '"';
      ItemsRoundTrip(xs[1..], rest);
      ItemsMore(xs[0], more, xs[1..], rest);
      assert [xs[0]] + xs[1..] == xs;
    }
  }

  /** Reading the header text JSON.stringify writes gives back the same roles, in order. */
  lemma DecodeEncode(xs: seq<string>)
    ensures DecodeRoles(EncodeRoles(xs)) == Some(xs)
  {
    var s := EncodeRoles(xs);
    assert ParseArray(s) == Some((xs, [])) by {
      if xs == [] {
        assert s[0] == '[' && s[1..] == "]";
        assert SkipWhitespace(s[1..]) == "]";
      } else {
        assert s[0] == '[' && s[1..] == EncodeItems(xs) + "]" + [];
        ItemsRoundTrip(xs, []);
        assert s[1..][0] == '"';
        assert SkipWhitespace(s[1..]) == s[1..];
      }
    }
    assert SkipWhitespace(s) == s by {
      assert s[0] == '[';
    }
    assert SkipWhitespace([]) == [];
  }

  /**
   * Text that is not JSON is rejected: a bare word, an array without its
   * closing bracket, and an array with a trailing comma.
   */
  lemma MalformedRolesRejected()
    ensures DecodeRoles("user") == None
    ensures DecodeRoles("[\"user\"") == None
    ensures DecodeRoles("[\"a\",]") == None
  {
    NotAnArray("user");
    UnterminatedArray();
    TrailingComma();
  }

  /**
   * JSON text of another value than an array of strings is rejected as
   * well: a quoted string, and an array holding a number. JSON.parse would
   * accept both; the decoder recognises arrays of strings only.
   */
  lemma OtherJsonValuesRejected()
    ensures DecodeRoles("\"user\"") == None
    ensures DecodeRoles("[1]") == None
  {
    NotAnArray("\"user\"");
    var t := "[1]";
    assert SkipWhitespace(t) == t && SkipWhitespace(t[1..]) == t[1..];
    assert ParseString(t[1..]) == None;
  }

  /** Text that does not start with `[` is not an array. */
  lemma NotAnArray(text: string)
    requires text != [] && !IsWhitespace(text[0]) && text[0] != '['
    ensures DecodeRoles(text) == None
  {
    assert SkipWhitespace(text) == text;
  }

  /** A character JSON.stringify writes as it is. */
  predicate IsPlain(c: char) {
    c >= ' ' && c != '"' && c != '\\'
  }

  /** A string of plain characters is written unchanged between its quotes. */
  lemma {:induction false} EscapePlain(s: string)
    requires forall i :: 0 <= i < |s| ==> IsPlain(s[i])
    ensures EscapeAll(s) == s
  {
    if s != [] {
      EscapePlain(s[1..]);
      assert [s[0]] + s[1..] == s;
    }
  }

  lemma UnterminatedArray()
    ensures DecodeRoles("[\"user\"") == None
  {
    var t := "[\"user\"";
    var items := t[1..];
    assert items == EncodeString("user") by {
      EscapePlain("user");
    }
    assert ParseItems(items) == None by {
      StringRoundTrip("user", []);
      assert items + [] == items;
      assert SkipWhitespace([]) == [];
    }
    assert ParseArray(t) == None by {
      assert items[0] == '"';
      assert SkipWhitespace(items) == items;
    }
    assert SkipWhitespace(t) == t;
  }

  lemma TrailingComma()
    ensures DecodeRoles("[\"a\",]") == None
  {
    var t := "[\"a\",]";
    var items := t[1..];
    assert items == EncodeString("a") + ",]" by {
      EscapePlain("a");
    }
    assert ParseAfterItem("a", ",]") == None by {
      assert SkipWhitespace("]") == "]";
      assert ParseString("]") == None;
    }
    assert ParseItems(items) == None by {
      StringRoundTrip("a", ",]");
      assert SkipWhitespace(",]") == ",]";
    }
    assert ParseArray(t) == None by {
      assert items[0] == '"';
      assert SkipWhitespace(items) == items;
    }
    assert SkipWhitespace(t) == t;
  }
}
