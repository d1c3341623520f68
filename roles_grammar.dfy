/**
 * The text of a JSON array of strings as RFC 8259 lets it be written:
 * optional whitespace around every token, and each character of a string
 * either as it is or in any of the escapes of section 7. A `Layout` records
 * one such way of writing an array; `WritesArray` says it is well formed
 * and stands for a given list of roles. The lemmas show that `DecodeRoles`
 * accepts exactly the texts of well-formed layouts, with the roles they
 * stand for.
 */
module RolesGrammar {
  import opened Wrappers
  import opened RolesJson

  /** Whitespace only. */
  predicate Blank(w: string) {
    forall i :: 0 <= i < |w| ==> IsWhitespace(w[i])
  }

  /** One way of writing one character inside a JSON string. */
  datatype CharForm =
    | Plain(c: char)                  // the character itself
    | Short(code: char)               // a backslash and one more character
    | Unicode(digits: string)         // `\u` and four hex digits
    | Pair(high: string, low: string) // two `\u` escapes of a surrogate pair

  function FormText(f: CharForm): string {
    match f
    case Plain(c) => [c]
    case Short(code) => ['\\', code]
    case Unicode(d) => "\\u" + d
    case Pair(h, l) => "\\u" + h + "\\u" + l
  }

  /** The two-character escapes of RFC 8259, section 7. */
  predicate ShortEscape(code: char, c: char) {
    || (code == '"' && c == '"')
    || (code == '\\' && c == '\\')
    || (code == '/' && c == '/')
    || (code == 'b' && c == 0x08 as char)
    || (code == 'f' && c == 0x0C as char)
    || (code == 'n' && c == '\n')
    || (code == 'r' && c == '\r')
    || (code == 't' && c == '\t')
  }

  /**
   * `f` is a well-formed way of writing the character `c`. A `\u` escape
   * of one half of a surrogate pair, standing alone, writes no character.
   */
  predicate Writes(f: CharForm, c: char) {
    match f
    case Plain(d) => d == c && c >= ' ' && c != '"' && c != '\\'
    case Short(code) => ShortEscape(code, c)
    case Unicode(d) => |d| == 4 && Hex4(d) == Some(c as int)
    case Pair(h, l) =>
      && |h| == 4 && |l| == 4 && Hex4(h).Some? && Hex4(l).Some?
      && 0xD800 <= Hex4(h).value < 0xDC00 && 0xDC00 <= Hex4(l).value < 0xE000
      && c as int == 0x1_0000 + (Hex4(h).value - 0xD800) * 0x400 + (Hex4(l).value - 0xDC00)
  }

  function FormsText(fs: seq<CharForm>): string {
    if fs == [] then [] else FormText(fs[0]) + FormsText(fs[1..])
  }

  /** The forms write the string `x`, one form per character. */
  predicate WritesString(fs: seq<CharForm>, x: string) {
    |fs| == |x| && forall i :: 0 <= i < |fs| ==> Writes(fs[i], x[i])
  }

  /** One array element: whitespace, a string token, whitespace. */
  datatype Item = Item(before: string, forms: seq<CharForm>, after: string)

  function ItemText(it: Item): string {
    it.before + "\"" + FormsText(it.forms) + "\"" + it.after
  }

  /** Elements separated by commas. */
  function ItemsText(items: seq<Item>): string {
    if items == [] then []
    else if |items| == 1 then ItemText(items[0])
    else ItemText(items[0]) + "," + ItemsText(items[1..])
  }

  predicate WritesItems(items: seq<Item>, xs: seq<string>) {
    && |items| == |xs|
    && forall i :: 0 <= i < |items| ==>
         Blank(items[i].before) && Blank(items[i].after) && WritesString(items[i].forms, xs[i])
  }

  /**
   * A whole header value: whitespace, `[`, the elements (whitespace only,
   * `gap`, when there are none), `]`, whitespace.
   */
  datatype Layout = Layout(lead: string, items: seq<Item>, gap: string, trail: string)

  function LayoutText(l: Layout): string {
    l.lead + "[" + (if l.items == [] then l.gap else ItemsText(l.items)) + "]" + l.trail
  }

  /** `l` is a well-formed JSON array of strings that stands for `xs`. */
  predicate WritesArray(l: Layout, xs: seq<string>) {
    Blank(l.lead) && Blank(l.gap) && Blank(l.trail) && WritesItems(l.items, xs)
  }

  // Soundness: what the decoder accepts is written by a well-formed layout.

  /** The whitespace SkipWhitespace drops. */
  lemma {:induction false} SkipSound(s: string) returns (w: string)
    ensures Blank(w) && s == w + SkipWhitespace(s)
  {
    if s != [] && IsWhitespace(s[0]) {
      var w' := SkipSound(s[1..]);
      w := [s[0]] + w';
      assert s == [s[0]] + s[1..];
    } else {
      w := [];
    }
  }

  /** A non-empty sequence is its first element followed by the others. */
  lemma HeadTail<T>(s: seq<T>)
    requires s != []
    ensures s == [s[0]] + s[1..]
  {
  }

  lemma Single<T>(s: seq<T>)
    requires |s| == 1
    ensures s == [s[0]]
  {
  }

  /** A character put in front of a non-empty text. */
  lemma Prepend(a: char, s: string)
    requires s != []
    ensures [a] + s == [a, s[0]] + s[1..]
  {
  }

  /** What ParseUnicodeEscape reads after `\u` is one or two well-formed `\u` escapes. */
  lemma UnicodeSound(u: string) returns (f: CharForm)
    requires ParseUnicodeEscape(u).Some?
    ensures FormText(f) + ParseUnicodeEscape(u).value.1 == "\\u" + u
    ensures Writes(f, ParseUnicodeEscape(u).value.0)
  {
    var hi := Hex4(u[..4]).value;
    if hi < 0xD800 || 0xE000 <= hi {
      f := Unicode(u[..4]);
      assert u == u[..4] + u[4..];
    } else {
      f := Pair(u[..4], u[6..10]);
      assert u == u[..4] + "\\u" + u[6..10] + u[10..];
    }
  }

  /** What ParseEscape reads after a backslash is one well-formed escape. */
  lemma EscapeSound(s: string) returns (f: CharForm)
    requires ParseEscape(s).Some?
    ensures FormText(f) + ParseEscape(s).value.1 == ['\\'] + s
    ensures Writes(f, ParseEscape(s).value.0)
  {
    Prepend('\\', s);
    if s[0] == 'u' {
      f := UnicodeSound(s[1..]);
    } else {
      f := Short(s[0]);
    }
  }

  /** What ParseChars reads is a sequence of well-formed forms and a closing quote. */
  lemma {:induction false} CharsSound(s: string) returns (fs: seq<CharForm>)
    requires ParseChars(s).Some?
    ensures s == FormsText(fs) + "\"" + ParseChars(s).value.1
    ensures WritesString(fs, ParseChars(s).value.0)
    decreases |s|
  {
    if s[0] == '"' {
      fs := [];
    } else if s[0] == '\\' {
      var rest := ParseEscape(s[1..]).value.1;
      var f := EscapeSound(s[1..]);
      var more := CharsSound(rest);
      fs := [f] + more;
      assert FormsText(fs) == FormText(f) + FormsText(more) by {
        assert fs[1..] == more;
      }
      assert s == ['\\'] + s[1..];
    } else {
      var more := CharsSound(s[1..]);
      fs := [Plain(s[0])] + more;
      assert FormsText(fs) == [s[0]] + FormsText(more) by {
        assert fs[1..] == more;
      }
      assert s == [s[0]] + s[1..];
    }
  }

  /** Whitespace put in front of the first element comes first in the text. */
  lemma PadFirst(items: seq<Item>, w: string)
    requires items != [] && items[0].before == []
    ensures ItemsText(items[0 := items[0].(before := w)]) == w + ItemsText(items)
  {
    var padded := items[0 := items[0].(before := w)];
    var it := items[0];
    assert ItemText(padded[0]) == w + ItemText(it);
    if |items| > 1 {
      assert padded[1..] == items[1..];
    }
  }

  /** One element followed by a comma and more elements. */
  lemma ConsItems(it: Item, more: seq<Item>)
    requires more != []
    ensures ItemsText([it] + more) == ItemText(it) + "," + ItemsText(more)
  {
    assert ([it] + more)[1..] == more;
  }

  /** Regrouping the pieces of an element list and what follows it. */
  lemma Regroup(a: string, b: string, c: string, d: string, e: string, f: string)
    ensures a + (b + (c + (d + e + f))) == a + b + (c + d) + e + f
  {
  }

  /**
   * A first element, a comma, whitespace and further elements: the text of
   * one list whose second element is padded with that whitespace.
   */
  lemma ItemsCons(s: string, first: Item, x: string, w: string, more: seq<Item>, xs: seq<string>,
                  rest: string) returns (items: seq<Item>)
    requires Blank(first.before) && Blank(first.after) && WritesString(first.forms, x)
    requires Blank(w) && more != [] && more[0].before == [] && WritesItems(more, xs)
    requires s == ItemText(first) + ("," + (w + (ItemsText(more) + "]" + rest)))
    ensures items != [] && items[0] == first
    ensures s == ItemsText(items) + "]" + rest
    ensures WritesItems(items, [x] + xs)
  {
    var padded := more[0 := more[0].(before := w)];
    items := [first] + padded;
    PadFirst(more, w);
    ConsItems(first, padded);
    assert items[1..] == padded;
    Regroup(ItemText(first), ",", w, ItemsText(more), "]", rest);
  }

  /** A quote, the forms, a quote and whitespace make one element without leading whitespace. */
  lemma TokenText(s: string, fs: seq<CharForm>, r: string, w: string, t: string)
    requires s == ['"'] + (FormsText(fs) + "\"" + r) && r == w + t
    ensures s == ItemText(Item([], fs, w)) + t
  {
  }

  /** What ParseString reads is one well-formed string token. */
  lemma StringSound(s: string) returns (first: Item)
    requires ParseString(s).Some?
    ensures first.before == [] && Blank(first.after)
    ensures WritesString(first.forms, ParseString(s).value.0)
    ensures s == ItemText(first) + SkipWhitespace(ParseString(s).value.1)
  {
    var r := ParseString(s).value.1;
    var fs := CharsSound(s[1..]);
    var w := SkipSound(r);
    first := Item([], fs, w);
    HeadTail(s);
    TokenText(s, fs, ParseString(s).value.1, w, SkipWhitespace(ParseString(s).value.1));
  }

  /** The text after the first string of `s` and the whitespace that follows it. */
  function AfterFirst(s: string): string
    requires ParseString(s).Some?
  {
    SkipWhitespace(ParseString(s).value.1)
  }

  /** ParseItems on an array whose first string is also its last. */
  lemma LastItemSound(s: string) returns (items: seq<Item>)
    requires ParseItems(s).Some? && AfterFirst(s)[0] == ']'
    ensures items != [] && items[0].before == []
    ensures s == ItemsText(items) + "]" + ParseItems(s).value.1
    ensures WritesItems(items, ParseItems(s).value.0)
  {
    var t := AfterFirst(s);
    var first := StringSound(s);
    assert ParseItems(s).value == ([ParseString(s).value.0], t[1..]);
    items := [first];
    HeadTail(t);
    assert Blank([]);
  }

  /** What ParseItems reads is a list of well-formed elements and a closing bracket. */
  lemma {:induction false} ItemsSound(s: string) returns (items: seq<Item>)
    requires ParseItems(s).Some?
    ensures items != [] && items[0].before == []
    ensures s == ItemsText(items) + "]" + ParseItems(s).value.1
    ensures WritesItems(items, ParseItems(s).value.0)
    decreases |s|
  {
    var t := AfterFirst(s);
    if t[0] == ']' {
      items := LastItemSound(s);
    } else {
      var w := SkipSound(t[1..]);
      var u := SkipWhitespace(t[1..]);
      var more := ItemsSound(u);
      var x, xs, rest := ParseString(s).value.0, ParseItems(u).value.0, ParseItems(u).value.1;
      var first := StringSound(s);
      assert ParseItems(s).value == ([x] + xs, rest);
      HeadTail(t);
      assert Blank([]);
      items := ItemsCons(s, first, x, w, more, xs, rest);
    }
  }

  lemma NoSuffix(a: string)
    ensures a + [] == a
  {
  }

  /** The layout of an array read with its elements. */
  lemma ArrayLayout(text: string, lead: string, gap: string, items: seq<Item>, xs: seq<string>,
                    trail: string) returns (l: Layout)
    requires Blank(lead) && Blank(gap) && Blank(trail)
    requires items != [] && items[0].before == [] && WritesItems(items, xs)
    requires text == lead + ("[" + (gap + (ItemsText(items) + "]" + trail)))
    ensures LayoutText(l) == text && WritesArray(l, xs)
  {
    var padded := items[0 := items[0].(before := gap)];
    PadFirst(items, gap);
    l := Layout(lead, padded, [], trail);
    assert Blank([]);
    assert WritesItems(padded, xs);
  }

  /**
   * Every text DecodeRoles accepts is the text of a well-formed array of
   * strings, and the roles it returns are the ones that array stands for.
   */
  lemma DecodeSound(text: string) returns (l: Layout)
    requires DecodeRoles(text).Some?
    ensures LayoutText(l) == text && WritesArray(l, DecodeRoles(text).value)
  {
    var lead := SkipSound(text);
    var a := SkipWhitespace(text);
    var rest := ParseArray(a).value.1;
    var trail := SkipSound(rest);
    NoSuffix(trail);
    HeadTail(a);
    var gap := SkipSound(a[1..]);
    var t := SkipWhitespace(a[1..]);
    if t != [] && t[0] == ']' {
      l := Layout(lead, [], gap, trail);
      HeadTail(t);
      assert text == lead + "[" + gap + "]" + trail;
    } else {
      var items := ItemsSound(t);
      l := ArrayLayout(text, lead, gap, items, DecodeRoles(text).value, trail);
    }
  }

  // Completeness: the decoder accepts every well-formed layout.

  /** Whitespace in front of a token is skipped. */
  lemma {:induction false} SkipBlank(w: string, s: string)
    requires Blank(w) && (s == [] || !IsWhitespace(s[0]))
    ensures SkipWhitespace(w + s) == s
  {
    if w != [] {
      assert (w + s)[1..] == w[1..] + s;
      SkipBlank(w[1..], s);
    }
  }

  /** Four hex digits of a character outside the surrogate range, then the rest. */
  lemma UnicodeComplete(d: string, c: char, rest: string)
    requires |d| == 4 && Hex4(d) == Some(c as int)
    ensures ParseUnicodeEscape(d + rest) == Some((c, rest))
  {
    var u := d + rest;
    assert u[..4] == d && u[4..] == rest;
  }

  /** The hex digits of a surrogate pair, then the rest. */
  lemma PairComplete(h: string, l: string, c: char, rest: string)
    requires Writes(Pair(h, l), c)
    ensures ParseUnicodeEscape(h + "\\u" + l + rest) == Some((c, rest))
  {
    var u := h + "\\u" + l + rest;
    assert u[..4] == h && u[4] == '\\' && u[5] == 'u' && u[6..10] == l && u[10..] == rest;
  }

  /** A two-character escape, after its backslash, then the rest. */
  lemma ShortComplete(code: char, c: char, rest: string)
    requires ShortEscape(code, c)
    ensures ParseEscape([code] + rest) == Some((c, rest))
  {
    HeadTail([code] + rest);
  }

  /** A `\u` escape, after its backslash, then the rest. */
  lemma UnicodeEscapeComplete(d: string, c: char, rest: string)
    requires |d| == 4 && Hex4(d) == Some(c as int)
    ensures ParseEscape(['u'] + (d + rest)) == Some((c, rest))
  {
    HeadTail(['u'] + (d + rest));
    UnicodeComplete(d, c, rest);
  }

  /** Two `\u` escapes of a surrogate pair, after the first backslash, then the rest. */
  lemma PairEscapeComplete(h: string, l: string, c: char, rest: string)
    requires Writes(Pair(h, l), c)
    ensures ParseEscape(['u'] + (h + "\\u" + l + rest)) == Some((c, rest))
  {
    HeadTail(['u'] + (h + "\\u" + l + rest));
    PairComplete(h, l, c, rest);
  }

  /** The text of an escape: a backslash, then what ParseEscape reads. */
  lemma EscapeText(f: CharForm, rest: string)
    requires !f.Plain?
    ensures FormText(f) + rest == ['\\'] + (FormText(f)[1..] + rest)
    ensures FormText(f)[1..] + rest ==
      match f
      case Short(code) => [code] + rest
      case Unicode(d) => ['u'] + (d + rest)
      case Pair(h, l) => ['u'] + (h + "\\u" + l + rest)
      case Plain(_) => rest
  {
  }

  /** A well-formed escape, after its backslash, then the rest. */
  lemma EscapeComplete(f: CharForm, c: char, rest: string)
    requires Writes(f, c) && !f.Plain?
    ensures ParseEscape(FormText(f)[1..] + rest) == Some((c, rest))
  {
    EscapeText(f, rest);
    match f
    case Short(code) => ShortComplete(code, c, rest);
    case Unicode(d) => UnicodeEscapeComplete(d, c, rest);
    case Pair(h, l) => PairEscapeComplete(h, l, c, rest);
  }

  /** ParseChars on a backslash and a well-formed escape. */
  lemma BackslashComplete(e: string, c: char, rest: string)
    requires ParseEscape(e) == Some((c, rest))
    ensures ParseChars(['\\'] + e) ==
      match ParseChars(rest)
      case None => None
      case Some((t, after)) => Some(([c] + t, after))
  {
    HeadTail(['\\'] + e);
  }

  /** ParseChars on a character written as it is. */
  lemma PlainComplete(c: char, rest: string)
    requires c >= ' ' && c != '"' && c != '\\'
    ensures ParseChars([c] + rest) ==
      match ParseChars(rest)
      case None => None
      case Some((t, after)) => Some(([c] + t, after))
  {
    HeadTail([c] + rest);
  }

  /** One well-formed form is read as its character, and the rest as before. */
  lemma FormComplete(f: CharForm, c: char, rest: string)
    requires Writes(f, c)
    ensures ParseChars(FormText(f) + rest) ==
      match ParseChars(rest)
      case None => None
      case Some((t, after)) => Some(([c] + t, after))
  {
    if f.Plain? {
      PlainComplete(c, rest);
    } else {
      EscapeText(f, rest);
      EscapeComplete(f, c, rest);
      BackslashComplete(FormText(f)[1..] + rest, c, rest);
    }
  }

  /** Well-formed forms and a closing quote are read as the string they write. */
  lemma {:induction false} FormsComplete(fs: seq<CharForm>, x: string, rest: string)
    requires WritesString(fs, x)
    ensures ParseChars(FormsText(fs) + "\"" + rest) == Some((x, rest))
  {
    if fs == [] {
      assert FormsText(fs) + "\"" + rest == "\"" + rest;
    } else {
      var tail := FormsText(fs[1..]) + "\"" + rest;
      assert FormsText(fs) + "\"" + rest == FormText(fs[0]) + tail;
      FormsComplete(fs[1..], x[1..], rest);
      FormComplete(fs[0], x[0], tail);
      assert [x[0]] + x[1..] == x;
    }
  }

  /** What follows the first element of a list: its closing bracket, or a comma and the others. */
  function ItemsTail(items: seq<Item>, rest: string): string
    requires items != []
  {
    if |items| == 1 then "]" + rest else "," + (ItemsText(items[1..]) + "]" + rest)
  }

  lemma Assoc(a: string, b: string, c: string)
    ensures a + b + c == a + (b + c)
  {
  }

  /** One element and what follows it, taken apart at its string token. */
  lemma ElementRegroup(a: string, q: string, b: string, c: string, t: string)
    ensures a + q + b + q + c + t == a + (q + (b + q + (c + t)))
  {
  }

  /** A list of elements and the closing bracket, taken apart at its first token. */
  lemma ItemsTextSplit(items: seq<Item>, rest: string)
    requires items != []
    ensures ItemsText(items) + "]" + rest ==
      items[0].before + (['"'] + (FormsText(items[0].forms) + "\"" + (items[0].after + ItemsTail(items, rest))))
  {
    var it := items[0];
    if |items| == 1 {
      Assoc(ItemText(it), "]", rest);
    } else {
      Assoc(ItemText(it) + ",", ItemsText(items[1..]), "]" + rest);
      Assoc(ItemText(it), ",", ItemsText(items[1..]) + "]" + rest);
      Assoc(ItemsText(items[1..]), "]", rest);
    }
    ElementRegroup(it.before, "\"", FormsText(it.forms), it.after, ItemsTail(items, rest));
  }

  /** What follows an element that is not the last: a comma and the other elements. */
  lemma ItemsTailMore(items: seq<Item>, rest: string)
    requires |items| > 1
    ensures ItemsTail(items, rest) == [','] + (ItemsText(items[1..]) + "]" + rest)
  {
  }

  /** The later elements of a well-formed list write the later strings. */
  lemma WritesItemsTail(items: seq<Item>, xs: seq<string>)
    requires items != [] && WritesItems(items, xs)
    ensures WritesItems(items[1..], xs[1..])
  {
    forall i | 0 <= i < |items| - 1
      ensures Blank(items[1..][i].before) && Blank(items[1..][i].after)
      ensures WritesString(items[1..][i].forms, xs[1..][i])
    {
      assert items[1..][i] == items[i + 1];
    }
  }

  /** ParseItems on a well-formed first element and what follows it. */
  lemma FirstItemComplete(it: Item, x: string, tail: string)
    requires Blank(it.after) && WritesString(it.forms, x)
    requires tail != [] && (tail[0] == ']' || tail[0] == ',')
    ensures ParseItems(['"'] + (FormsText(it.forms) + "\"" + (it.after + tail))) == ParseAfterItem(x, tail)
  {
    var s := ['"'] + (FormsText(it.forms) + "\"" + (it.after + tail));
    HeadTail(s);
    FormsComplete(it.forms, x, it.after + tail);
    SkipBlank(it.after, tail);
  }

  /** A well-formed list of elements and its closing bracket is read as the strings it writes. */
  lemma {:induction false} ItemsComplete(items: seq<Item>, xs: seq<string>, rest: string)
    requires items != [] && WritesItems(items, xs)
    ensures ParseItems(SkipWhitespace(ItemsText(items) + "]" + rest)) == Some((xs, rest))
  {
    var it, tail := items[0], ItemsTail(items, rest);
    ItemsTextSplit(items, rest);
    SkipBlank(it.before, ['"'] + (FormsText(it.forms) + "\"" + (it.after + tail)));
    if |items| == 1 {
      assert tail == [']'] + rest;
      FirstItemComplete(it, xs[0], tail);
      HeadTail(tail);
      Single(xs);
    } else {
      ItemsTailMore(items, rest);
      FirstItemComplete(it, xs[0], tail);
      HeadTail(tail);
      WritesItemsTail(items, xs);
      ItemsComplete(items[1..], xs[1..], rest);
      HeadTail(xs);
    }
  }

  /** A whole header value, taken apart at its opening bracket. */
  lemma LayoutTextSplit(l: Layout)
    ensures LayoutText(l) ==
      l.lead + (['['] + ((if l.items == [] then l.gap else ItemsText(l.items)) + "]" + l.trail))
  {
  }

  /** DecodeRoles reads every well-formed layout as the strings it stands for. */
  lemma DecodeComplete(l: Layout, xs: seq<string>)
    requires WritesArray(l, xs)
    ensures DecodeRoles(LayoutText(l)) == Some(xs)
  {
    var inner := if l.items == [] then l.gap else ItemsText(l.items);
    var a := ['['] + (inner + "]" + l.trail);
    LayoutTextSplit(l);
    SkipBlank(l.lead, a);
    HeadTail(a);
    NoSuffix(l.trail);
    SkipBlank(l.trail, []);
    if l.items == [] {
      Assoc(l.gap, "]", l.trail);
      SkipBlank(l.gap, "]" + l.trail);
      HeadTail("]" + l.trail);
    } else {
      ItemsComplete(l.items, xs, l.trail);
    }
  }

  /**
   * DecodeRoles returns `xs` exactly when the text is a well-formed JSON
   * array of strings that stands for `xs`.
   */
  lemma DecodeRolesExactly(text: string, xs: seq<string>)
    ensures DecodeRoles(text) == Some(xs) <==> exists l :: LayoutText(l) == text && WritesArray(l, xs)
  {
    if DecodeRoles(text) == Some(xs) {
      var l := DecodeSound(text);
    }
    if exists l :: LayoutText(l) == text && WritesArray(l, xs) {
      var l :| LayoutText(l) == text && WritesArray(l, xs);
      DecodeComplete(l, xs);
    }
  }

  /** DecodeRoles rejects exactly the texts that are not a JSON array of strings. */
  lemma DecodeRolesRejects(text: string)
    ensures DecodeRoles(text).None? <==> !exists l, xs :: LayoutText(l) == text && WritesArray(l, xs)
  {
    if DecodeRoles(text).Some? {
      var l := DecodeSound(text);
    }
    if exists l, xs :: LayoutText(l) == text && WritesArray(l, xs) {
      var l, xs :| LayoutText(l) == text && WritesArray(l, xs);
      DecodeComplete(l, xs);
    }
  }
}
