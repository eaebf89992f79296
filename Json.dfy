/**
 * The JSON text the orchestrator stores for a scraped list of strings:
 * Python's `json.dumps(data, indent=2, ensure_ascii=False)`, together with the
 * decoding the results view applies to it (`json.loads`), restricted to arrays of
 * strings. String escaping follows section 7 of RFC 8259, arrays section 5.
 */
module Json {
  import opened Wrappers

  const Backspace: char := 8 as char
  const FormFeed: char := 12 as char

  // ---------------------------------------------------------------------------
  // Encoding

  /** A lower-case hexadecimal digit. */
  function HexDigit(d: nat): (c: char)
    requires d < 16
    ensures HexValue(c) == Some(d)
  {
    if d < 10 then ('0' as int + d) as char else ('a' as int + d - 10) as char
  }

  /**
   * How one character is written inside a JSON string when non-ASCII text is kept
   * as is: quote and backslash are escaped, the five controls with a short escape
   * use it, every other control below U+0020 becomes `\u00xx`, and the rest is
   * copied unchanged.
   */
  function EscapeChar(c: char): (e: string)
    ensures |e| >= 1
    ensures (c as int) >= 0x20 && c != '"' && c != '\\' ==> e == [c]
    ensures c == '"' || c == '\\' || (c as int) < 0x20 ==> |e| > 1
    ensures |e| > 1 ==> e[0] == '\\'
    ensures |e| > 2 ==> |e| == 6 && e[1] == 'u' && e[2] == '0' && e[3] == '0'
  {
    if c == '"' then ['\\', '"']
    else if c == '\\' then ['\\', '\\']
    else if c == '\n' then ['\\', 'n']
    else if c == '\r' then ['\\', 'r']
    else if c == '\t' then ['\\', 't']
    else if c == Backspace then ['\\', 'b']
    else if c == FormFeed then ['\\', 'f']
    else if (c as int) < 0x20 then ['\\', 'u', '0', '0', HexDigit(c as int / 16), HexDigit(c as int % 16)]
    else [c]
  }

  /** The body of a JSON string: each character escaped in turn. */
  function Escape(s: string): string
  {
    if s == [] then [] else EscapeChar(s[0]) + Escape(s[1..])
  }

  /** A string literal: the escaped body between double quotes. */
  function EncodeString(s: string): (r: string)
    ensures |r| >= 2 && r[0] == '"' && r[|r| - 1] == '"'
  {
    "\"" + Escape(s) + "\""
  }

  /** The elements of a non-empty list, one per line, indented by two spaces. */
  function Items(xs: seq<string>): (r: string)
    requires xs != []
    ensures |r| >= 2 && r[0] == '"' && r[|r| - 1] == '"'
  {
    if |xs| == 1 then EncodeString(xs[0]) else EncodeString(xs[0]) + ",\n  " + Items(xs[1..])
  }

  /** `json.dumps(xs, indent=2, ensure_ascii=False)` for a list of strings; the empty list is `[]`. */
  function EncodeList(xs: seq<string>): (r: string)
    ensures xs == [] <==> r == "[]"
  {
    if xs == [] then "[]" else "[\n  " + Items(xs) + "\n]"
  }

  /**
   * A non-empty list opens with the bracket on its own line and the first element
   * indented by two spaces, and closes with the last element's quote, a newline and
   * the bracket.
   */
  lemma EncodeListLayout(xs: seq<string>)
    requires xs != []
    ensures |EncodeList(xs)| >= 8
    ensures EncodeList(xs)[..5] == "[\n  \""
    ensures EncodeList(xs)[|EncodeList(xs)| - 3..] == "\"\n]"
  {
    var body := Items(xs);
    var r := EncodeList(xs);
    assert r == "[\n  " + body + "\n]";
    assert r[..5] == "[\n  " + [body[0]];
    assert r[|r| - 3..] == [body[|body| - 1]] + "\n]";
  }

  // ---------------------------------------------------------------------------
  // Decoding

  /** The whitespace JSON allows between tokens. */
  predicate IsWhitespace(c: char)
  {
    c == ' ' || c == '\t' || c == '\n' || c == '\r'
  }

  function SkipWhitespace(s: string): (r: string)
    ensures |r| <= |s|
    ensures r == [] || !IsWhitespace(r[0])
  {
    if s != [] && IsWhitespace(s[0]) then SkipWhitespace(s[1..]) else s
  }

  function HexValue(c: char): (r: Option<nat>)
    ensures r.Some? ==> r.value < 16
  {
    if '0' <= c <= '9' then Some(c as int - '0' as int)
    else if 'a' <= c <= 'f' then Some(c as int - 'a' as int + 10)
    else if 'A' <= c <= 'F' then Some(c as int - 'A' as int + 10)
    else None
  }

  /** Four hexadecimal digits, either case, as a code unit. */
  function Hex4(h: string): (r: Option<nat>)
    requires |h| == 4
    ensures r.Some? ==> r.value < 0x1_0000
  {
    if HexValue(h[0]).Some? && HexValue(h[1]).Some? && HexValue(h[2]).Some? && HexValue(h[3]).Some? then
      Some(((HexValue(h[0]).value * 16 + HexValue(h[1]).value) * 16 + HexValue(h[2]).value) * 16 + HexValue(h[3]).value)
    else None
  }

  /** The character a one-letter escape stands for. */
  function SimpleEscape(c: char): Option<char>
  {
    if c == '"' then Some('"')
    else if c == '\\' then Some('\\')
    else if c == '/' then Some('/')
    else if c == 'b' then Some(Backspace)
    else if c == 'f' then Some(FormFeed)
    else if c == 'n' then Some('\n')
    else if c == 'r' then Some('\r')
    else if c == 't' then Some('\t')
    else None
  }

  /** What follows a backslash: the character it denotes and the text after the escape. */
  function Unescape(s: string): (r: Option<(char, string)>)
    ensures r.Some? ==> |r.value.1| < |s|
  {
    if s == [] then None
    else if s[0] == 'u' then
      if |s| < 5 then None
      else
        match Hex4(s[1..5])
        case None => None
        case Some(code) => if 0xD800 <= code < 0xE000 then None else Some((code as char, s[5..]))
    else
      match SimpleEscape(s[0])
      case None => None
      case Some(c) => Some((c, s[1..]))
  }

  function Prepend(c: char, r: Option<(string, string)>): Option<(string, string)>
  {
    match r
    case None => None
    case Some((t, rest)) => Some(([c] + t, rest))
  }

  /**
   * The body of a string after its opening quote, up to and including the closing
   * quote: the decoded text and what follows. A raw control character is refused,
   * as the strict decoder does.
   */
  function StringBody(s: string): (r: Option<(string, string)>)
    ensures r.Some? ==> |r.value.1| < |s|
    decreases |s|
  {
    if s == [] then None
    else if s[0] == '"' then Some(([], s[1..]))
    else if s[0] == '\\' then
      match Unescape(s[1..])
      case None => None
      case Some((c, rest)) => Prepend(c, StringBody(rest))
    else if (s[0] as int) < 0x20 then None
    else Prepend(s[0], StringBody(s[1..]))
  }

  /** One or more strings separated by commas and closed by `]`: the strings and what follows the bracket. */
  function Elements(s: string): (r: Option<(seq<string>, string)>)
    ensures r.Some? ==> |r.value.1| < |s|
    decreases |s|
  {
    if s == [] || s[0] != '"' then None
    else
      match StringBody(s[1..])
      case None => None
      case Some((x, rest)) =>
        var after := SkipWhitespace(rest);
        if after != [] && after[0] == ']' then Some(([x], after[1..]))
        else if after != [] && after[0] == ',' then
          match Elements(SkipWhitespace(after[1..]))
          case None => None
          case Some((xs, rest')) => Some(([x] + xs, rest'))
        else None
  }

  /** `json.loads` of a text that must hold one array of strings, with whitespace around any token; None otherwise. */
  function DecodeList(s: string): Option<seq<string>>
  {
    var s1 := SkipWhitespace(s);
    if s1 == [] || s1[0] != '[' then None
    else
      var s2 := SkipWhitespace(s1[1..]);
      if s2 != [] && s2[0] == ']' then
        if SkipWhitespace(s2[1..]) == [] then Some([]) else None
      else
        match Elements(s2)
        case None => None
        case Some((xs, rest)) => if SkipWhitespace(rest) == [] then Some(xs) else None
  }

  // ---------------------------------------------------------------------------
  // The round trip

  /** Decoding one escaped character gives the character back and continues with the rest. */
  lemma StringBodyStep(c: char, t: string)
    ensures StringBody(EscapeChar(c) + t) == Prepend(c, StringBody(t))
  {
    var u := EscapeChar(c) + t;
    if |EscapeChar(c)| == 1 {
      assert u[0] == c && u[1..] == t;
    } else if (c as int) < 0x20 && c != '\n' && c != '\r' && c != '\t' && c != Backspace && c != FormFeed {
      var hi, lo := c as int / 16, c as int % 16;
      assert u[1..] == ['u', '0', '0', HexDigit(hi), HexDigit(lo)] + t;
      assert u[1..][1..5] == ['0', '0', HexDigit(hi), HexDigit(lo)];
      assert Hex4(u[1..][1..5]) == Some(c as int);
      assert u[1..][5..] == t;
    } else {
      assert u[1..] == [EscapeChar(c)[1]] + t;
      assert u[1..][1..] == t;
    }
  }

  /** The body written for `s`, then a quote, decodes to `s` and leaves what follows the quote. */
  lemma {:induction false} StringBodyEscape(s: string, rest: string)
    ensures StringBody(Escape(s) + "\"" + rest) == Some((s, rest))
  {
    if s == [] {
      assert Escape(s) + "\"" + rest == ['"'] + rest;
    } else {
      var t := Escape(s[1..]) + "\"" + rest;
      assert Escape(s) + "\"" + rest == EscapeChar(s[0]) + t;
      StringBodyStep(s[0], t);
      StringBodyEscape(s[1..], rest);
      assert [s[0]] + s[1..] == s;
    }
  }

  /** Whitespace in front of a token is skipped. */
  lemma {:induction false} SkipWhitespacePrefix(w: string, u: string)
    requires forall i :: 0 <= i < |w| ==> IsWhitespace(w[i])
    requires u == [] || !IsWhitespace(u[0])
    ensures SkipWhitespace(w + u) == u
  {
    if w != [] {
      assert (w + u)[1..] == w[1..] + u;
      SkipWhitespacePrefix(w[1..], u);
    }
  }

  lemma ElementsClose(s: string, x: string, rest: string)
    requires s != [] && s[0] == '"' && StringBody(s[1..]) == Some((x, rest))
    requires SkipWhitespace(rest) != [] && SkipWhitespace(rest)[0] == ']'
    ensures Elements(s) == Some(([x], SkipWhitespace(rest)[1..]))
  {
  }

  lemma ElementsComma(s: string, x: string, rest: string, xs: seq<string>, rest': string)
    requires s != [] && s[0] == '"' && StringBody(s[1..]) == Some((x, rest))
    requires SkipWhitespace(rest) != [] && SkipWhitespace(rest)[0] == ','
    requires Elements(SkipWhitespace(SkipWhitespace(rest)[1..])) == Some((xs, rest'))
    ensures Elements(s) == Some(([x] + xs, rest'))
  {
  }

  /** An encoded string followed by more text starts with its quote, then its body. */
  lemma QuotedTail(x: string, tail: string)
    ensures EncodeString(x) + tail != [] && (EncodeString(x) + tail)[0] == '"'
    ensures (EncodeString(x) + tail)[1..] == Escape(x) + "\"" + tail
  {
    var e := Escape(x) + "\"";
    assert EncodeString(x) == "\"" + e;
    ConcatAssoc("\"", e, tail);
  }

  /** A last element: its string, a line break and the closing bracket. */
  lemma ElementsLast(x: string, rest: string)
    ensures Elements(EncodeString(x) + "\n]" + rest) == Some(([x], rest))
  {
    var tail := "\n]" + rest;
    var s := EncodeString(x) + tail;
    QuotedTail(x, tail);
    StringBodyEscape(x, tail);
    assert tail == "\n" + ("]" + rest);
    SkipWhitespacePrefix("\n", "]" + rest);
    assert ("]" + rest)[1..] == rest;
    ElementsClose(s, x, tail);
    ConcatAssoc(EncodeString(x), "\n]", rest);
  }

  /** The separator between two elements is a comma, then whitespace up to the next string. */
  lemma SkipSeparator(more: string)
    requires more != [] && more[0] == '"'
    ensures SkipWhitespace(",\n  " + more) == ",\n  " + more
    ensures SkipWhitespace((",\n  " + more)[1..]) == more
  {
    var tail := ",\n  " + more;
    SkipWhitespacePrefix([], tail);
    ConcatAssoc([','], "\n  ", more);
    assert tail[1..] == "\n  " + more;
    SkipWhitespacePrefix("\n  ", more);
  }

  /** An element followed by a comma, a line break, the indentation and further elements. */
  lemma ElementsCons(x: string, more: string, xs: seq<string>, rest: string)
    requires more != [] && more[0] == '"'
    requires Elements(more) == Some((xs, rest))
    ensures Elements(EncodeString(x) + ",\n  " + more) == Some(([x] + xs, rest))
  {
    var tail := ",\n  " + more;
    QuotedTail(x, tail);
    StringBodyEscape(x, tail);
    SkipSeparator(more);
    ElementsComma(EncodeString(x) + tail, x, tail, xs, rest);
    ConcatAssoc(EncodeString(x), ",\n  ", more);
  }

  /** The element lines of a non-empty list, then the closing line, decode to the list. */
  lemma {:induction false} ElementsItems(xs: seq<string>, rest: string)
    requires xs != []
    ensures Elements(Items(xs) + "\n]" + rest) == Some((xs, rest))
    decreases |xs|
  {
    if |xs| == 1 {
      ElementsLast(xs[0], rest);
      assert xs == [xs[0]];
    } else {
      var items := Items(xs[1..]);
      var more := items + "\n]" + rest;
      ElementsItems(xs[1..], rest);
      QuotedTail(xs[1], []);
      assert items == EncodeString(xs[1..][0]) || items == EncodeString(xs[1..][0]) + ",\n  " + Items(xs[1..][1..]);
      assert more[0] == items[0] == '"';
      ElementsCons(xs[0], more, xs[1..], rest);
      var head := EncodeString(xs[0]) + ",\n  ";
      assert Items(xs) == head + items;
      ConcatAssoc(head, items, "\n]");
      ConcatAssoc(head, items + "\n]", rest);
      assert [xs[0]] + xs[1..] == xs;
    }
  }

  /** The stored text decodes back to the same ordered list of strings. */
  lemma DecodeEncodeList(xs: seq<string>)
    ensures DecodeList(EncodeList(xs)) == Some(xs)
  {
    var e := EncodeList(xs);
    SkipWhitespacePrefix([], e);
    if xs == [] {
      assert e[1..] == "]";
      SkipWhitespacePrefix([], "]");
      assert "]"[1..] == [];
    } else {
      var body := Items(xs) + "\n]" + [];
      assert e == "[" + ("\n  " + body);
      assert e[1..] == "\n  " + body;
      assert body[0] == '"';
      SkipWhitespacePrefix("\n  ", body);
      ElementsItems(xs, []);
    }
  }

  /** Distinct lists are stored as distinct texts. */
  lemma EncodeListInjective(xs: seq<string>, ys: seq<string>)
    requires EncodeList(xs) == EncodeList(ys)
    ensures xs == ys
  {
    DecodeEncodeList(xs);
    DecodeEncodeList(ys);
  }
}
