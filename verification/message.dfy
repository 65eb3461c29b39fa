/**
 The text a broadcast carries: `JSON.stringify({ ddosPercentage })` of the
 value read from a predictions file, and the field a subscriber gets back
 from `JSON.parse(text).ddosPercentage`.
 */
module Message {
  import opened Results

  /** The JavaScript values the extracted `DDOS%` field can take. */
  datatype JsValue = Null | Undefined | Str(s: string)

  /** Lower-case hexadecimal digit, as ECMAScript's UnicodeEscape writes it. */
  function HexDigit(n: nat): (c: char)
    requires n < 16
  {
    if n < 10 then ('0' as int + n) as char else ('a' as int + n - 10) as char
  }

  /** The value of a hexadecimal digit (JSON.parse accepts both cases). */
  function HexValue(c: char): Option<nat>
  {
    if '0' <= c <= '9' then Some(c as int - '0' as int)
    else if 'a' <= c <= 'f' then Some(c as int - 'a' as int + 10)
    else if 'A' <= c <= 'F' then Some(c as int - 'A' as int + 10)
    else None
  }

  lemma HexRoundTrip(n: nat)
    requires n < 16
    ensures HexValue(HexDigit(n)) == Some(n)
  {
  }

  /** The backspace and form-feed characters, which Dafny has no escape for. */
  const Backspace: char := 8 as char
  const FormFeed: char := 12 as char

  /** How QuoteJSONString writes one code point. */
  function EscapeChar(c: char): string
  {
    if c == Backspace then "\\b"
    else if c == '\t' then "\\t"
    else if c == '\n' then "\\n"
    else if c == FormFeed then "\\f"
    else if c == '\r' then "\\r"
    else if c == '"' then "\\\""
    else if c == '\\' then "\\\\"
    else if c < ' ' then "\\u00" + [HexDigit(c as int / 16), HexDigit(c as int % 16)]
    else [c]
  }

  /** The body of QuoteJSONString: every code point escaped in turn. */
  function Escape(s: string): string
  {
    if |s| == 0 then [] else EscapeChar(s[0]) + Escape(s[1..])
  }

  /** Puts `c` in front of a decoded string, keeping a failure a failure. */
  function Prepend(c: char, rest: Option<string>): Option<string>
  {
    match rest
    case None => None
    case Some(t) => Some([c] + t)
  }

  /** The code point of a `\u` escape whose four digits are `h`. */
  function UnicodeValue(h: string): Option<char>
    requires |h| == 4
  {
    match (HexValue(h[0]), HexValue(h[1]), HexValue(h[2]), HexValue(h[3]))
    case (Some(a), Some(b), Some(c), Some(d)) =>
      var n := ((a * 16 + b) * 16 + c) * 16 + d;
      if n < 0xD800 || 0xE000 <= n then Some(n as char) else None
    case _ => None
  }

  /**
   The characters of a JSON string literal between its quotes, as
   JSON.parse reads them, for the escapes QuoteJSONString emits and the
   other single-character escapes. None for text JSON.parse rejects, and
   also for `\u` escapes of surrogate code units, which JSON.parse would
   accept (pairing them) but QuoteJSONString never writes for a string of
   Unicode scalar values.
   */
  function Unescape(t: string): Option<string>
  {
    if |t| == 0 then Some([])
    else if t[0] == '"' || t[0] < ' ' then None
    else if t[0] != '\\' then Prepend(t[0], Unescape(t[1..]))
    else if |t| < 2 then None
    else if t[1] == '"' then Prepend('"', Unescape(t[2..]))
    else if t[1] == '\\' then Prepend('\\', Unescape(t[2..]))
    else if t[1] == '/' then Prepend('/', Unescape(t[2..]))
    else if t[1] == 'b' then Prepend(Backspace, Unescape(t[2..]))
    else if t[1] == 'f' then Prepend(FormFeed, Unescape(t[2..]))
    else if t[1] == 'n' then Prepend('\n', Unescape(t[2..]))
    else if t[1] == 'r' then Prepend('\r', Unescape(t[2..]))
    else if t[1] == 't' then Prepend('\t', Unescape(t[2..]))
    else if t[1] == 'u' && |t| >= 6 then
      match UnicodeValue(t[2..6])
      case None => None
      case Some(c) => Prepend(c, Unescape(t[6..]))
    else None
  }

  /** Reading one escaped code point back gives that code point. */
  lemma UnescapeEscapeChar(c: char, rest: string)
    ensures Unescape(EscapeChar(c) + rest) == Prepend(c, Unescape(rest))
  {
    var t := EscapeChar(c) + rest;
    if c < ' ' && c != Backspace && c != '\t' && c != '\n' && c != FormFeed && c != '\r' {
      var hi, lo := c as int / 16, c as int % 16;
      var e := EscapeChar(c);
      assert e == ['\\', 'u', '0', '0', HexDigit(hi), HexDigit(lo)];
      assert t[..6] == e && t[2..6] == e[2..6];
      assert e[2..6] == ['0', '0', HexDigit(hi), HexDigit(lo)];
      HexRoundTrip(hi);
      HexRoundTrip(lo);
      assert UnicodeValue(t[2..6]) == Some(c);
      assert t[6..] == rest;
    } else if |EscapeChar(c)| == 2 {
      assert t[2..] == rest;
    } else {
      assert t[1..] == rest;
    }
  }

  /** JSON.parse reads back exactly the string QuoteJSONString wrote. */
  lemma {:induction false} UnescapeEscape(s: string)
    ensures Unescape(Escape(s)) == Some(s)
  {
    if |s| > 0 {
      UnescapeEscape(s[1..]);
      UnescapeEscapeChar(s[0], Escape(s[1..]));
      assert [s[0]] + s[1..] == s;
    }
  }

  /** The text of a message up to the value of its only property. */
  const FieldPrefix: string := "{\"ddosPercentage\":"

  /**
   `JSON.stringify({ ddosPercentage: v })`: a property whose value is
   `undefined` is left out of the object.
   */
  function Stringify(v: JsValue): (text: string)
    ensures v.Undefined? <==> text == "{}"
  {
    match v
    case Undefined => "{}"
    case Null => FieldPrefix + "null}"
    case Str(s) => FieldPrefix + "\"" + Escape(s) + "\"}"
  }

  /**
   `JSON.parse(text).ddosPercentage` for the texts `Stringify` can produce:
   a missing property reads as `undefined`; other texts give None.
   */
  function ReadField(text: string): Option<JsValue>
  {
    var n := |FieldPrefix|;
    if text == "{}" then Some(Undefined)
    else if text == FieldPrefix + "null}" then Some(Null)
    else if |text| >= n + 3 && text[..n] == FieldPrefix && text[n] == '"' && text[|text| - 2..] == "\"}" then
      match Unescape(text[n + 1..|text| - 2])
      case None => None
      case Some(s) => Some(Str(s))
    else None
  }

  /** Every message a subscriber receives parses back to the value that was sent. */
  lemma ReadFieldStringify(v: JsValue)
    ensures ReadField(Stringify(v)) == Some(v)
  {
    var text := Stringify(v);
    var n := |FieldPrefix|;
    if v.Str? {
      assert text[n] == '"';
      assert text != FieldPrefix + "null}" by {
        assert (FieldPrefix + "null}")[n] == 'n';
      }
      assert text[..n] == FieldPrefix;
      assert text[|text| - 2..] == "\"}";
      assert text[n + 1..|text| - 2] == Escape(v.s);
      UnescapeEscape(v.s);
    }
  }

  /** Distinct values are never sent as the same text. */
  lemma StringifyInjective(v: JsValue, w: JsValue)
    requires Stringify(v) == Stringify(w)
    ensures v == w
  {
    ReadFieldStringify(v);
    ReadFieldStringify(w);
  }
}
