/** The JSON text of the queue messages: `json.dumps` with its default
    settings (`ensure_ascii=True`, separators `", "` and `": "`) for the flat
    dictionaries the flows send, and `json.loads(body)['filename']` for the
    message the enqueuer writes. */
module Json {
  import opened Wrappers
  import opened Text

  /** The values the flows put in a message: strings and sizes. */
  datatype Value = JString(s: string) | JNat(n: nat)

  // ---------------------------------------------------------------------
  // Hexadecimal digits of `\uXXXX` escapes

  /** `'{0:04x}'.format(v)` for `v < 0x10000`. */
  function Hex4(v: nat): (s: string)
    requires v < 0x10000
    ensures |s| == 4
  {
    var v1 := v / 16;
    var v2 := v1 / 16;
    [LowerHexDigit(v2 / 16), LowerHexDigit(v2 % 16), LowerHexDigit(v1 % 16), LowerHexDigit(v % 16)]
  }

  /** Four hexadecimal digits read as a number. */
  function ParseHex4(s: string): Option<nat>
    requires |s| >= 4
  {
    match (HexValue(s[0]), HexValue(s[1]), HexValue(s[2]), HexValue(s[3]))
    case (Some(a), Some(b), Some(c), Some(d)) => Some(((a * 16 + b) * 16 + c) * 16 + d)
    case _ => None
  }

  /** Text starting with the four digits of `v` reads back as `v`. */
  lemma Hex4RoundTrip(v: nat, t: string)
    requires v < 0x10000
    requires |t| >= 4 && t[..4] == Hex4(v)
    ensures ParseHex4(t) == Some(v)
  {
    var v1 := v / 16;
    var v2 := v1 / 16;
    LowerHexDigitValue(v2 / 16);
    LowerHexDigitValue(v2 % 16);
    LowerHexDigitValue(v1 % 16);
    LowerHexDigitValue(v % 16);
    assert t[0] == t[..4][0] && t[1] == t[..4][1] && t[2] == t[..4][2] && t[3] == t[..4][3];
    assert v2 == (v2 / 16) * 16 + v2 % 16;
    assert v1 == v2 * 16 + v1 % 16;
    assert v == v1 * 16 + v % 16;
  }

  // ---------------------------------------------------------------------
  // Writing strings

  /** The characters `ensure_ascii` writes as they are: space to `~`, except
      the quote and the backslash. */
  predicate Plain(c: char) {
    ' ' <= c <= '~' && c != '"' && c != '\\'
  }

  predicate IsSurrogate(v: int) {
    0xD800 <= v < 0xE000
  }

  /** The high and low halves of the surrogate pair for a character above
      `0xFFFF`, as `py_encode_basestring_ascii` computes them. */
  function HighSurrogate(v: int): nat
    requires 0x10000 <= v < 0x110000
  {
    0xD800 + (v - 0x10000) / 0x400
  }

  function LowSurrogate(v: int): nat
    requires 0x10000 <= v < 0x110000
  {
    0xDC00 + (v - 0x10000) % 0x400
  }

  /** The two `\\uXXXX` escapes after the first backslash of a character
      above `0xFFFF`. */
  function SurrogatePair(v: int): string
    requires 0x10000 <= v < 0x110000
  {
    Hex4(HighSurrogate(v)) + "\\u" + Hex4(LowSurrogate(v))
  }

  /** One character as `json.dumps` writes it inside a string. */
  function EscapeChar(c: char): (s: string)
    ensures |s| >= 1
  {
    if Plain(c) then [c]
    else if c == '"' then "\\\""
    else if c == '\\' then "\\\\"
    else if c == '\n' then "\\n"
    else if c == '\r' then "\\r"
    else if c == '\t' then "\\t"
    else if c == '\U{8}' then "\\b"
    else if c == '\U{C}' then "\\f"
    else if (c as int) < 0x10000 then "\\u" + Hex4(c as int)
    else "\\u" + SurrogatePair(c as int)
  }

  function Escape(s: string): string
    decreases |s|
  {
    if s == [] then "" else EscapeChar(s[0]) + Escape(s[1..])
  }

  /** `json.dumps(s)` for a string. */
  function EncodeString(s: string): string {
    "\"" + Escape(s) + "\""
  }

  function EncodeValue(v: Value): string {
    match v
    case JString(s) => EncodeString(s)
    case JNat(n) => NatToString(n)
  }

  function EncodeMembers(fields: seq<(string, Value)>): string
    decreases |fields|
  {
    if fields == [] then ""
    else
      var member := EncodeString(fields[0].0) + ": " + EncodeValue(fields[0].1);
      if |fields| == 1 then member else member + ", " + EncodeMembers(fields[1..])
  }

  /** `json.dumps(d)` for a flat dictionary, its items in insertion order. */
  function EncodeObject(fields: seq<(string, Value)>): string {
    "{" + EncodeMembers(fields) + "}"
  }

  /** The message for one file: `json.dumps({'filename': name})`. */
  function EncodeFilename(name: string): string {
    EncodeObject([("filename", JString(name))])
  }

  predicate Ascii(s: string) {
    forall i :: 0 <= i < |s| ==> (s[i] as int) < 0x80
  }

  lemma HexDigitAscii(d: nat)
    requires d < 16
    ensures (LowerHexDigit(d) as int) < 0x80
  {
    LowerHexDigitValue(d);
  }

  lemma Hex4Ascii(v: nat)
    requires v < 0x10000
    ensures Ascii(Hex4(v))
  {
    var v1 := v / 16;
    var v2 := v1 / 16;
    HexDigitAscii(v2 / 16); HexDigitAscii(v2 % 16); HexDigitAscii(v1 % 16); HexDigitAscii(v % 16);
  }

  lemma AsciiAppend(a: string, b: string)
    requires Ascii(a) && Ascii(b)
    ensures Ascii(a + b)
  {
    assert forall i :: |a| <= i < |a + b| ==> (a + b)[i] == b[i - |a|];
  }

  lemma EscapeCharAscii(c: char)
    ensures Ascii(EscapeChar(c))
  {
    var v := c as int;
    if Plain(c) {
    } else if c == '"' || c == '\\' || c == '\n' || c == '\r' || c == '\t' || c == '\U{8}' || c == '\U{C}' {
    } else if v < 0x10000 {
      Hex4Ascii(v);
      AsciiAppend("\\u", Hex4(v));
    } else {
      var hi, lo := HighSurrogate(v), LowSurrogate(v);
      Hex4Ascii(hi);
      Hex4Ascii(lo);
      AsciiAppend(Hex4(hi), "\\u");
      AsciiAppend(Hex4(hi) + "\\u", Hex4(lo));
      AsciiAppend("\\u", SurrogatePair(v));
    }
  }

  /** `ensure_ascii`: whatever the name, the escaped text is plain ASCII, so
      its UTF-8 encoding has one byte per character. */
  lemma {:induction false} EscapeAscii(s: string)
    ensures Ascii(Escape(s))
    decreases |s|
  {
    if s != [] {
      EscapeCharAscii(s[0]);
      EscapeAscii(s[1..]);
      AsciiAppend(EscapeChar(s[0]), Escape(s[1..]));
    }
  }

  // ---------------------------------------------------------------------
  // Reading strings back

  /** The character a `\uXXXX` escape (or a surrogate pair of them) stands
      for, and the text after it. `s` starts after the `u`. A lone surrogate
      has no `char` here and reads as a failure. */
  function UnicodeEscape(s: string): (r: Option<(char, string)>)
    ensures r.Some? ==> |r.value.1| < |s|
  {
    if |s| < 4 then None
    else match ParseHex4(s)
      case None => None
      case Some(v) =>
        if !IsSurrogate(v) then Some((v as char, s[4..]))
        else LowSurrogateEscape(v, s[4..])
  }

  /** The character a high surrogate `v` forms with the `\\uXXXX` escape
      of a low surrogate at the start of `s`, and the text after it. */
  function LowSurrogateEscape(v: nat, s: string): (r: Option<(char, string)>)
    requires IsSurrogate(v)
    ensures r.Some? ==> |r.value.1| < |s|
  {
    if v >= 0xDC00 || |s| < 6 || s[..2] != "\\u" then None
    else match ParseHex4(s[2..])
      case None => None
      case Some(w) =>
        if 0xDC00 <= w < 0xE000 then Some((Combine(v, w) as char, s[6..]))
        else None
  }

  /** The character a surrogate pair stands for. */
  function Combine(hi: int, lo: int): (v: int)
    requires 0xD800 <= hi < 0xDC00 && 0xDC00 <= lo < 0xE000
    ensures 0x10000 <= v < 0x110000
  {
    0x10000 + (hi - 0xD800) * 0x400 + (lo - 0xDC00)
  }

  /** The character after a backslash, and the text after the escape. */
  function Unescape(s: string): (r: Option<(char, string)>)
    ensures r.Some? ==> |r.value.1| < |s|
  {
    if s == [] then None
    else if s[0] == '"' then Some(('"', s[1..]))
    else if s[0] == '\\' then Some(('\\', s[1..]))
    else if s[0] == '/' then Some(('/', s[1..]))
    else if s[0] == 'b' then Some(('\U{8}', s[1..]))
    else if s[0] == 'f' then Some(('\U{C}', s[1..]))
    else if s[0] == 'n' then Some(('\n', s[1..]))
    else if s[0] == 'r' then Some(('\r', s[1..]))
    else if s[0] == 't' then Some(('\t', s[1..]))
    else if s[0] == 'u' then UnicodeEscape(s[1..])
    else None
  }

  /** The body of a JSON string up to its closing quote, and the text after
      that quote. Control characters must be escaped. */
  function ParseStringBody(s: string): Option<(string, string)>
    decreases |s|
  {
    if s == [] then None
    else if s[0] == '"' then Some(("", s[1..]))
    else if s[0] == '\\' then
      match Unescape(s[1..])
      case None => None
      case Some((c, rest)) =>
        match ParseStringBody(rest)
        case None => None
        case Some((t, after)) => Some(([c] + t, after))
    else if (s[0] as int) < 0x20 then None
    else
      match ParseStringBody(s[1..])
      case None => None
      case Some((t, after)) => Some(([s[0]] + t, after))
  }

  const FilenamePrefix: string := "{\"filename\": \""

  /** `json.loads(body)['filename']` for the message text the enqueuer
      writes; any other text is treated as a failure. */
  function DecodeFilename(body: string): Option<string> {
    if !StartsWith(body, FilenamePrefix) then None
    else match ParseStringBody(body[|FilenamePrefix|..])
      case Some((name, rest)) => if rest == "}" then Some(name) else None
      case None => None
  }

  /** The halves of a surrogate pair are a high and a low surrogate, and
      they combine back into the character. */
  lemma SurrogateHalves(v: int)
    requires 0x10000 <= v < 0x110000
    ensures IsSurrogate(HighSurrogate(v)) && HighSurrogate(v) < 0xDC00
    ensures 0xDC00 <= LowSurrogate(v) < 0xE000
    ensures Combine(HighSurrogate(v), LowSurrogate(v)) == v
  {
    assert v - 0x10000 == (v - 0x10000) / 0x400 * 0x400 + (v - 0x10000) % 0x400;
  }

  lemma PairParts(h: string, l: string, rest: string)
    requires |h| == 4 && |l| == 4
    ensures var s := h + "\\u" + l + rest;
      && |s| >= 10 && s[..4] == h && s[4..][..2] == "\\u" && s[4..][2..][..4] == l && s[4..][6..] == rest
  {
  }

  lemma SurrogatePairRoundTrip(c: char, rest: string)
    requires (c as int) >= 0x10000
    ensures UnicodeEscape(SurrogatePair(c as int) + rest) == Some((c, rest))
  {
    var v := c as int;
    var hi, lo := HighSurrogate(v), LowSurrogate(v);
    var s := SurrogatePair(v) + rest;
    SurrogateHalves(v);
    PairParts(Hex4(hi), Hex4(lo), rest);
    Hex4RoundTrip(hi, s);
    assert UnicodeEscape(s) == LowSurrogateEscape(hi, s[4..]);
    Hex4RoundTrip(lo, s[4..][2..]);
    assert Combine(hi, lo) as char == c;
  }

  /** The escapes of the seven characters with a short form. */
  lemma ShortEscapeRoundTrip(c: char, rest: string)
    requires c == '"' || c == '\\' || c == '\n' || c == '\r' || c == '\t' || c == '\U{8}' || c == '\U{C}'
    ensures EscapeChar(c)[0] == '\\'
    ensures Unescape(EscapeChar(c)[1..] + rest) == Some((c, rest))
  {
    var u := EscapeChar(c)[1..] + rest;
    assert u[1..] == rest;
  }

  lemma UnescapeUnicode(t: string)
    ensures Unescape("u" + t) == UnicodeEscape(t)
  {
    assert ("u" + t)[1..] == t;
  }

  /** A `\\u` escape: the text after its backslash. */
  lemma UnicodeTail(t: string, rest: string)
    ensures ("\\u" + t)[0] == '\\'
    ensures ("\\u" + t)[1..] + rest == "u" + (t + rest)
  {
    assert ("\\u" + t)[1..] == "u" + t;
  }

  lemma BmpEscapeRoundTrip(c: char, rest: string)
    requires !Plain(c) && c != '"' && c != '\\' && c != '\n' && c != '\r' && c != '\t' && c != '\U{8}' && c != '\U{C}'
    requires (c as int) < 0x10000
    ensures EscapeChar(c)[0] == '\\'
    ensures Unescape(EscapeChar(c)[1..] + rest) == Some((c, rest))
  {
    var h := Hex4(c as int);
    assert EscapeChar(c) == "\\u" + h;
    UnicodeTail(h, rest);
    UnescapeUnicode(h + rest);
    assert (h + rest)[..4] == h;
    Hex4RoundTrip(c as int, h + rest);
    assert (h + rest)[4..] == rest;
  }

  lemma PairEscapeRoundTrip(c: char, rest: string)
    requires (c as int) >= 0x10000
    ensures EscapeChar(c)[0] == '\\'
    ensures Unescape(EscapeChar(c)[1..] + rest) == Some((c, rest))
  {
    var t := SurrogatePair(c as int);
    assert EscapeChar(c) == "\\u" + t;
    UnicodeTail(t, rest);
    UnescapeUnicode(t + rest);
    SurrogatePairRoundTrip(c, rest);
  }

  /** Reading back one escaped character gives the character and leaves the
      text after it. */
  lemma EscapeCharRoundTrip(c: char, rest: string)
    ensures ParseStringBody(EscapeChar(c) + rest) ==
      match ParseStringBody(rest)
      case None => None
      case Some((t, a)) => Some(([c] + t, a))
  {
    var e := EscapeChar(c);
    var s := e + rest;
    if Plain(c) {
      assert s[0] == c && s[1..] == rest;
    } else {
      if c == '"' || c == '\\' || c == '\n' || c == '\r' || c == '\t' || c == '\U{8}' || c == '\U{C}' {
        ShortEscapeRoundTrip(c, rest);
      } else if (c as int) < 0x10000 {
        BmpEscapeRoundTrip(c, rest);
      } else {
        PairEscapeRoundTrip(c, rest);
      }
      assert s[0] == '\\';
      assert s[1..] == e[1..] + rest;
    }
  }

  /** Reading back an escaped string up to the closing quote gives the
      string and the text after the quote. */
  lemma {:induction false} EscapeRoundTrip(s: string, after: string)
    ensures ParseStringBody(Escape(s) + ("\"" + after)) == Some((s, after))
    decreases |s|
  {
    if s == [] {
      assert Escape(s) + ("\"" + after) == "\"" + after;
      assert ("\"" + after)[1..] == after;
    } else {
      var e, r, q := EscapeChar(s[0]), Escape(s[1..]), "\"" + after;
      EscapeRoundTrip(s[1..], after);
      AppendAssoc(e, r, q);
      EscapeCharRoundTrip(s[0], r + q);
      assert [s[0]] + s[1..] == s;
    }
  }

  /** A string of plain characters is written as it is. */
  lemma {:induction false} EscapePlain(s: string)
    requires forall i :: 0 <= i < |s| ==> Plain(s[i])
    ensures Escape(s) == s
    decreases |s|
  {
    if s != [] {
      EscapePlain(s[1..]);
      assert [s[0]] + s[1..] == s;
    }
  }

  /** A key of plain characters is written between quotes as it is. */
  lemma PlainEncoded(key: string)
    requires forall i :: 0 <= i < |key| ==> Plain(key[i])
    ensures EncodeString(key) == "\"" + key + "\""
  {
    EscapePlain(key);
  }

  lemma FilenameKeyEncoded()
    ensures EncodeString("filename") == "\"filename\""
  {
    var key := "filename";
    assert forall i :: 0 <= i < |key| ==> Plain(key[i]);
    PlainEncoded(key);
  }

  lemma PrefixOpening(k: string)
    requires k == "\"filename\""
    ensures "{" + (k + ": ") + "\"" == FilenamePrefix
  {
  }

  /** The message for a file is the fixed prefix, the escaped name and `"}`. */
  lemma EncodeFilenameShape(name: string)
    ensures EncodeFilename(name) == FilenamePrefix + (Escape(name) + ("\"" + "}"))
  {
    FilenameKeyEncoded();
    var k, e := EncodeString("filename"), Escape(name);
    PrefixOpening(k);
    var v := "\"" + e + "\"";
    var opening := "{" + (k + ": ");
    calc {
      EncodeFilename(name);
      "{" + ((k + ": ") + v) + "}";
      { AppendAssoc("{", k + ": ", v); }
      (opening + v) + "}";
      { AppendAssoc(opening, "\"" + e, "\"");
        AppendAssoc(opening, "\"", e); }
      (((opening + "\"") + e) + "\"") + "}";
      ((FilenamePrefix + e) + "\"") + "}";
      { AppendAssoc(FilenamePrefix + e, "\"", "}");
        AppendAssoc(FilenamePrefix, e, "\"" + "}"); }
      FilenamePrefix + (e + ("\"" + "}"));
    }
  }

  /** The worker reads back exactly the filename the enqueuer wrote. */
  lemma FilenameRoundTrip(name: string)
    ensures DecodeFilename(EncodeFilename(name)) == Some(name)
  {
    var body := EncodeFilename(name);
    EncodeFilenameShape(name);
    assert body[..|FilenamePrefix|] == FilenamePrefix;
    assert body[|FilenamePrefix|..] == Escape(name) + ("\"" + "}");
    EscapeRoundTrip(name, "}");
  }
}
