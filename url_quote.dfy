/** `urllib.parse.quote(s)` with its default `safe='/'`: letters, digits,
    `_.-~` and `/` stay as they are; every other character is written as
    its UTF-8 bytes, each as `%XX` in upper-case hexadecimal. Its partner is
    `unquote_to_bytes`, which reads the bytes back. */
module UrlQuote {
  import opened Wrappers
  import opened Text

  /** The characters `quote` leaves alone with `safe='/'`. */
  predicate Safe(c: char) {
    'A' <= c <= 'Z' || 'a' <= c <= 'z' || '0' <= c <= '9'
    || c == '_' || c == '.' || c == '-' || c == '~' || c == '/'
  }

  predicate IsByte(b: nat) {
    b < 256
  }

  /** The UTF-8 encoding of one character. */
  function Utf8(c: char): (bytes: seq<nat>)
    ensures 1 <= |bytes| <= 4
    ensures forall i :: 0 <= i < |bytes| ==> IsByte(bytes[i])
  {
    var v := c as int;
    if v < 0x80 then [v]
    else if v < 0x800 then [0xC0 + v / 64, 0x80 + v % 64]
    else if v < 0x10000 then [0xE0 + v / 4096, 0x80 + v / 64 % 64, 0x80 + v % 64]
    else [0xF0 + v / 262144, 0x80 + v / 4096 % 64, 0x80 + v / 64 % 64, 0x80 + v % 64]
  }

  /** `s.encode('utf-8')` */
  function Bytes(s: string): seq<nat>
    decreases |s|
  {
    if s == [] then [] else Utf8(s[0]) + Bytes(s[1..])
  }

  /** Each byte as `%XX`. */
  function PercentEncoded(bytes: seq<nat>): (s: string)
    requires forall i :: 0 <= i < |bytes| ==> IsByte(bytes[i])
    ensures |s| == 3 * |bytes|
    decreases |bytes|
  {
    if bytes == [] then ""
    else
      assert IsByte(bytes[0]);
      ['%', UpperHexDigit(bytes[0] / 16), UpperHexDigit(bytes[0] % 16)] + PercentEncoded(bytes[1..])
  }

  function QuoteChar(c: char): string {
    if Safe(c) then [c] else PercentEncoded(Utf8(c))
  }

  /** `urllib.parse.quote(s)` */
  function Quote(s: string): string
    decreases |s|
  {
    if s == [] then "" else QuoteChar(s[0]) + Quote(s[1..])
  }

  /** `urllib.parse.unquote_to_bytes(s)`: `%` and two hexadecimal digits
      become that byte; every other character gives its UTF-8 bytes. */
  function UnquoteToBytes(s: string): seq<nat>
    decreases |s|
  {
    if s == [] then []
    else if s[0] == '%' && |s| >= 3 && HexValue(s[1]).Some? && HexValue(s[2]).Some? then
      [HexValue(s[1]).value * 16 + HexValue(s[2]).value] + UnquoteToBytes(s[3..])
    else Utf8(s[0]) + UnquoteToBytes(s[1..])
  }

  /** A name made only of safe characters is quoted as itself. */
  lemma {:induction false} QuoteSafe(s: string)
    requires forall i :: 0 <= i < |s| ==> Safe(s[i])
    ensures Quote(s) == s
    decreases |s|
  {
    if s != [] {
      QuoteSafe(s[1..]);
      assert [s[0]] + s[1..] == s;
    }
  }

  /** Quoting never shortens a text, and lengthens every text holding a
      character outside the safe set. */
  lemma {:induction false} QuoteLonger(s: string)
    ensures |Quote(s)| >= |s|
    ensures (exists i :: 0 <= i < |s| && !Safe(s[i])) ==> |Quote(s)| > |s|
    decreases |s|
  {
    if s != [] {
      QuoteLonger(s[1..]);
      if exists i :: 0 <= i < |s| && !Safe(s[i]) {
        var i :| 0 <= i < |s| && !Safe(s[i]);
        if i > 0 {
          assert !Safe(s[1..][i - 1]);
        }
      }
    }
  }

  /** The text `quote` writes holds only safe characters, `%` and upper-case
      hexadecimal digits. */
  predicate QuotedAlphabet(s: string) {
    forall i :: 0 <= i < |s| ==> Safe(s[i]) || s[i] == '%' || ('A' <= s[i] <= 'F')
  }

  lemma AlphabetAppend(a: string, b: string)
    requires QuotedAlphabet(a) && QuotedAlphabet(b)
    ensures QuotedAlphabet(a + b)
  {
    assert forall i :: |a| <= i < |a + b| ==> (a + b)[i] == b[i - |a|];
  }

  lemma UpperHexDigitAlphabet(d: nat)
    requires d < 16
    ensures Safe(UpperHexDigit(d)) || ('A' <= UpperHexDigit(d) <= 'F')
  {
    UpperHexDigitValue(d);
  }

  lemma {:induction false} PercentEncodedAlphabet(bytes: seq<nat>)
    requires forall i :: 0 <= i < |bytes| ==> IsByte(bytes[i])
    ensures QuotedAlphabet(PercentEncoded(bytes))
    decreases |bytes|
  {
    if bytes != [] {
      PercentEncodedAlphabet(bytes[1..]);
      UpperHexDigitAlphabet(bytes[0] / 16);
      UpperHexDigitAlphabet(bytes[0] % 16);
      var head := ['%', UpperHexDigit(bytes[0] / 16), UpperHexDigit(bytes[0] % 16)];
      AlphabetAppend(head, PercentEncoded(bytes[1..]));
    }
  }

  lemma {:induction false} QuoteAlphabet(s: string)
    ensures QuotedAlphabet(Quote(s))
    decreases |s|
  {
    if s != [] {
      QuoteAlphabet(s[1..]);
      if !Safe(s[0]) {
        PercentEncodedAlphabet(Utf8(s[0]));
      }
      AlphabetAppend(QuoteChar(s[0]), Quote(s[1..]));
    }
  }

  lemma UnquoteByte(b: nat, tail: string)
    requires IsByte(b)
    ensures UnquoteToBytes(['%', UpperHexDigit(b / 16), UpperHexDigit(b % 16)] + tail) == [b] + UnquoteToBytes(tail)
  {
    var hi, lo := UpperHexDigit(b / 16), UpperHexDigit(b % 16);
    UpperHexDigitValue(b / 16);
    UpperHexDigitValue(b % 16);
    var s := ['%', hi, lo] + tail;
    assert s[0] == '%' && s[1] == hi && s[2] == lo && s[3..] == tail;
  }

  lemma {:induction false} UnquotePercentEncoded(bytes: seq<nat>, rest: string)
    requires forall i :: 0 <= i < |bytes| ==> IsByte(bytes[i])
    ensures UnquoteToBytes(PercentEncoded(bytes) + rest) == bytes + UnquoteToBytes(rest)
    decreases |bytes|
  {
    if bytes == [] {
      assert PercentEncoded(bytes) + rest == rest;
    } else {
      var b := bytes[0];
      assert IsByte(b);
      var head := ['%', UpperHexDigit(b / 16), UpperHexDigit(b % 16)];
      var more := PercentEncoded(bytes[1..]);
      var tail := more + rest;
      assert PercentEncoded(bytes) == head + more;
      AppendAssoc(head, more, rest);
      UnquoteByte(b, tail);
      UnquotePercentEncoded(bytes[1..], rest);
      AppendAssoc([b], bytes[1..], UnquoteToBytes(rest));
      assert [b] + bytes[1..] == bytes;
    }
  }

  lemma UnquoteQuoteChar(c: char, rest: string)
    ensures UnquoteToBytes(QuoteChar(c) + rest) == Utf8(c) + UnquoteToBytes(rest)
  {
    if Safe(c) {
      var s := QuoteChar(c) + rest;
      assert s[0] == c && s[1..] == rest;
    } else {
      UnquotePercentEncoded(Utf8(c), rest);
    }
  }

  /** Unquoting a quoted name gives back the name's UTF-8 bytes. */
  lemma {:induction false} UnquoteQuote(s: string)
    ensures UnquoteToBytes(Quote(s)) == Bytes(s)
    decreases |s|
  {
    if s != [] {
      UnquoteQuote(s[1..]);
      UnquoteQuoteChar(s[0], Quote(s[1..]));
    }
  }
}
