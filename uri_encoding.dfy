/**
 * Percent-encoding as the signer uses it: JavaScript's `encodeURIComponent`,
 * the global `String.prototype.replace(/c/g, ...)` calls that follow it, and
 * the RFC 3986 encoding (section 2.1 with the unreserved set of section 2.3)
 * that the two produce together.
 *
 * Characters are Unicode scalar values, so every character has a UTF-8
 * encoding (RFC 3629, section 3).
 */
module UriEncoding {

  type Byte = b: int | 0 <= b < 256

  /** The UTF-8 bytes of one character. */
  function Utf8(c: char): (r: seq<Byte>)
    ensures 1 <= |r| <= 4
    ensures |r| == 1 <==> (c as int) < 0x80
    ensures |r| == 1 ==> r[0] == c as int
  {
    var v := c as int;
    if v < 0x80 then [v]
    else if v < 0x800 then [0xC0 + v / 0x40, 0x80 + v % 0x40]
    else if v < 0x10000 then [0xE0 + v / 0x1000, 0x80 + (v / 0x40) % 0x40, 0x80 + v % 0x40]
    else [0xF0 + v / 0x40000, 0x80 + (v / 0x1000) % 0x40, 0x80 + (v / 0x40) % 0x40, 0x80 + v % 0x40]
  }

  /** Upper-case hexadecimal digit, as both encoders emit them. */
  function HexDigit(n: int): char
    requires 0 <= n < 16
  {
    "0123456789ABCDEF"[n]
  }

  predicate IsHexDigit(c: char)
  {
    '0' <= c <= '9' || 'A' <= c <= 'F'
  }

  /** `%XX` for one byte. */
  function PercentByte(b: Byte): string
  {
    ['%', HexDigit(b / 16), HexDigit(b % 16)]
  }

  function PercentEncoded(bytes: seq<Byte>): (r: string)
    ensures |r| == 3 * |bytes|
    ensures forall i :: 0 <= i < |r| ==> r[i] == '%' || IsHexDigit(r[i])
  {
    if bytes == [] then "" else PercentByte(bytes[0]) + PercentEncoded(bytes[1..])
  }

  predicate IsAlphaNumeric(c: char)
  {
    'A' <= c <= 'Z' || 'a' <= c <= 'z' || '0' <= c <= '9'
  }

  /** The unreserved characters of RFC 3986, section 2.3. */
  predicate IsUnreserved(c: char)
  {
    IsAlphaNumeric(c) || c == '-' || c == '.' || c == '_' || c == '~'
  }

  /**
   * The five characters that `encodeURIComponent` leaves literal although
   * they are sub-delimiters in RFC 3986, section 2.2.
   */
  predicate IsMark(c: char)
  {
    c == '!' || c == '\'' || c == '*' || c == '(' || c == ')'
  }

  /** The characters `encodeURIComponent` keeps as they are. */
  predicate IsUriComponentLiteral(c: char)
  {
    IsUnreserved(c) || IsMark(c)
  }

  function EncodeUriComponentChar(c: char): string
  {
    if IsUriComponentLiteral(c) then [c] else PercentEncoded(Utf8(c))
  }

  /** JavaScript's `encodeURIComponent`. */
  function EncodeUriComponent(s: string): (r: string)
    ensures forall i :: 0 <= i < |r| ==> IsUriComponentLiteral(r[i]) || r[i] == '%'
  {
    if s == [] then "" else EncodeUriComponentChar(s[0]) + EncodeUriComponent(s[1..])
  }

  function PercentEncodeChar(c: char): string
  {
    if IsUnreserved(c) then [c] else PercentEncoded(Utf8(c))
  }

  /** RFC 3986 percent-encoding: only the unreserved set stays literal. */
  function Rfc3986Encode(s: string): (r: string)
    ensures forall i :: 0 <= i < |r| ==> IsUnreserved(r[i]) || r[i] == '%'
  {
    if s == [] then "" else PercentEncodeChar(s[0]) + Rfc3986Encode(s[1..])
  }

  /** `s.replace(/target/g, replacement)` for a one-character pattern. */
  function ReplaceAll(s: string, target: char, replacement: string): string
  {
    if s == [] then ""
    else (if s[0] == target then replacement else [s[0]]) + ReplaceAll(s[1..], target, replacement)
  }

  /** The five replacements the signer applies to the string to sign, in its order. */
  function EscapeMarks(s: string): string
  {
    var s1 := ReplaceAll(s, '!', "%21");
    var s2 := ReplaceAll(s1, '\'', "%27");
    var s3 := ReplaceAll(s2, '*', "%2A");
    var s4 := ReplaceAll(s3, '(', "%28");
    ReplaceAll(s4, ')', "%29")
  }

  /** What one character becomes in a single left-to-right pass. */
  function EscapeMarkChar(c: char): string
  {
    match c
    case '!' => "%21"
    case '\'' => "%27"
    case '*' => "%2A"
    case '(' => "%28"
    case ')' => "%29"
    case _ => [c]
  }

  /** The one-pass reference for the five replacements. */
  function EscapeMarksOnePass(s: string): string
  {
    if s == [] then "" else EscapeMarkChar(s[0]) + EscapeMarksOnePass(s[1..])
  }

  lemma {:induction false} ReplaceAllAppend(a: string, b: string, target: char, replacement: string)
    ensures ReplaceAll(a + b, target, replacement)
         == ReplaceAll(a, target, replacement) + ReplaceAll(b, target, replacement)
  {
    if a == [] {
      assert a + b == b;
    } else {
      assert (a + b)[1..] == a[1..] + b;
      ReplaceAllAppend(a[1..], b, target, replacement);
    }
  }

  lemma {:induction false} ReplaceAllAbsent(s: string, target: char, replacement: string)
    requires forall i :: 0 <= i < |s| ==> s[i] != target
    ensures ReplaceAll(s, target, replacement) == s
  {
    if s != [] {
      ReplaceAllAbsent(s[1..], target, replacement);
    }
  }

  lemma ReplaceAllSingle(c: char, target: char, replacement: string)
    ensures ReplaceAll([c], target, replacement) == if c == target then replacement else [c]
  {
    assert [c][1..] == [];
  }

  /** The five replacements distribute over concatenation. */
  lemma EscapeMarksAppend(a: string, b: string)
    ensures EscapeMarks(a + b) == EscapeMarks(a) + EscapeMarks(b)
  {
    ReplaceAllAppend(a, b, '!', "%21");
    var a1, b1 := ReplaceAll(a, '!', "%21"), ReplaceAll(b, '!', "%21");
    ReplaceAllAppend(a1, b1, '\'', "%27");
    var a2, b2 := ReplaceAll(a1, '\'', "%27"), ReplaceAll(b1, '\'', "%27");
    ReplaceAllAppend(a2, b2, '*', "%2A");
    var a3, b3 := ReplaceAll(a2, '*', "%2A"), ReplaceAll(b2, '*', "%2A");
    ReplaceAllAppend(a3, b3, '(', "%28");
    var a4, b4 := ReplaceAll(a3, '(', "%28"), ReplaceAll(b3, '(', "%28");
    ReplaceAllAppend(a4, b4, ')', "%29");
  }

  /** On a string without any of the five characters the replacements change nothing. */
  lemma EscapeMarksIdentity(s: string)
    requires forall i :: 0 <= i < |s| ==> !IsMark(s[i])
    ensures EscapeMarks(s) == s
  {
    ReplaceAllAbsent(s, '!', "%21");
    ReplaceAllAbsent(s, '\'', "%27");
    ReplaceAllAbsent(s, '*', "%2A");
    ReplaceAllAbsent(s, '(', "%28");
    ReplaceAllAbsent(s, ')', "%29");
  }

  /** A `%XX` form is left alone by a replacement of a mark. */
  lemma ReplaceKeepsPercentForm(t: string, target: char, replacement: string)
    requires IsMark(target)
    requires forall i :: 0 <= i < |t| ==> t[i] == '%' || IsHexDigit(t[i])
    ensures ReplaceAll(t, target, replacement) == t
  {
    ReplaceAllAbsent(t, target, replacement);
  }

  /** Each mark becomes its own `%XX` form; every other character stays. */
  lemma EscapeMarksChar(c: char)
    ensures EscapeMarks([c]) == EscapeMarkChar(c)
  {
    ReplaceAllSingle(c, '!', "%21");
    ReplaceAllSingle(c, '\'', "%27");
    ReplaceAllSingle(c, '*', "%2A");
    ReplaceAllSingle(c, '(', "%28");
    ReplaceAllSingle(c, ')', "%29");
    var t := EscapeMarkChar(c);
    if IsMark(c) {
      ReplaceKeepsPercentForm(t, '\'', "%27");
      ReplaceKeepsPercentForm(t, '*', "%2A");
      ReplaceKeepsPercentForm(t, '(', "%28");
      ReplaceKeepsPercentForm(t, ')', "%29");
    }
  }

  /** A mark's `%XX` form is the percent-encoding of its one UTF-8 byte. */
  lemma MarkIsPercentEncoded(c: char)
    requires IsMark(c)
    ensures EscapeMarkChar(c) == PercentEncoded(Utf8(c))
  {
    var b := c as int;
    assert Utf8(c) == [b];
    assert PercentEncoded([b]) == PercentByte(b) + PercentEncoded([]);
  }

  /** The five global replacements, applied one after another, act as one pass. */
  lemma {:induction false} EscapeMarksIsOnePass(s: string)
    ensures EscapeMarks(s) == EscapeMarksOnePass(s)
  {
    if s != [] {
      assert s == [s[0]] + s[1..];
      EscapeMarksAppend([s[0]], s[1..]);
      EscapeMarksChar(s[0]);
      EscapeMarksIsOnePass(s[1..]);
    }
  }

  /** No `!`, `'`, `*`, `(` or `)` survives the replacements. */
  lemma {:induction false} EscapeMarksRemovesMarks(s: string)
    ensures forall i :: 0 <= i < |EscapeMarks(s)| ==> !IsMark(EscapeMarks(s)[i])
  {
    EscapeMarksIsOnePass(s);
    OnePassHasNoMarks(s);
  }

  lemma {:induction false} OnePassHasNoMarks(s: string)
    ensures forall i :: 0 <= i < |EscapeMarksOnePass(s)| ==> !IsMark(EscapeMarksOnePass(s)[i])
  {
    if s != [] {
      OnePassHasNoMarks(s[1..]);
      var head, tail := EscapeMarkChar(s[0]), EscapeMarksOnePass(s[1..]);
      assert EscapeMarksOnePass(s) == head + tail;
      forall i | 0 <= i < |head + tail| ensures !IsMark((head + tail)[i]) {
        if i >= |head| {
          assert (head + tail)[i] == tail[i - |head|];
        }
      }
    }
  }

  /** `encodeURIComponent` followed by the five replacements is RFC 3986 encoding. */
  lemma {:induction false} EscapedComponentIsRfc3986(s: string)
    ensures EscapeMarks(EncodeUriComponent(s)) == Rfc3986Encode(s)
  {
    if s != [] {
      var c := s[0];
      EscapeMarksAppend(EncodeUriComponentChar(c), EncodeUriComponent(s[1..]));
      EscapedComponentIsRfc3986(s[1..]);
      if IsUriComponentLiteral(c) {
        EscapeMarksChar(c);
        if IsMark(c) {
          MarkIsPercentEncoded(c);
        }
      } else {
        EscapeMarksIdentity(PercentEncoded(Utf8(c)));
      }
    }
  }
}
