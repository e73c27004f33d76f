/**
 * Percent-encoding as the source's browser runtime performs it:
 * `encodeURIComponent` (ECMAScript) and the application/x-www-form-urlencoded
 * serializer behind `URLSearchParams.prototype.toString` (WHATWG URL
 * Standard, section 5.2). Both encode the UTF-8 bytes (RFC 3629) of every
 * character outside their own keep-set; they differ in the keep-set and in
 * how a space is written. The decoding side (percent-decode, then UTF-8
 * decode) is the round-trip partner.
 */
module Uri {
  import opened Wrappers
  import opened Text

  type Byte = b: int | 0 <= b < 256

  /** A UTF-8 continuation byte (10xxxxxx). */
  predicate IsContinuation(b: Byte) { 0x80 <= b < 0xC0 }

  /** The UTF-8 encoding of one Unicode scalar value (RFC 3629, section 3). */
  function Utf8(c: char): (bs: seq<Byte>)
    ensures 1 <= |bs| <= 4
    ensures (c as int < 0x80) <==> |bs| == 1
    ensures forall k :: 1 <= k < |bs| ==> IsContinuation(bs[k])
  {
    var cp := c as int;
    if cp < 0x80 then [cp]
    else if cp < 0x800 then [0xC0 + cp / 64, 0x80 + cp % 64]
    else if cp < 0x10000 then [0xE0 + cp / 4096, 0x80 + (cp / 64) % 64, 0x80 + cp % 64]
    else [0xF0 + cp / 262144, 0x80 + (cp / 4096) % 64, 0x80 + (cp / 64) % 64, 0x80 + cp % 64]
  }

  /** The UTF-8 encoding of a string. */
  function Utf8String(s: string): seq<Byte>
  {
    if s == [] then [] else Utf8(s[0]) + Utf8String(s[1..])
  }

  /**
   * Decodes the first character of a byte sequence: the character and how
   * many bytes it took, or None on a malformed or truncated sequence.
   */
  function DecodeOne(bs: seq<Byte>): (r: Option<(char, nat)>)
    ensures r.Some? ==> 1 <= r.value.1 <= |bs|
  {
    if bs == [] then None
    else
      var b0 := bs[0] as int;
      if b0 < 0x80 then Some((b0 as char, 1))
      else if 0xC2 <= b0 < 0xE0 then
        if |bs| >= 2 && IsContinuation(bs[1]) then
          Some((((b0 - 0xC0) * 64 + (bs[1] as int - 0x80)) as char, 2))
        else None
      else if 0xE0 <= b0 < 0xF0 then
        if |bs| >= 3 && IsContinuation(bs[1]) && IsContinuation(bs[2]) then
          var cp := (b0 - 0xE0) * 4096 + (bs[1] as int - 0x80) * 64 + (bs[2] as int - 0x80);
          if 0x800 <= cp < 0xD800 || 0xE000 <= cp then Some((cp as char, 3)) else None
        else None
      else if 0xF0 <= b0 <= 0xF4 then
        if |bs| >= 4 && IsContinuation(bs[1]) && IsContinuation(bs[2]) && IsContinuation(bs[3]) then
          var cp := (b0 - 0xF0) * 262144 + (bs[1] as int - 0x80) * 4096 + (bs[2] as int - 0x80) * 64 + (bs[3] as int - 0x80);
          if 0x10000 <= cp < 0x110000 then Some((cp as char, 4)) else None
        else None
      else None
  }

  /** UTF-8 decoding of a whole byte sequence; None when it is malformed. */
  function Utf8Decode(bs: seq<Byte>): Option<string>
    decreases |bs|
  {
    if bs == [] then Some([])
    else
      match DecodeOne(bs)
      case None => None
      case Some(first) =>
        match Utf8Decode(bs[first.1..])
        case None => None
        case Some(rest) => Some([first.0] + rest)
  }

  /** Decoding the encoding of one character gives that character back, whatever follows. */
  lemma DecodeOneUtf8(c: char, rest: seq<Byte>)
    ensures DecodeOne(Utf8(c) + rest) == Some((c, |Utf8(c)|))
  {
    var cp := c as int;
    if cp < 0x80 {
      assert (Utf8(c) + rest)[0] == cp;
    } else if cp < 0x800 {
      DecodeTwoBytes(c, rest);
    } else if cp < 0x10000 {
      DecodeThreeBytes(c, rest);
    } else {
      DecodeFourBytes(c, rest);
    }
  }

  lemma DecodeTwoBytes(c: char, rest: seq<Byte>)
    requires 0x80 <= c as int < 0x800
    ensures DecodeOne(Utf8(c) + rest) == Some((c, 2))
  {
    var cp := c as int;
    var bs := Utf8(c) + rest;
    assert bs[0] == 0xC0 + cp / 64 && bs[1] == 0x80 + cp % 64;
    assert (cp / 64) * 64 + cp % 64 == cp;
  }

  lemma DecodeThreeBytes(c: char, rest: seq<Byte>)
    requires 0x800 <= c as int < 0x10000
    ensures DecodeOne(Utf8(c) + rest) == Some((c, 3))
  {
    var cp := c as int;
    var bs := Utf8(c) + rest;
    assert bs[0] == 0xE0 + cp / 4096 && bs[1] == 0x80 + (cp / 64) % 64 && bs[2] == 0x80 + cp % 64;
    assert ((cp / 64) / 64) * 64 + (cp / 64) % 64 == cp / 64;
    assert cp / 4096 == (cp / 64) / 64;
    assert (cp / 4096) * 4096 + ((cp / 64) % 64) * 64 + cp % 64 == cp;
  }

  lemma DecodeFourBytes(c: char, rest: seq<Byte>)
    requires 0x10000 <= c as int
    ensures DecodeOne(Utf8(c) + rest) == Some((c, 4))
  {
    var cp := c as int;
    var bs := Utf8(c) + rest;
    assert bs[0] == 0xF0 + cp / 262144 && bs[1] == 0x80 + (cp / 4096) % 64;
    assert bs[2] == 0x80 + (cp / 64) % 64 && bs[3] == 0x80 + cp % 64;
    assert ((cp / 4096) / 64) * 64 + (cp / 4096) % 64 == cp / 4096;
    assert ((cp / 64) / 64) * 64 + (cp / 64) % 64 == cp / 64;
    assert cp / 4096 == (cp / 64) / 64;
    assert cp / 262144 == (cp / 4096) / 64;
    assert (cp / 262144) * 262144 + ((cp / 4096) % 64) * 4096 + ((cp / 64) % 64) * 64 + cp % 64 == cp;
  }

  /** UTF-8 decoding undoes UTF-8 encoding. */
  lemma {:induction false} Utf8RoundTrip(s: string)
    ensures Utf8Decode(Utf8String(s)) == Some(s)
  {
    if s != [] {
      var bs := Utf8String(s);
      DecodeOneUtf8(s[0], Utf8String(s[1..]));
      assert bs[|Utf8(s[0])|..] == Utf8String(s[1..]);
      Utf8RoundTrip(s[1..]);
      assert [s[0]] + s[1..] == s;
    }
  }

  /** An upper-case hexadecimal digit, as both encoders write them. */
  function HexDigit(d: nat): (c: char)
    requires d < 16
  {
    if d < 10 then DigitChar(d) else ('A' as int + d - 10) as char
  }

  predicate IsHex(c: char) { '0' <= c <= '9' || 'A' <= c <= 'F' || 'a' <= c <= 'f' }

  function HexValue(c: char): (d: nat)
    requires IsHex(c)
    ensures d < 16
  {
    if c <= '9' then (c as int) - ('0' as int)
    else if c <= 'F' then (c as int) - ('A' as int) + 10
    else (c as int) - ('a' as int) + 10
  }

  lemma HexRoundTrip(d: nat)
    requires d < 16
    ensures IsHex(HexDigit(d)) && HexValue(HexDigit(d)) == d
  {
  }

  /** `%XY` for one byte. */
  function PercentByte(b: Byte): string
  {
    ['%', HexDigit(b / 16), HexDigit(b % 16)]
  }

  /** `%XY` for each byte in turn. */
  function PercentBytes(bs: seq<Byte>): string
  {
    if bs == [] then [] else PercentByte(bs[0]) + PercentBytes(bs[1..])
  }

  /** Characters that `encodeURIComponent` leaves as they are: ALPHA, DIGIT and - _ . ! ~ * ' ( ) */
  predicate IsUriUnreserved(c: char)
  {
    || 'A' <= c <= 'Z' || 'a' <= c <= 'z' || '0' <= c <= '9'
    || c == '-' || c == '_' || c == '.' || c == '!' || c == '~' || c == '*' || c == '\'' || c == '(' || c == ')'
  }

  /** Characters the form serializer leaves as they are: ALPHA, DIGIT and * - . _ */
  predicate IsFormSafe(c: char)
  {
    'A' <= c <= 'Z' || 'a' <= c <= 'z' || '0' <= c <= '9' || c == '*' || c == '-' || c == '.' || c == '_'
  }

  /** Every character of `s` is in `encodeURIComponent`'s output alphabet. */
  predicate UriComponentAlphabet(s: string)
  {
    forall k :: 0 <= k < |s| ==> IsUriUnreserved(s[k]) || s[k] == '%'
  }

  /** What `encodeURIComponent`'s output never holds: query delimiters, '+', '/' and spaces. */
  lemma AlphabetExcludesDelimiters(s: string)
    requires UriComponentAlphabet(s)
    ensures '&' !in s && '=' !in s && '?' !in s && '#' !in s && '+' !in s && '/' !in s && ' ' !in s
  {
    forall k | 0 <= k < |s| ensures s[k] != '&' && s[k] != '=' && s[k] != '?' && s[k] != '#' {
      assert IsUriUnreserved(s[k]) || s[k] == '%';
    }
  }

  lemma PercentBytesAlphabet(bs: seq<Byte>)
    ensures UriComponentAlphabet(PercentBytes(bs))
  {
  }

  /** `encodeURIComponent`. */
  function EncodeUriComponent(s: string): (r: string)
    ensures UriComponentAlphabet(r)
    ensures |r| >= |s|
  {
    if s == [] then []
    else
      var head := if IsUriUnreserved(s[0]) then [s[0]] else PercentBytes(Utf8(s[0]));
      PercentBytesAlphabet(Utf8(s[0]));
      head + EncodeUriComponent(s[1..])
  }

  /** One character as the form serializer writes it. */
  function FormEncodeChar(c: char): string
  {
    if c == ' ' then "+" else if IsFormSafe(c) then [c] else PercentBytes(Utf8(c))
  }

  /** Every character of `s` is one the form serializer can write. */
  predicate FormAlphabet(s: string)
  {
    forall k :: 0 <= k < |s| ==> IsFormSafe(s[k]) || s[k] == '%' || s[k] == '+'
  }

  lemma {:induction false} PercentBytesFormAlphabet(bs: seq<Byte>)
    ensures FormAlphabet(PercentBytes(bs))
  {
    if bs != [] {
      PercentBytesFormAlphabet(bs[1..]);
    }
  }

  /** The application/x-www-form-urlencoded byte serializer applied to a string. */
  function FormEncode(s: string): (r: string)
    ensures FormAlphabet(r)
    ensures (forall k :: 0 <= k < |s| ==> IsFormSafe(s[k])) ==> r == s
  {
    if s == [] then []
    else
      PercentBytesFormAlphabet(Utf8(s[0]));
      FormEncodeChar(s[0]) + FormEncode(s[1..])
  }

  /** The serializer's output never holds the pair and name/value separators. */
  lemma FormAlphabetExcludesSeparators(s: string)
    requires FormAlphabet(s)
    ensures '&' !in s && '=' !in s
  {
    forall k | 0 <= k < |s| ensures s[k] != '&' && s[k] != '=' {
      assert IsFormSafe(s[k]) || s[k] == '%' || s[k] == '+';
    }
  }

  /**
   * Percent-decoding of a query-string name or value, '+' read as a space:
   * `%XY` gives the byte XY, every other character its UTF-8 bytes.
   */
  function PercentDecodeBytes(s: string): seq<Byte>
  {
    if s == [] then []
    else if s[0] == '%' && |s| >= 3 && IsHex(s[1]) && IsHex(s[2]) then
      [HexValue(s[1]) * 16 + HexValue(s[2])] + PercentDecodeBytes(s[3..])
    else if s[0] == '+' then [0x20] + PercentDecodeBytes(s[1..])
    else Utf8(s[0]) + PercentDecodeBytes(s[1..])
  }

  /** How `URLSearchParams` reads a name or a value back. */
  function FormDecode(s: string): Option<string>
  {
    Utf8Decode(PercentDecodeBytes(s))
  }

  /** `%XY` reads back as the byte XY, whatever follows. */
  lemma DecodePercentByte(b: Byte, rest: string)
    ensures PercentDecodeBytes(PercentByte(b) + rest) == [b] + PercentDecodeBytes(rest)
  {
    HexRoundTrip(b / 16);
    HexRoundTrip(b % 16);
    var t := PercentByte(b) + rest;
    assert t[0] == '%' && t[1] == HexDigit(b / 16) && t[2] == HexDigit(b % 16);
    assert t[3..] == rest;
  }

  lemma {:induction false} DecodePercentBytes(bs: seq<Byte>, rest: string)
    ensures PercentDecodeBytes(PercentBytes(bs) + rest) == bs + PercentDecodeBytes(rest)
  {
    if bs == [] {
      assert PercentBytes(bs) + rest == rest;
    } else {
      var b := bs[0];
      assert PercentBytes(bs) + rest == PercentByte(b) + (PercentBytes(bs[1..]) + rest);
      DecodePercentByte(b, PercentBytes(bs[1..]) + rest);
      DecodePercentBytes(bs[1..], rest);
      assert bs == [b] + bs[1..];
    }
  }

  lemma {:induction false} DecodeEncodedBytes(s: string)
    ensures PercentDecodeBytes(EncodeUriComponent(s)) == Utf8String(s)
  {
    if s != [] {
      var c := s[0];
      var tail := EncodeUriComponent(s[1..]);
      DecodeEncodedBytes(s[1..]);
      if IsUriUnreserved(c) {
        assert EncodeUriComponent(s) == [c] + tail;
        assert ([c] + tail)[1..] == tail;
      } else {
        DecodePercentBytes(Utf8(c), tail);
      }
    }
  }

  /** Decoding undoes `encodeURIComponent`: the value a reader of the query sees is the one encoded. */
  lemma UriComponentRoundTrip(s: string)
    ensures FormDecode(EncodeUriComponent(s)) == Some(s)
  {
    DecodeEncodedBytes(s);
    Utf8RoundTrip(s);
  }

  lemma {:induction false} DecodeFormEncodedBytes(s: string)
    ensures PercentDecodeBytes(FormEncode(s)) == Utf8String(s)
  {
    if s != [] {
      var c := s[0];
      var tail := FormEncode(s[1..]);
      DecodeFormEncodedBytes(s[1..]);
      if c == ' ' || IsFormSafe(c) {
        assert FormEncode(s) == [FormEncodeChar(c)[0]] + tail;
        assert ([FormEncodeChar(c)[0]] + tail)[1..] == tail;
      } else {
        DecodePercentBytes(Utf8(c), tail);
      }
    }
  }

  /** Decoding undoes the form serializer. */
  lemma FormRoundTrip(s: string)
    ensures FormDecode(FormEncode(s)) == Some(s)
  {
    DecodeFormEncodedBytes(s);
    Utf8RoundTrip(s);
  }

  /** `s` cut at every occurrence of `sep` (`String.prototype.split` with a one-character separator). */
  function Split(s: string, sep: char): (parts: seq<string>)
    ensures |parts| == Count(sep, s) + 1
  {
    if s == [] then [[]]
    else
      var rest := Split(s[1..], sep);
      if s[0] == sep then [[]] + rest else [[s[0]] + rest[0]] + rest[1..]
  }

  /** Splitting a string that does not contain the separator gives it back whole. */
  lemma SplitNone(s: string, sep: char)
    requires sep !in s
    ensures Split(s, sep) == [s]
  {
    if s != [] {
      SplitNone(s[1..], sep);
      assert [s[0]] + s[1..] == s;
    }
  }

  /** Two separator-free pieces joined by the separator split back into those two pieces. */
  lemma SplitTwo(first: string, sep: char, second: string)
    requires sep !in first && sep !in second
    ensures Split(first + [sep] + second, sep) == [first, second]
  {
    SplitAt(first, sep, second);
    SplitNone(second, sep);
  }

  /** Splitting `a + [sep] + b` where `a` does not contain the separator. */
  lemma {:induction false} SplitAt(a: string, sep: char, b: string)
    requires sep !in a
    ensures Split(a + [sep] + b, sep) == [a] + Split(b, sep)
  {
    if a == [] {
      assert a + [sep] + b == [sep] + b;
      assert ([sep] + b)[1..] == b;
    } else {
      var s := a + [sep] + b;
      assert s[0] == a[0] && s[1..] == a[1..] + [sep] + b;
      SplitAt(a[1..], sep, b);
      var rest := Split(s[1..], sep);
      assert rest[0] == a[1..] && rest[1..] == Split(b, sep);
      assert [a[0]] + a[1..] == a;
    }
  }

  // ---------------------------------------------------------------------------
  // Query strings as `URLSearchParams` writes and reads them.
  // ---------------------------------------------------------------------------

  /** `name=value` with both halves form-encoded. */
  function EncodePair(p: (string, string)): string
  {
    FormEncode(p.0) + "=" + FormEncode(p.1)
  }

  /** `URLSearchParams.prototype.toString`: the encoded pairs joined by '&'. */
  function Serialize(ps: seq<(string, string)>): string
  {
    if ps == [] then ""
    else if |ps| == 1 then EncodePair(ps[0])
    else EncodePair(ps[0]) + "&" + Serialize(ps[1..])
  }

  /** One `name=value` piece read back: cut at the first '=', a piece without one has an empty value. */
  function DecodePair(piece: string): Option<(string, string)>
  {
    var i := FirstIndex(piece, '=');
    var name := if i < 0 then piece else piece[..i];
    var value := if i < 0 then "" else piece[i + 1..];
    var n := FormDecode(name);
    var v := FormDecode(value);
    if n.Some? && v.Some? then Some((n.value, v.value)) else None
  }

  function DecodePairs(pieces: seq<string>): Option<seq<(string, string)>>
  {
    if pieces == [] then Some([])
    else
      var head := DecodePair(pieces[0]);
      var tail := DecodePairs(pieces[1..]);
      if head.Some? && tail.Some? then Some([head.value] + tail.value) else None
  }

  /** A query of one piece reads as that piece's pair. */
  lemma DecodeOnePiece(piece: string)
    ensures DecodePairs([piece]) == if DecodePair(piece).Some? then Some([DecodePair(piece).value]) else None
  {
    var ps := [piece];
    var none: seq<string> := [];
    assert ps[0] == piece && ps[1..] == none;
    assert DecodePairs(none) == Some([]);
    if DecodePair(piece).Some? {
      assert [DecodePair(piece).value] + [] == [DecodePair(piece).value];
    }
  }

  /**
   * Reading a query string back into its pairs; the empty string has none.
   * Unlike `URLSearchParams`, an empty piece between two `&` is not skipped
   * here. No query this model reads back has one: every query it parses is
   * written by `Serialize`, whose pieces are never empty.
   */
  function ParseQuery(q: string): Option<seq<(string, string)>>
  {
    if q == "" then Some([]) else DecodePairs(Split(q, '&'))
  }

  lemma DecodeEncodedPair(p: (string, string))
    ensures '&' !in EncodePair(p)
    ensures DecodePair(EncodePair(p)) == Some(p)
  {
    var a := FormEncode(p.0);
    var b := FormEncode(p.1);
    FormAlphabetExcludesSeparators(a);
    FormAlphabetExcludesSeparators(b);
    assert EncodePair(p) == a + ['='] + b;
    FirstIndexAt(a, '=', b);
    assert (a + ['='] + b)[..|a|] == a;
    assert (a + ['='] + b)[|a| + 1..] == b;
    FormRoundTrip(p.0);
    FormRoundTrip(p.1);
  }

  function EncodedPairs(ps: seq<(string, string)>): (pieces: seq<string>)
    ensures |pieces| == |ps|
  {
    if ps == [] then [] else [EncodePair(ps[0])] + EncodedPairs(ps[1..])
  }

  lemma {:induction false} SplitSerialized(ps: seq<(string, string)>)
    requires ps != []
    ensures Split(Serialize(ps), '&') == EncodedPairs(ps)
  {
    DecodeEncodedPair(ps[0]);
    if |ps| == 1 {
      SplitNone(EncodePair(ps[0]), '&');
    } else {
      SplitAt(EncodePair(ps[0]), '&', Serialize(ps[1..]));
      SplitSerialized(ps[1..]);
    }
  }

  lemma {:induction false} DecodeEncodedPairs(ps: seq<(string, string)>)
    ensures DecodePairs(EncodedPairs(ps)) == Some(ps)
  {
    if ps != [] {
      DecodeEncodedPair(ps[0]);
      DecodeEncodedPairs(ps[1..]);
      assert EncodedPairs(ps)[1..] == EncodedPairs(ps[1..]);
      assert [ps[0]] + ps[1..] == ps;
    }
  }

  /** Every serialized query reads back as the same pairs, in the same order. */
  lemma QueryRoundTrip(ps: seq<(string, string)>)
    ensures ParseQuery(Serialize(ps)) == Some(ps)
  {
    if ps != [] {
      DecodeEncodedPair(ps[0]);
      assert EncodePair(ps[0]) != "";
      SplitSerialized(ps);
      DecodeEncodedPairs(ps);
    }
  }

  /** A `URLSearchParams` object: its pairs in the order they were appended. */
  class SearchParams {
    var pairs: seq<(string, string)>

    constructor ()
      ensures pairs == []
    {
      pairs := [];
    }

    method Append(name: string, value: string)
      modifies this
      ensures pairs == old(pairs) + [(name, value)]
    {
      pairs := pairs + [(name, value)];
    }

    function ToString(): (q: string)
      reads this
      ensures ParseQuery(q) == Some(pairs)
    {
      QueryRoundTrip(pairs);
      Serialize(pairs)
    }
  }
}
