/**
  `decodeURIComponent`, which the entry handlers apply to the captured key
  segment (node/movies-service.js:176 and :200), following the Decode
  operation of ECMA-262 with an empty reserved set: every `%HH` escape is
  decoded, a run of escapes forms one UTF-8 sequence, and anything
  malformed throws a URIError, modelled here as `None`.

  Strings are sequences of Unicode scalar values; a decoded code point
  above U+FFFF is one character here where JavaScript holds two UTF-16
  code units.

  `Encode` models `encodeURIComponent`, used only as the inverse that the
  round-trip lemma pairs with `Decode`.
 */
module UriComponent {
  import opened Wrappers

  /** The value of one `%HH` escape. */
  type Byte = b: int | 0 <= b < 256

  function HexValue(c: char): (r: Option<int>)
    ensures r.Some? ==> 0 <= r.value < 16
  {
    if '0' <= c <= '9' then Some(c as int - '0' as int)
    else if 'a' <= c <= 'f' then Some(c as int - 'a' as int + 10)
    else if 'A' <= c <= 'F' then Some(c as int - 'A' as int + 10)
    else None
  }

  predicate IsHexDigit(c: char) {
    HexValue(c).Some?
  }

  /** The byte of a `%HH` escape at the very start of `s`. */
  function EscapedByte(s: string): (r: Option<Byte>)
    ensures r.Some? <==> |s| >= 3 && s[0] == '%' && IsHexDigit(s[1]) && IsHexDigit(s[2])
  {
    if |s| >= 3 && s[0] == '%' then
      match (HexValue(s[1]), HexValue(s[2]))
      case (Some(hi), Some(lo)) => Some(hi * 16 + lo)
      case _ => None
    else None
  }

  /** The bytes of `n` consecutive escapes at the start of `s`. */
  function ReadEscapes(s: string, n: nat): (r: Option<seq<Byte>>)
    ensures r.Some? ==> |r.value| == n && 3 * n <= |s|
  {
    if n == 0 then Some([])
    else
      match EscapedByte(s)
      case None => None
      case Some(b) =>
        match ReadEscapes(s[3..], n - 1)
        case None => None
        case Some(bs) => Some([b] + bs)
  }

  /**
    The length of the UTF-8 sequence a lead byte opens, or 0 when the byte
    cannot open one (a continuation byte, or more than four leading ones).
   */
  function SequenceLength(b: Byte): (r: nat) {
    if b < 0x80 then 1
    else if b < 0xC0 then 0
    else if b < 0xE0 then 2
    else if b < 0xF0 then 3
    else if b < 0xF8 then 4
    else 0
  }

  predicate IsContinuation(b: Byte) {
    0x80 <= b < 0xC0
  }

  /** The six payload bits of a continuation byte. */
  function Payload(b: Byte): (r: int) {
    b - 0x80
  }

  /**
    The character a UTF-8 sequence encodes, or `None` when it is not a valid
    encoding: a bad continuation byte, an overlong form, a surrogate, or a
    code point beyond U+10FFFF.
   */
  function DecodeSequence(bs: seq<Byte>): (r: Option<char>)
    requires 1 <= |bs| <= 4
  {
    var lead: int := bs[0];
    if |bs| == 1 then
      if lead < 0x80 then Some(lead as char) else None
    else if !(forall i | 1 <= i < |bs| :: IsContinuation(bs[i])) then None
    else if |bs| == 2 then
      var cp := (lead - 0xC0) * 64 + Payload(bs[1]);
      if 0xC0 <= lead < 0xE0 && 0x80 <= cp then Some(cp as char) else None
    else if |bs| == 3 then
      var cp := (lead - 0xE0) * 4096 + Payload(bs[1]) * 64 + Payload(bs[2]);
      if 0xE0 <= lead < 0xF0 && 0x800 <= cp && !(0xD800 <= cp < 0xE000) then Some(cp as char) else None
    else
      var cp := (lead - 0xF0) * 262144 + Payload(bs[1]) * 4096 + Payload(bs[2]) * 64 + Payload(bs[3]);
      if 0xF0 <= lead < 0xF8 && 0x10000 <= cp < 0x110000 then Some(cp as char) else None
  }

  /** `decodeURIComponent`: `None` where JavaScript throws a URIError. */
  function Decode(s: string): (r: Option<string>)
    ensures '%' !in s ==> r == Some(s)
    ensures r.Some? ==> |r.value| <= |s|
    decreases |s|
  {
    if s == [] then Some([])
    else if s[0] != '%' then
      assert s == [s[0]] + s[1..];
      match Decode(s[1..])
      case None => None
      case Some(t) => Some([s[0]] + t)
    else
      match EscapedByte(s)
      case None => None
      case Some(b) =>
        var n := SequenceLength(b);
        if n == 0 then None
        else
          match ReadEscapes(s, n)
          case None => None
          case Some(bs) =>
            match DecodeSequence(bs)
            case None => None
            case Some(c) =>
              match Decode(s[3 * n..])
              case None => None
              case Some(t) => Some([c] + t)
  }

  /** The characters `encodeURIComponent` leaves as they are. */
  predicate IsUnreserved(c: char) {
    || 'a' <= c <= 'z' || 'A' <= c <= 'Z' || '0' <= c <= '9'
    || c in "-_.!~*'()"
  }

  function HexDigit(n: int): (r: char)
    requires 0 <= n < 16
  {
    if n < 10 then ('0' as int + n) as char else ('A' as int + n - 10) as char
  }

  function EscapeByte(b: Byte): (r: string) {
    ['%', HexDigit(b / 16), HexDigit(b % 16)]
  }

  function EscapeAll(bs: seq<Byte>): (r: string) {
    if bs == [] then [] else EscapeByte(bs[0]) + EscapeAll(bs[1..])
  }

  /** The UTF-8 encoding of one character. */
  function Utf8(c: char): (r: seq<Byte>) {
    var cp := c as int;
    if cp < 0x80 then [cp]
    else if cp < 0x800 then [0xC0 + cp / 64, 0x80 + cp % 64]
    else if cp < 0x10000 then
      var x := cp % 4096;
      [0xE0 + cp / 4096, 0x80 + x / 64, 0x80 + x % 64]
    else
      var y := cp % 262144;
      var x := y % 4096;
      [0xF0 + cp / 262144, 0x80 + y / 4096, 0x80 + x / 64, 0x80 + x % 64]
  }

  function EncodeChar(c: char): (r: string) {
    if IsUnreserved(c) then [c] else EscapeAll(Utf8(c))
  }

  /** `encodeURIComponent`. */
  function Encode(s: string): (r: string) {
    if s == [] then [] else EncodeChar(s[0]) + Encode(s[1..])
  }

  lemma HexRoundTrip(n: int)
    requires 0 <= n < 16
    ensures HexValue(HexDigit(n)) == Some(n)
  {
  }

  lemma EscapedByteOfEscape(b: Byte, rest: string)
    ensures EscapedByte(EscapeByte(b) + rest) == Some(b)
  {
    HexRoundTrip(b / 16);
    HexRoundTrip(b % 16);
  }

  lemma {:induction false} EscapeAllLength(bs: seq<Byte>)
    ensures |EscapeAll(bs)| == 3 * |bs|
  {
    if bs != [] {
      EscapeAllLength(bs[1..]);
    }
  }

  lemma {:induction false} ReadEscapesOfEscapes(bs: seq<Byte>, rest: string)
    ensures |EscapeAll(bs)| == 3 * |bs|
    ensures ReadEscapes(EscapeAll(bs) + rest, |bs|) == Some(bs)
    ensures (EscapeAll(bs) + rest)[3 * |bs|..] == rest
  {
    EscapeAllLength(bs);
    if bs != [] {
      var tail := EscapeAll(bs[1..]) + rest;
      var s := EscapeAll(bs) + rest;
      ReadEscapesOfEscapes(bs[1..], rest);
      EscapedByteOfEscape(bs[0], tail);
      assert s == EscapeByte(bs[0]) + tail;
      assert s[3..] == tail;
      assert ReadEscapes(s, |bs|) == Some([bs[0]] + bs[1..]);
      assert [bs[0]] + bs[1..] == bs;
    }
  }

  /** UTF-8 encoding is a valid sequence that decodes back to the character. */
  lemma Utf8RoundTrip(c: char)
    ensures 1 <= |Utf8(c)| <= 4
    ensures SequenceLength(Utf8(c)[0]) == |Utf8(c)|
    ensures DecodeSequence(Utf8(c)) == Some(c)
  {
    var cp := c as int;
    if cp >= 0x10000 {
      var y := cp % 262144;
      var x := y % 4096;
      assert cp == 262144 * (cp / 262144) + y;
      assert y == 4096 * (y / 4096) + x;
      assert x == 64 * (x / 64) + x % 64;
    } else if cp >= 0x800 {
      var x := cp % 4096;
      assert cp == 4096 * (cp / 4096) + x;
      assert x == 64 * (x / 64) + x % 64;
    }
  }

  /** A run of escapes holding one valid UTF-8 sequence decodes to its character. */
  lemma DecodeEscapedSequence(bs: seq<Byte>, c: char, rest: string)
    requires 1 <= |bs| <= 4 && SequenceLength(bs[0]) == |bs|
    requires DecodeSequence(bs) == Some(c)
    ensures Decode(EscapeAll(bs) + rest) ==
      match Decode(rest) case None => None case Some(t) => Some([c] + t)
  {
    ReadEscapesOfEscapes(bs, rest);
    assert EscapeAll(bs) + rest == EscapeByte(bs[0]) + (EscapeAll(bs[1..]) + rest);
    EscapedByteOfEscape(bs[0], EscapeAll(bs[1..]) + rest);
  }

  /** A run of escapes whose bytes are not valid UTF-8 makes the decode fail. */
  lemma DecodeInvalidSequence(bs: seq<Byte>, rest: string)
    requires 1 <= |bs| <= 4 && SequenceLength(bs[0]) == |bs|
    requires DecodeSequence(bs).None?
    ensures Decode(EscapeAll(bs) + rest).None?
  {
    ReadEscapesOfEscapes(bs, rest);
    assert EscapeAll(bs) + rest == EscapeByte(bs[0]) + (EscapeAll(bs[1..]) + rest);
    EscapedByteOfEscape(bs[0], EscapeAll(bs[1..]) + rest);
  }

  lemma DecodeEncodedChar(c: char, rest: string)
    ensures Decode(EncodeChar(c) + rest) ==
      match Decode(rest) case None => None case Some(t) => Some([c] + t)
  {
    if IsUnreserved(c) {
      assert ([c] + rest)[1..] == rest;
    } else {
      Utf8RoundTrip(c);
      DecodeEscapedSequence(Utf8(c), c, rest);
    }
  }

  /** Decoding undoes encoding, for every string (the round trip of the two built-ins). */
  lemma {:induction false} DecodeEncode(s: string)
    ensures Decode(Encode(s)) == Some(s)
  {
    if s != [] {
      DecodeEncode(s[1..]);
      DecodeEncodedChar(s[0], Encode(s[1..]));
      assert [s[0]] + s[1..] == s;
    }
  }

  /** Encoding never produces a slash, so an encoded key is always one path segment. */
  lemma {:induction false} EncodeHasNoSlash(s: string)
    ensures '/' !in Encode(s)
    ensures s != [] ==> Encode(s) != []
  {
    if s != [] {
      EncodeHasNoSlash(s[1..]);
      EscapeAllHasNoSlash(Utf8(s[0]));
    }
  }

  lemma {:induction false} EscapeAllHasNoSlash(bs: seq<Byte>)
    ensures '/' !in EscapeAll(bs)
    ensures bs != [] ==> EscapeAll(bs) != []
  {
    if bs != [] {
      EscapeAllHasNoSlash(bs[1..]);
    }
  }

  /** Text made of unreserved characters only is its own encoding. */
  lemma {:induction false} EncodeUnreserved(s: string)
    requires forall i :: 0 <= i < |s| ==> IsUnreserved(s[i])
    ensures Encode(s) == s
  {
    if s != [] {
      EncodeUnreserved(s[1..]);
      assert [s[0]] + s[1..] == s;
    }
  }

  /** A `%` at position `i` of `s` that is not followed by two hex digits. */
  predicate BadEscapeAt(s: string, i: int) {
    && 0 <= i < |s| && s[i] == '%'
    && !(i + 2 < |s| && IsHexDigit(s[i + 1]) && IsHexDigit(s[i + 2]))
  }

  /**
    A run of escapes that reads cleanly holds no malformed `%`: every `%`
    in it opens a complete escape, and its other characters are hex digits.
   */
  lemma {:induction false} ReadEscapesBeforeBadEscape(s: string, n: nat, i: int)
    requires ReadEscapes(s, n).Some? && BadEscapeAt(s, i)
    ensures 3 * n <= i
  {
    if n > 0 {
      assert !IsHexDigit('%');
      assert BadEscapeAt(s[3..], i - 3);
      ReadEscapesBeforeBadEscape(s[3..], n - 1, i - 3);
    }
  }

  /**
    A `%` that is not followed by two hex digits makes the whole decode
    fail, wherever it stands: every `%` the decoder reaches opens a
    three-character escape, so the malformed one is reached unless the
    decode has already failed.
   */
  lemma {:induction false} DecodeRejectsBadEscape(s: string, i: int)
    requires BadEscapeAt(s, i)
    ensures Decode(s) == None
    decreases |s|
  {
    if s[0] != '%' {
      assert BadEscapeAt(s[1..], i - 1);
      DecodeRejectsBadEscape(s[1..], i - 1);
    } else if i > 0 {
      match EscapedByte(s)
      case None =>
      case Some(b) =>
        var n := SequenceLength(b);
        if n > 0 && ReadEscapes(s, n).Some? {
          ReadEscapesBeforeBadEscape(s, n, i);
          assert BadEscapeAt(s[3 * n..], i - 3 * n);
          DecodeRejectsBadEscape(s[3 * n..], i - 3 * n);
        }
    }
  }

  /** A malformed escape throws even after well-formed ones, or at the very end. */
  lemma LaterBadEscapeRejected()
    ensures Decode("%41%zz") == None
    ensures Decode("%C3%") == None
    ensures Decode("a%20b%") == None
  {
    DecodeRejectsBadEscape("%41%zz", 3);
    DecodeRejectsBadEscape("%C3%", 3);
    DecodeRejectsBadEscape("a%20b%", 5);
  }

  /** Invalid UTF-8 after escapes throws: a lone continuation byte, an overlong form, a surrogate. */
  lemma LoneContinuationRejected()
    ensures Decode("%80") == None
  {
    assert EscapedByte("%80") == Some(0x80);
  }

  lemma OverlongRejected()
    ensures Decode("%C0%80") == None
  {
    DecodeInvalidSequence([0xC0, 0x80], []);
    assert EscapeAll([0xC0, 0x80]) + [] == "%C0%80";
  }

  lemma SurrogateRejected()
    ensures Decode("%ED%A0%80") == None
  {
    DecodeInvalidSequence([0xED, 0xA0, 0x80], []);
    assert EscapeAll([0xED, 0xA0, 0x80]) + [] == "%ED%A0%80";
  }

  /** Well-formed escapes decode: an encoded space and a two-byte letter. */
  lemma EscapedSpaceDecoded()
    ensures Decode("a%20b") == Some("a b")
  {
    DecodeEncode("a b");
    assert EncodeChar(' ') == "%20" by {
      assert Utf8(' ') == [0x20];
      assert EscapeByte(0x20) == "%20";
    }
    assert Encode("b") == "b";
    assert Encode(" b") == "%20" + "b";
    assert Encode("a b") == "a" + "%20b";
  }

  lemma EscapedLetterDecoded()
    ensures Decode("%C3%A9") == Some("\U{E9}")
  {
    DecodeEncode("\U{E9}");
    assert Utf8('\U{E9}') == [0xC3, 0xA9];
    assert EscapeByte(0xC3) == "%C3" && EscapeByte(0xA9) == "%A9";
    assert EscapeAll([0xC3, 0xA9]) == "%C3%A9" by {
      assert [0xC3, 0xA9][1..] == [0xA9];
    }
    assert Encode("\U{E9}") == "%C3%A9";
  }
}
