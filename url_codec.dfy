/** url_decode of domoserver.c: percent-decoding as in section 2.1 of RFC 3986
    together with the '+'-for-space convention of
    application/x-www-form-urlencoded. The two characters after a '%' are
    handed to strtol(…, NULL, 16), whose partial parse decides the byte. */
module UrlCodec {
  import opened CStrings

  predicate IsHexDigit(c: char) {
    ('0' <= c <= '9') || ('a' <= c <= 'f') || ('A' <= c <= 'F')
  }

  function HexValue(c: char): (v: nat)
    requires IsHexDigit(c)
    ensures v < 16
  {
    if '0' <= c <= '9' then c as int - '0' as int
    else if 'a' <= c <= 'f' then c as int - 'a' as int + 10
    else c as int - 'A' as int + 10
  }

  /** strtol on the two-character string a b in base 16: optional leading
      white space, an optional sign, then the longest run of hex digits; 0
      when there is no digit. (A leading "0x" with nothing after it parses
      as the single digit 0, which the first case already gives.) */
  function Strtol16Pair(a: char, b: char): (v: int)
    ensures -15 <= v <= 255
    ensures IsHexDigit(a) && IsHexDigit(b) ==> v == 16 * HexValue(a) + HexValue(b)
    ensures IsHexDigit(a) && !IsHexDigit(b) ==> v == HexValue(a)
    ensures !IsHexDigit(a) && !IsHexDigit(b) ==> v == 0
    ensures !IsHexDigit(a) && !IsSpace(a) && a != '+' && a != '-' ==> v == 0
    ensures (IsSpace(a) || a == '+') && IsHexDigit(b) ==> v == HexValue(b)
    ensures a == '-' && IsHexDigit(b) ==> v == -(HexValue(b) as int)
  {
    if IsHexDigit(a) then
      if IsHexDigit(b) then 16 * HexValue(a) + HexValue(b) else HexValue(a)
    else if (IsSpace(a) || a == '+') && IsHexDigit(b) then HexValue(b)
    else if a == '-' && IsHexDigit(b) then -(HexValue(b) as int)
    else 0
  }

  /** The byte that `(char)val` stores: the value modulo 256. */
  function ByteOf(v: int): (c: char)
    ensures 0 <= c as int < 256
    ensures 0 <= v < 256 ==> c as int == v
  {
    (v % 256) as char
  }

  /** The bytes url_decode writes into dst, in order (the terminating NUL
      not included). */
  function Decoded(s: string): (r: string)
    ensures |r| <= |s|
    decreases |s|
  {
    if s == [] then []
    else if s[0] == '%' then
      if |s| >= 3 then [ByteOf(Strtol16Pair(s[1], s[2]))] + Decoded(s[3..])
      else Decoded(s[1..])
    else if s[0] == '+' then [' '] + Decoded(s[1..])
    else [s[0]] + Decoded(s[1..])
  }

  /** Decoded at position i of src, one step unfolded. */
  lemma DecodedAt(src: string, i: nat)
    requires i < |src|
    ensures Decoded(src[i..]) ==
      if src[i] == '%' then
        if i + 2 < |src| then [ByteOf(Strtol16Pair(src[i + 1], src[i + 2]))] + Decoded(src[i + 3..])
        else Decoded(src[i + 1..])
      else if src[i] == '+' then [' '] + Decoded(src[i + 1..])
      else [src[i]] + Decoded(src[i + 1..])
  {
    assert src[i..][1..] == src[i + 1..];
    if i + 2 < |src| {
      assert src[i..][3..] == src[i + 3..];
    }
  }

  /** The pointer loop of url_decode. */
  method UrlDecode(src: string) returns (dst: string)
    ensures dst == Decoded(src)
    ensures |dst| <= |src|
  {
    dst := [];
    var i := 0;
    assert src[0..] == src;
    while i < |src|
      invariant 0 <= i <= |src|
      invariant dst + Decoded(src[i..]) == Decoded(src)
    {
      DecodedAt(src, i);
      if src[i] == '%' {
        if i + 2 < |src| {
          var c := ByteOf(Strtol16Pair(src[i + 1], src[i + 2]));
          assert dst + [c] + Decoded(src[i + 3..]) == dst + ([c] + Decoded(src[i + 3..]));
          dst := dst + [c];
          i := i + 3;
        } else {
          i := i + 1;
        }
      } else if src[i] == '+' {
        assert dst + [' '] + Decoded(src[i + 1..]) == dst + ([' '] + Decoded(src[i + 1..]));
        dst := dst + [' '];
        i := i + 1;
      } else {
        assert dst + [src[i]] + Decoded(src[i + 1..]) == dst + ([src[i]] + Decoded(src[i + 1..]));
        dst := dst + [src[i]];
        i := i + 1;
      }
    }
    assert src[|src|..] == [];
    assert dst + [] == dst;
  }

  /** The three decoding rules, each as it applies at the head of the input:
      '+' gives a space, "%XY" with two hex digits gives the byte 0xXY and
      consumes three characters, any other character except '%' is copied. */
  lemma DecodeStep(c: char, rest: string)
    ensures c == '+' ==> Decoded([c] + rest) == [' '] + Decoded(rest)
    ensures c != '+' && c != '%' ==> Decoded([c] + rest) == [c] + Decoded(rest)
  {
    assert ([c] + rest)[1..] == rest;
  }

  lemma DecodeHexPair(x: char, y: char, rest: string)
    requires IsHexDigit(x) && IsHexDigit(y)
    ensures Decoded(['%', x, y] + rest) == [(16 * HexValue(x) + HexValue(y)) as char] + Decoded(rest)
  {
    assert (['%', x, y] + rest)[3..] == rest;
  }

  /** A '%' with fewer than two characters after it is dropped, and decoding
      goes on with the character that follows it. */
  lemma DecodeTruncatedPercent(tail: string)
    requires |tail| < 2
    ensures Decoded(['%'] + tail) == Decoded(tail)
  {
    assert (['%'] + tail)[1..] == tail;
  }

  /** Text with neither '%' nor '+' decodes to itself. */
  lemma {:induction false} PlainTextUnchanged(s: string)
    requires '%' !in s && '+' !in s
    ensures Decoded(s) == s
    decreases |s|
  {
    if s != [] {
      PlainTextUnchanged(s[1..]);
    }
  }

  /** Characters left as they are by percent-encoding (section 2.3 of
      RFC 3986). */
  predicate IsUnreserved(c: char) {
    ('a' <= c <= 'z') || ('A' <= c <= 'Z') || ('0' <= c <= '9') || c == '-' || c == '.' || c == '_' || c == '~'
  }

  function HexChar(d: nat): (c: char)
    requires d < 16
    ensures IsHexDigit(c) && HexValue(c) == d
  {
    if d < 10 then ('0' as int + d) as char else ('A' as int + d - 10) as char
  }

  /** Percent-encoding of a byte string: unreserved characters as they are,
      every other byte as '%' and two upper-case hex digits. */
  function PercentEncoded(s: string): (r: string)
    requires forall i :: 0 <= i < |s| ==> s[i] as int < 256
    decreases |s|
  {
    if s == [] then []
    else
      var c := s[0];
      (if IsUnreserved(c) then [c] else ['%', HexChar(c as int / 16), HexChar(c as int % 16)])
      + PercentEncoded(s[1..])
  }

  /** url_decode undoes percent-encoding: every byte string survives the
      round trip. */
  lemma {:induction false} DecodeEncoded(s: string)
    requires forall i :: 0 <= i < |s| ==> s[i] as int < 256
    ensures Decoded(PercentEncoded(s)) == s
    decreases |s|
  {
    if s != [] {
      var c := s[0];
      var rest := PercentEncoded(s[1..]);
      DecodeEncoded(s[1..]);
      if IsUnreserved(c) {
        DecodeStep(c, rest);
      } else {
        var x, y := HexChar(c as int / 16), HexChar(c as int % 16);
        DecodeHexPair(x, y, rest);
        assert (16 * HexValue(x) + HexValue(y)) as char == c;
      }
      assert s == [c] + s[1..];
    }
  }
}
