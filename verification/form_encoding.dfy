/** `URLEncoder.encode(s, UTF_8)`: the `application/x-www-form-urlencoded`
    encoding of HTML 4.01 section 17.13.4.1 as Java implements it. ASCII
    letters, digits and `.`, `-`, `*`, `_` are kept, a space becomes `+`, and
    every other character becomes `%XY` for each byte of its UTF-8 form, with
    upper-case hexadecimal digits. A decoder is given beside it, and the two
    are proved inverse. */
module FormEncoding {
  import opened Wrappers

  /** The characters the encoder leaves as they are. */
  predicate IsUnreserved(c: char) {
    ('a' <= c <= 'z') || ('A' <= c <= 'Z') || ('0' <= c <= '9')
    || c == '.' || c == '-' || c == '*' || c == '_'
  }

  predicate IsByte(b: int) {
    0 <= b < 256
  }

  /** The UTF-8 bytes of one Unicode scalar value (RFC 3629 section 3). */
  function Utf8(c: char): (r: seq<int>)
    ensures 1 <= |r| <= 4
    ensures forall i :: 0 <= i < |r| ==> IsByte(r[i])
    ensures c as int < 0x80 <==> |r| == 1
  {
    var n := c as int;
    if n < 0x80 then [n]
    else if n < 0x800 then [0xC0 + n / 64, 0x80 + n % 64]
    else if n < 0x10000 then [0xE0 + (n / 64) / 64, 0x80 + (n / 64) % 64, 0x80 + n % 64]
    else [0xF0 + ((n / 64) / 64) / 64, 0x80 + ((n / 64) / 64) % 64, 0x80 + (n / 64) % 64, 0x80 + n % 64]
  }

  function HexDigit(d: int): (c: char)
    requires 0 <= d < 16
  {
    if d < 10 then ('0' as int + d) as char else ('A' as int + d - 10) as char
  }

  function HexValue(c: char): Option<int> {
    if '0' <= c <= '9' then Some(c as int - '0' as int)
    else if 'A' <= c <= 'F' then Some(c as int - 'A' as int + 10)
    else if 'a' <= c <= 'f' then Some(c as int - 'a' as int + 10)
    else None
  }

  /** `%XY` for every byte. */
  function PercentBytes(bs: seq<int>): (r: string)
    requires forall i :: 0 <= i < |bs| ==> IsByte(bs[i])
    ensures |r| == 3 * |bs|
  {
    if |bs| == 0 then ""
    else
      assert IsByte(bs[0]);
      ['%', HexDigit(bs[0] / 16), HexDigit(bs[0] % 16)] + PercentBytes(bs[1..])
  }

  function EncodeChar(c: char): string {
    if IsUnreserved(c) then [c]
    else if c == ' ' then "+"
    else PercentBytes(Utf8(c))
  }

  /** The characters an encoded string is made of. */
  predicate IsEncodedChar(c: char) {
    IsUnreserved(c) || c == '+' || c == '%'
  }

  /** `URLEncoder.encode(s, UTF_8)`. */
  function Encode(s: string): (r: string)
    ensures forall i :: 0 <= i < |r| ==> IsEncodedChar(r[i])
    ensures (forall i :: 0 <= i < |s| ==> IsUnreserved(s[i])) ==> r == s
    ensures |r| >= |s|
  {
    if |s| == 0 then ""
    else
      PercentBytesChars(Utf8(s[0]));
      EncodeChar(s[0]) + Encode(s[1..])
  }

  lemma PercentBytesChars(bs: seq<int>)
    requires forall i :: 0 <= i < |bs| ==> IsByte(bs[i])
    ensures forall i :: 0 <= i < |PercentBytes(bs)| ==> IsEncodedChar(PercentBytes(bs)[i])
  {
  }

  /** The byte layer of decoding: `+` is a space, `%XY` a byte, any other
      kept character its own code; anything else is malformed. */
  function PercentDecode(t: string): Option<seq<int>>
    decreases |t|
  {
    if |t| == 0 then Some([])
    else if t[0] == '+' then
      match PercentDecode(t[1..]) case None => None case Some(rest) => Some([0x20] + rest)
    else if t[0] == '%' then
      if |t| < 3 then None
      else match (HexValue(t[1]), HexValue(t[2]))
        case (Some(h), Some(l)) =>
          (match PercentDecode(t[3..]) case None => None case Some(rest) => Some([h * 16 + l] + rest))
        case _ => None
    else if IsUnreserved(t[0]) then
      match PercentDecode(t[1..]) case None => None case Some(rest) => Some([t[0] as int] + rest)
    else None
  }

  predicate IsContinuation(b: int) {
    0x80 <= b < 0xC0
  }

  /** Decoding of well-formed UTF-8 into Unicode scalar values. */
  function Utf8Decode(bs: seq<int>): Option<string>
    decreases |bs|
  {
    if |bs| == 0 then Some("")
    else
      var b0 := bs[0];
      if 0 <= b0 < 0x80 then
        match Utf8Decode(bs[1..]) case None => None case Some(rest) => Some([b0 as char] + rest)
      else if 0xC0 <= b0 < 0xE0 && |bs| >= 2 && IsContinuation(bs[1]) then
        var n := (b0 - 0xC0) * 64 + (bs[1] - 0x80);
        match Utf8Decode(bs[2..]) case None => None case Some(rest) => Some([n as char] + rest)
      else if 0xE0 <= b0 < 0xF0 && |bs| >= 3 && IsContinuation(bs[1]) && IsContinuation(bs[2]) then
        var n := ((b0 - 0xE0) * 64 + (bs[1] - 0x80)) * 64 + (bs[2] - 0x80);
        if 0xD800 <= n < 0xE000 then None
        else match Utf8Decode(bs[3..]) case None => None case Some(rest) => Some([n as char] + rest)
      else if 0xF0 <= b0 < 0xF8 && |bs| >= 4 && IsContinuation(bs[1]) && IsContinuation(bs[2]) && IsContinuation(bs[3]) then
        var n := (((b0 - 0xF0) * 64 + (bs[1] - 0x80)) * 64 + (bs[2] - 0x80)) * 64 + (bs[3] - 0x80);
        if n > 0x10FFFF || 0xD800 <= n < 0xE000 then None
        else match Utf8Decode(bs[4..]) case None => None case Some(rest) => Some([n as char] + rest)
      else None
  }

  /** Form decoding: the inverse of `Encode`. */
  function Decode(t: string): Option<string> {
    match PercentDecode(t)
    case None => None
    case Some(bs) => Utf8Decode(bs)
  }

  function Utf8Of(s: string): (r: seq<int>)
    ensures forall i :: 0 <= i < |r| ==> IsByte(r[i])
  {
    if |s| == 0 then [] else Utf8(s[0]) + Utf8Of(s[1..])
  }

  lemma HexRoundTrip(d: int)
    requires 0 <= d < 16
    ensures HexValue(HexDigit(d)) == Some(d)
  {
  }

  lemma {:induction false} PercentDecodeBytes(bs: seq<int>, rest: string, tail: seq<int>)
    requires forall i :: 0 <= i < |bs| ==> IsByte(bs[i])
    requires PercentDecode(rest) == Some(tail)
    ensures PercentDecode(PercentBytes(bs) + rest) == Some(bs + tail)
  {
    if |bs| > 0 {
      var t := PercentBytes(bs) + rest;
      assert t == ['%', HexDigit(bs[0] / 16), HexDigit(bs[0] % 16)] + (PercentBytes(bs[1..]) + rest);
      assert t[3..] == PercentBytes(bs[1..]) + rest;
      assert IsByte(bs[0]);
      HexRoundTrip(bs[0] / 16);
      HexRoundTrip(bs[0] % 16);
      assert (bs[0] / 16) * 16 + bs[0] % 16 == bs[0];
      PercentDecodeBytes(bs[1..], rest, tail);
      assert t[0] == '%' && t[1] == HexDigit(bs[0] / 16) && t[2] == HexDigit(bs[0] % 16);
      assert PercentDecode(t) == Some([bs[0]] + (bs[1..] + tail));
      assert bs + tail == [bs[0]] + (bs[1..] + tail);
    } else {
      assert PercentBytes(bs) + rest == rest;
      assert bs + tail == tail;
    }
  }

  lemma {:induction false} PercentDecodeEncode(s: string)
    ensures PercentDecode(Encode(s)) == Some(Utf8Of(s))
  {
    if |s| > 0 {
      var c := s[0];
      PercentDecodeEncode(s[1..]);
      var rest := Encode(s[1..]);
      if IsUnreserved(c) {
        assert ([c] + rest)[1..] == rest;
      } else if c == ' ' {
        assert ("+" + rest)[1..] == rest;
      } else {
        PercentDecodeBytes(Utf8(c), rest, Utf8Of(s[1..]));
      }
    }
  }

  lemma Utf8DecodeChar(c: char, tail: seq<int>, rest: string)
    requires Utf8Decode(tail) == Some(rest)
    ensures Utf8Decode(Utf8(c) + tail) == Some([c] + rest)
  {
    var n := c as int;
    var bs := Utf8(c) + tail;
    if n < 0x80 {
      assert bs[1..] == tail;
    } else if n < 0x800 {
      assert bs[2..] == tail;
      assert (n / 64) * 64 + n % 64 == n;
    } else if n < 0x10000 {
      assert bs[3..] == tail;
      var q := n / 64;
      assert q * 64 + n % 64 == n;
      assert (q / 64) * 64 + q % 64 == q;
    } else {
      assert bs[4..] == tail;
      var q := n / 64;
      var q2 := q / 64;
      assert q * 64 + n % 64 == n;
      assert q2 * 64 + q % 64 == q;
      assert (q2 / 64) * 64 + q2 % 64 == q2;
    }
  }

  lemma {:induction false} Utf8DecodeOf(s: string)
    ensures Utf8Decode(Utf8Of(s)) == Some(s)
  {
    if |s| > 0 {
      Utf8DecodeOf(s[1..]);
      Utf8DecodeChar(s[0], Utf8Of(s[1..]), s[1..]);
      assert [s[0]] + s[1..] == s;
    }
  }

  /** Decoding an encoded string gives it back, so distinct queries give
      distinct encodings. */
  lemma DecodeEncode(s: string)
    ensures Decode(Encode(s)) == Some(s)
  {
    PercentDecodeEncode(s);
    Utf8DecodeOf(s);
  }

  lemma EncodeInjective(s: string, t: string)
    requires Encode(s) == Encode(t)
    ensures s == t
  {
    DecodeEncode(s);
    DecodeEncode(t);
  }

  /** Three examples: a space, a reserved character and a letter outside
      ASCII. */
  lemma EncodeExamples()
    ensures Encode("HP 35") == "HP+35"
    ensures Encode("a&b") == "a%26b"
    ensures Encode("é") == "%C3%A9"
  {
    SpaceExample();
    AmpersandExample();
    AccentExample();
  }

  lemma SpaceExample()
    ensures Encode("HP 35") == "HP+35"
  {
  }

  lemma AmpersandExample()
    ensures Encode("a&b") == "a%26b"
  {
  }

  lemma AccentExample()
    ensures Encode("é") == "%C3%A9"
  {
    assert Utf8('é') == [0xC3, 0xA9];
    assert PercentBytes([0xC3, 0xA9]) == "%C3%A9";
  }
}
