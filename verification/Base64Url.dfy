/** Unpadded base64url (section 5 of RFC 4648, section 2 of RFC 7515) as the ACME client
    writes it (app/acme/native_client.py) and as the cookie middleware reads the payload
    of a token back (app/auth/breakglass_cookie_middleware.py). */
module Base64Url {
  import opened PyText

  type Byte = b: int | 0 <= b < 256
  type Sextet = v: int | 0 <= v < 64

  function Letter(v: Sextet): char {
    if v < 26 then (65 + v) as char
    else if v < 52 then (71 + v) as char
    else if v < 62 then (v - 4) as char
    else if v == 62 then '-' else '_'
  }

  // The decoder folds the URL alphabet onto the standard one, so it accepts both.
  function LetterValue(c: char): Option<Sextet> {
    if 'A' <= c <= 'Z' then Some(c as int - 65)
    else if 'a' <= c <= 'z' then Some(c as int - 71)
    else if '0' <= c <= '9' then Some(c as int + 4)
    else if c == '-' || c == '+' then Some(62)
    else if c == '_' || c == '/' then Some(63)
    else None
  }

  // The URL and filename safe alphabet of table 2 of RFC 4648.
  const UPPER := "ABCDEFGHIJKLMNOPQRSTUVWXYZ"
  const LOWER := "abcdefghijklmnopqrstuvwxyz"
  const REST := "0123456789-_"

  lemma AlphabetIsStandard(v: Sextet)
    ensures Letter(v) == if v < 26 then UPPER[v] else if v < 52 then LOWER[v - 26] else REST[v - 52]
  {}

  // ----- Encoding

  // Full groups of three bytes become four letters; a rest of one or two is padded with `=`.
  function Encode(data: seq<Byte>): string {
    if data == [] then []
    else if |data| == 1 then
      [Letter(data[0] / 4), Letter(data[0] % 4 * 16), '=', '=']
    else if |data| == 2 then
      [Letter(data[0] / 4), Letter(data[0] % 4 * 16 + data[1] / 16), Letter(data[1] % 16 * 4), '=']
    else
      [Letter(data[0] / 4), Letter(data[0] % 4 * 16 + data[1] / 16),
       Letter(data[1] % 16 * 4 + data[2] / 64), Letter(data[2] % 64)] + Encode(data[3..])
  }

  function RStripPadding(s: string): string {
    if s != [] && s[|s| - 1] == '=' then RStripPadding(s[..|s| - 1]) else s
  }

  function B64Url(data: seq<Byte>): string { RStripPadding(Encode(data)) }

  // ----- Decoding

  // quad: letters read of the current group; left: bits carried over; pads: `=` seen in the group.
  datatype Decoder = Decoder(quad: nat, left: nat, pads: nat, out: seq<Byte>)

  predicate ValidDecoder(d: Decoder) {
    d.quad < 4 && d.left < (if d.quad == 1 then 64 else if d.quad == 2 then 16 else if d.quad == 3 then 4 else 1)
  }

  function Feed(d: Decoder, v: Sextet): (r: Decoder)
    requires ValidDecoder(d)
    ensures ValidDecoder(r)
  {
    match d.quad
    case 0 => Decoder(1, v, 0, d.out)
    case 1 => Decoder(2, v % 16, 0, d.out + [d.left * 4 + v / 16])
    case 2 => Decoder(3, v % 4, 0, d.out + [d.left * 16 + v / 4])
    case _ => Decoder(0, 0, 0, d.out + [d.left * 64 + v])
  }

  // Characters outside the alphabet are skipped; a group closed by padding ends the input;
  // an unfinished group is an error.
  function DecodeFrom(s: string, d: Decoder): Option<seq<Byte>>
    requires ValidDecoder(d)
  {
    if s == [] then if d.quad == 0 then Some(d.out) else None
    else if s[0] == '=' then
      if d.quad < 2 then DecodeFrom(s[1..], d)
      else if d.quad + d.pads + 1 >= 4 then Some(d.out)
      else DecodeFrom(s[1..], d.(pads := d.pads + 1))
    else match LetterValue(s[0])
      case None => DecodeFrom(s[1..], d)
      case Some(v) => DecodeFrom(s[1..], Feed(d, v))
  }

  const Fresh := Decoder(0, 0, 0, [])

  // `"=" * (-len % 4)`.
  function Padding(n: nat): string {
    match n % 4
    case 0 => ""
    case 1 => "==="
    case 2 => "=="
    case _ => "="
  }

  function Redecode(s: string): Option<seq<Byte>> { DecodeFrom(s + Padding(|s|), Fresh) }

  // The middle segment of a token, decoded without checking its signature.
  function UnverifiedSegment(raw: string): Option<seq<Byte>> {
    var parts := Split(raw, '.');
    if |parts| < 2 then None else Redecode(parts[1])
  }

  // ----- Unpadded text

  predicate IsLetter(c: char) { 'A' <= c <= 'Z' || 'a' <= c <= 'z' || '0' <= c <= '9' || c == '-' || c == '_' }

  lemma LetterRoundTrip(v: Sextet)
    ensures IsLetter(Letter(v)) && LetterValue(Letter(v)) == Some(v)
  {}

  lemma StripsPads(s: string, n: nat)
    requires s == [] || s[|s| - 1] != '='
    ensures RStripPadding(s + Padding(n)) == s
  {
    assert s + "" == s;
    StripOnePad(s);
    assert s + "=" + "=" == s + "==" && s + "==" + "=" == s + "===";
    StripOnePad(s + "=");
    StripOnePad(s + "==");
  }

  lemma StripOnePad(s: string)
    ensures RStripPadding(s + "=") == RStripPadding(s)
  {
    assert (s + "=")[..|s|] == s;
  }

  // The letters of the encoding, without padding.
  function Letters(data: seq<Byte>): string {
    if data == [] then []
    else if |data| == 1 then [Letter(data[0] / 4), Letter(data[0] % 4 * 16)]
    else if |data| == 2 then
      [Letter(data[0] / 4), Letter(data[0] % 4 * 16 + data[1] / 16), Letter(data[1] % 16 * 4)]
    else Group(data[0], data[1], data[2]) + Letters(data[3..])
  }

  function Group(b0: Byte, b1: Byte, b2: Byte): string {
    [Letter(b0 / 4), Letter(b0 % 4 * 16 + b1 / 16), Letter(b1 % 16 * 4 + b2 / 64), Letter(b2 % 64)]
  }

  lemma {:induction false} LettersShape(data: seq<Byte>)
    ensures Encode(data) == Letters(data) + Padding(|Letters(data)|)
    ensures |Letters(data)| % 4 != 1
  {
    if |data| >= 3 {
      LettersShape(data[3..]);
      var g, rest := Group(data[0], data[1], data[2]), Letters(data[3..]);
      assert Encode(data) == g + Encode(data[3..]);
      PadAfterGroup(g, rest);
    } else {
      ShortShape(data);
    }
  }

  lemma PadAfterGroup(group: string, rest: string)
    requires |group| == 4
    ensures group + (rest + Padding(|rest|)) == (group + rest) + Padding(|group + rest|)
    ensures |group + rest| % 4 == |rest| % 4
  {
    assert |group + rest| % 4 == |rest| % 4;
  }

  lemma ShortShape(data: seq<Byte>)
    requires |data| < 3
    ensures Encode(data) == Letters(data) + Padding(|Letters(data)|)
    ensures |Letters(data)| % 4 != 1
  {
    if |data| == 2 {
      assert Letters(data) + "=" == Encode(data);
    } else if |data| == 1 {
      assert Letters(data) + "==" == Encode(data);
    }
  }

  lemma {:induction false} LettersAreLetters(data: seq<Byte>)
    ensures forall i :: 0 <= i < |Letters(data)| ==> IsLetter(Letters(data)[i])
  {
    if |data| >= 3 {
      LettersAreLetters(data[3..]);
      var g := Group(data[0], data[1], data[2]);
      assert forall i :: 0 <= i < |g| ==> IsLetter(g[i]);
    }
  }

  // The text is the padded encoding without its padding, and only letters.
  lemma EncodeShape(data: seq<Byte>)
    ensures Encode(data) == B64Url(data) + Padding(|B64Url(data)|)
    ensures |B64Url(data)| % 4 != 1
    ensures forall i :: 0 <= i < |B64Url(data)| ==> IsLetter(B64Url(data)[i])
  {
    LettersShape(data);
    LettersAreLetters(data);
    StripsPads(Letters(data), |Letters(data)|);
  }

  // The bits of three bytes in order, six by six (section 4 of RFC 4648).
  lemma GroupIsBits(b0: Byte, b1: Byte, b2: Byte, v0: Sextet, v1: Sextet, v2: Sextet, v3: Sextet)
    requires b0 * 65536 + b1 * 256 + b2 == v0 * 262144 + v1 * 4096 + v2 * 64 + v3
    ensures Group(b0, b1, b2) == [Letter(v0), Letter(v1), Letter(v2), Letter(v3)]
  {
    var w0, w1, w2, w3 := b0 / 4, b0 % 4 * 16 + b1 / 16, b1 % 16 * 4 + b2 / 64, b2 % 64;
    assert b0 == 4 * w0 + b0 % 4 && b1 == 16 * (b1 / 16) + b1 % 16 && b2 == 64 * (b2 / 64) + w3;
    LastDigit(w0 * 4096 + w1 * 64 + w2, w3, v0 * 4096 + v1 * 64 + v2, v3);
    LastDigit(w0 * 64 + w1, w2, v0 * 64 + v1, v2);
    LastDigit(w0, w1, v0, v1);
  }

  lemma LastDigit(a: int, x: Sextet, b: int, y: Sextet)
    requires a * 64 + x == b * 64 + y
    ensures a == b && x == y
  {
    assert (a - b) * 64 == y - x;
  }

  // ----- Round trip

  // The four sextets of a group carry its three bytes.
  lemma SextetsOfGroup(b0: Byte, b1: Byte, b2: Byte)
    ensures b0 / 4 * 4 + (b0 % 4 * 16 + b1 / 16) / 16 == b0
    ensures (b0 % 4 * 16 + b1 / 16) % 16 * 16 + (b1 % 16 * 4 + b2 / 64) / 4 == b1
    ensures (b1 % 16 * 4 + b2 / 64) % 4 * 64 + b2 % 64 == b2
  {}

  lemma FeedGroup(b0: Byte, b1: Byte, b2: Byte, out: seq<Byte>)
    ensures Feed(Feed(Feed(Feed(Decoder(0, 0, 0, out), b0 / 4), b0 % 4 * 16 + b1 / 16), b1 % 16 * 4 + b2 / 64), b2 % 64)
         == Decoder(0, 0, 0, out + [b0, b1, b2])
  {
    SextetsOfGroup(b0, b1, b2);
    assert out + [b0] + [b1] + [b2] == out + [b0, b1, b2];
  }

  lemma DecodeLetter(v: Sextet, rest: string, d: Decoder)
    requires ValidDecoder(d)
    ensures DecodeFrom([Letter(v)] + rest, d) == DecodeFrom(rest, Feed(d, v))
  {
    LetterRoundTrip(v);
    assert ([Letter(v)] + rest)[1..] == rest;
  }

  lemma DecodeOne(b0: Byte, out: seq<Byte>)
    ensures DecodeFrom([Letter(b0 / 4), Letter(b0 % 4 * 16), '=', '='], Decoder(0, 0, 0, out)) == Some(out + [b0])
  {
    var d := Decoder(0, 0, 0, out);
    var v0, v1 := b0 / 4, b0 % 4 * 16;
    DecodeLetter(v0, [Letter(v1)] + "==", d);
    DecodeLetter(v1, "==", Feed(d, v0));
    assert [Letter(v0), Letter(v1), '=', '='] == [Letter(v0)] + ([Letter(v1)] + "==");
    assert "=="[1..] == "=";
  }

  lemma DecodeTwo(b0: Byte, b1: Byte, out: seq<Byte>)
    ensures DecodeFrom([Letter(b0 / 4), Letter(b0 % 4 * 16 + b1 / 16), Letter(b1 % 16 * 4), '='], Decoder(0, 0, 0, out))
         == Some(out + [b0, b1])
  {
    var d := Decoder(0, 0, 0, out);
    var v0, v1, v2 := b0 / 4, b0 % 4 * 16 + b1 / 16, b1 % 16 * 4;
    DecodeLetter(v0, [Letter(v1)] + ([Letter(v2)] + "="), d);
    DecodeLetter(v1, [Letter(v2)] + "=", Feed(d, v0));
    DecodeLetter(v2, "=", Feed(Feed(d, v0), v1));
    FeedTwo(b0, b1, out);
    assert [Letter(v0), Letter(v1), Letter(v2), '='] == [Letter(v0)] + ([Letter(v1)] + ([Letter(v2)] + "="));
  }

  lemma FeedTwo(b0: Byte, b1: Byte, out: seq<Byte>)
    ensures Feed(Feed(Feed(Decoder(0, 0, 0, out), b0 / 4), b0 % 4 * 16 + b1 / 16), b1 % 16 * 4)
         == Decoder(3, 0, 0, out + [b0, b1])
  {
    assert out + [b0] + [b1] == out + [b0, b1];
  }

  lemma DecodeThree(b0: Byte, b1: Byte, b2: Byte, rest: string, out: seq<Byte>)
    ensures DecodeFrom(Group(b0, b1, b2) + rest, Decoder(0, 0, 0, out))
         == DecodeFrom(rest, Decoder(0, 0, 0, out + [b0, b1, b2]))
  {
    var d := Decoder(0, 0, 0, out);
    var v0, v1, v2, v3 := b0 / 4, b0 % 4 * 16 + b1 / 16, b1 % 16 * 4 + b2 / 64, b2 % 64;
    DecodeLetter(v0, [Letter(v1)] + ([Letter(v2)] + ([Letter(v3)] + rest)), d);
    DecodeLetter(v1, [Letter(v2)] + ([Letter(v3)] + rest), Feed(d, v0));
    DecodeLetter(v2, [Letter(v3)] + rest, Feed(Feed(d, v0), v1));
    DecodeLetter(v3, rest, Feed(Feed(Feed(d, v0), v1), v2));
    FeedGroup(b0, b1, b2, out);
    assert Group(b0, b1, b2) + rest == [Letter(v0)] + ([Letter(v1)] + ([Letter(v2)] + ([Letter(v3)] + rest)));
  }

  lemma EncodeShort(b0: Byte, b1: Byte)
    ensures Encode([b0]) == [Letter(b0 / 4), Letter(b0 % 4 * 16), '=', '=']
    ensures Encode([b0, b1]) == [Letter(b0 / 4), Letter(b0 % 4 * 16 + b1 / 16), Letter(b1 % 16 * 4), '=']
  {}

  lemma DecodeShort(data: seq<Byte>, out: seq<Byte>)
    requires 0 < |data| < 3
    ensures DecodeFrom(Encode(data), Decoder(0, 0, 0, out)) == Some(out + data)
  {
    if |data| == 1 {
      EncodeShort(data[0], 0);
      DecodeOne(data[0], out);
      assert data == [data[0]];
    } else {
      EncodeShort(data[0], data[1]);
      DecodeTwo(data[0], data[1], out);
      assert data == [data[0], data[1]];
    }
  }

  lemma {:induction false} DecodeEncoded(data: seq<Byte>, out: seq<Byte>)
    ensures DecodeFrom(Encode(data), Decoder(0, 0, 0, out)) == Some(out + data)
    decreases |data|
  {
    if data == [] {
      assert out + data == out;
    } else if |data| < 3 {
      DecodeShort(data, out);
    } else {
      var first := [data[0], data[1], data[2]];
      DecodeThree(data[0], data[1], data[2], Encode(data[3..]), out);
      DecodeEncoded(data[3..], out + first);
      assert Encode(data) == Group(data[0], data[1], data[2]) + Encode(data[3..]);
      assert data == first + data[3..];
      assert (out + first) + data[3..] == out + (first + data[3..]);
    }
  }

  // Main result: stripping the padding loses nothing.
  lemma RoundTrip(data: seq<Byte>)
    ensures Redecode(B64Url(data)) == Some(data)
  {
    EncodeShape(data);
    DecodeEncoded(data, []);
    assert [] + data == data;
  }

  lemma Injective(a: seq<Byte>, b: seq<Byte>)
    requires B64Url(a) == B64Url(b)
    ensures a == b
  {
    RoundTrip(a);
    RoundTrip(b);
  }

  // The encoded segments contain no dot, so a signed token gives its payload back whatever
  // the header bytes and the signature text are.
  lemma TokenPayloadRoundTrip(header: seq<Byte>, payload: seq<Byte>, signature: string)
    ensures UnverifiedSegment(B64Url(header) + "." + B64Url(payload) + "." + signature) == Some(payload)
  {
    EncodeShape(header);
    EncodeShape(payload);
    var h, p := B64Url(header), B64Url(payload);
    assert '.' !in h && '.' !in p;
    assert h + "." + p + "." + signature == h + ['.'] + (p + ['.'] + signature);
    SplitCons(h, '.', p + ['.'] + signature);
    SplitCons(p, '.', signature);
    RoundTrip(payload);
  }

  // Two segments are enough, one is not.
  lemma SegmentsNeeded(header: seq<Byte>, payload: seq<Byte>)
    ensures UnverifiedSegment(B64Url(header) + "." + B64Url(payload)) == Some(payload)
    ensures UnverifiedSegment(B64Url(header)) == None
  {
    EncodeShape(header);
    EncodeShape(payload);
    var h, p := B64Url(header), B64Url(payload);
    assert '.' !in h && '.' !in p;
    assert h + "." + p == h + ['.'] + p;
    SplitCons(h, '.', p);
    SplitOne(p, '.');
    SplitOne(h, '.');
    RoundTrip(payload);
  }

  // ----- Which unpadded texts decode at all

  lemma {:induction false} LettersOnly(s: string, tail: string, d: Decoder) returns (e: Decoder)
    requires ValidDecoder(d) && forall i :: 0 <= i < |s| ==> IsLetter(s[i])
    ensures ValidDecoder(e) && e.quad == (d.quad + |s|) % 4 && (s != [] ==> e.pads == 0) && (s == [] ==> e == d)
    ensures DecodeFrom(s + tail, d) == DecodeFrom(tail, e)
  {
    if s == [] {
      assert s + tail == tail;
      e := d;
    } else {
      var v := LetterValue(s[0]).value;
      assert (s + tail)[1..] == s[1..] + tail;
      e := LettersOnly(s[1..], tail, Feed(d, v));
    }
  }

  // Re-padding makes every text of letters decodable except those of length 1 modulo 4.
  lemma RedecodeAccepts(s: string)
    requires forall i :: 0 <= i < |s| ==> IsLetter(s[i])
    ensures Redecode(s).Some? <==> |s| % 4 != 1
  {
    var e := LettersOnly(s, Padding(|s|), Fresh);
    assert "==="[1..] == "==" && "=="[1..] == "=" && "="[1..] == "";
    assert DecodeFrom("===", e).None? || e.quad != 1 by {
      if e.quad == 1 {
        assert DecodeFrom("==", e) == DecodeFrom("=", e) == DecodeFrom("", e);
      }
    }
    assert DecodeFrom("==", e).Some? || e.quad != 2 by {
      if e.quad == 2 {
        assert DecodeFrom("==", e) == DecodeFrom("=", e.(pads := 1));
      }
    }
  }
}
