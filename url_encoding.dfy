/** Percent-encoding as the handlers use it: `URLSearchParams` serialises
    with the application/x-www-form-urlencoded rules of the WHATWG URL
    standard (section 5.2: space becomes '+', every byte outside
    `* - . _ 0-9 A-Z a-z` of the UTF-8 encoding becomes %XX), and
    `encodeURIComponent` (ECMAScript section 19.2.6.5: space becomes %20,
    `! ~ ' ( )` also stay as they are). A decoder for each is the reference
    they are proved against: decoding an encoding gives the input back. */
module UrlEncoding {

  import opened Common
  import Text

  type Byte = Text.Byte

  datatype Scheme = Form | Component

  /** The characters an encoder leaves as they are. */
  predicate Unreserved(c: char, scheme: Scheme) {
    ('a' <= c <= 'z') || ('A' <= c <= 'Z') || ('0' <= c <= '9')
    || c == '-' || c == '_' || c == '.' || c == '*'
    || (scheme == Component && (c == '!' || c == '~' || c == '\'' || c == '(' || c == ')'))
  }

  // ---------------------------------------------------------------------
  // UTF-8

  /** The UTF-8 encoding of one Unicode scalar value (RFC 3629, section 3). */
  function Utf8(c: char): (r: seq<Byte>)
    ensures 1 <= |r| <= 4
  {
    var n := c as int;
    Utf8Ranges(n);
    if n < 0x80 then [n]
    else if n < 0x800 then [0xC0 + n / 64, 0x80 + n % 64]
    else if n < 0x10000 then [0xE0 + n / 4096, 0x80 + (n / 64) % 64, 0x80 + n % 64]
    else [0xF0 + n / 262144, 0x80 + (n / 4096) % 64, 0x80 + (n / 64) % 64, 0x80 + n % 64]
  }

  lemma Utf8Ranges(n: int)
    requires 0 <= n < 0x110000
    ensures 0 <= n % 64 < 64 && 0 <= (n / 64) % 64 < 64 && 0 <= (n / 4096) % 64 < 64
    ensures n < 0x800 ==> 0 <= n / 64 < 32
    ensures n < 0x10000 ==> 0 <= n / 4096 < 16
    ensures 0 <= n / 262144 < 8
  {
  }

  /** The length of the UTF-8 sequence a lead byte announces; 0 for a byte
      that cannot start one. */
  function SequenceLength(b: Byte): nat
  {
    if b < 0x80 then 1
    else if 0xC0 <= b < 0xE0 then 2
    else if 0xE0 <= b < 0xF0 then 3
    else if 0xF0 <= b < 0xF8 then 4
    else 0
  }

  predicate IsContinuation(b: Byte) { 0x80 <= b < 0xC0 }

  predicate IsScalar(n: int) { 0 <= n < 0xD800 || 0xE000 <= n < 0x110000 }

  /** Decodes one complete UTF-8 sequence; None when it is malformed. */
  function DecodeSequence(bs: seq<Byte>): Option<char>
  {
    if |bs| == 0 || |bs| != SequenceLength(bs[0]) then None
    else if exists i :: 1 <= i < |bs| && !IsContinuation(bs[i]) then None
    else
      var n: int :=
        if |bs| == 1 then bs[0] as int
        else if |bs| == 2 then (bs[0] as int - 0xC0) * 64 + (bs[1] as int - 0x80)
        else if |bs| == 3 then (bs[0] as int - 0xE0) * 4096 + (bs[1] as int - 0x80) * 64 + (bs[2] as int - 0x80)
        else (bs[0] as int - 0xF0) * 262144 + (bs[1] as int - 0x80) * 4096 + (bs[2] as int - 0x80) * 64 + (bs[3] as int - 0x80);
      if IsScalar(n) then Some(n as char) else None
  }

  lemma Split64(n: int)
    requires n >= 0
    ensures n == (n / 64) * 64 + n % 64
    ensures (n / 64) / 64 == n / 4096
    ensures (n / 4096) / 64 == n / 262144
  {
  }

  /** UTF-8 decoding inverts UTF-8 encoding. */
  lemma DecodeUtf8(c: char)
    ensures SequenceLength(Utf8(c)[0]) == |Utf8(c)|
    ensures DecodeSequence(Utf8(c)) == Some(c)
  {
    var n := c as int;
    if n < 0x80 {
    } else if n < 0x800 {
      DecodeTwo(c);
    } else if n < 0x10000 {
      DecodeThree(c);
    } else {
      DecodeFour(c);
    }
  }

  lemma DecodeTwo(c: char)
    requires 0x80 <= c as int < 0x800
    ensures SequenceLength(Utf8(c)[0]) == 2 == |Utf8(c)|
    ensures DecodeSequence(Utf8(c)) == Some(c)
  {
    var n := c as int;
    Split64(n);
    var bs := Utf8(c);
    assert bs == [0xC0 + n / 64, 0x80 + n % 64];
    assert (bs[0] as int - 0xC0) * 64 + (bs[1] as int - 0x80) == n;
  }

  lemma DecodeThree(c: char)
    requires 0x800 <= c as int < 0x10000
    ensures SequenceLength(Utf8(c)[0]) == 3 == |Utf8(c)|
    ensures DecodeSequence(Utf8(c)) == Some(c)
  {
    var n := c as int;
    Split64(n);
    Split64(n / 64);
    var bs := Utf8(c);
    assert bs == [0xE0 + n / 4096, 0x80 + (n / 64) % 64, 0x80 + n % 64];
    assert (bs[0] as int - 0xE0) * 4096 + (bs[1] as int - 0x80) * 64 + (bs[2] as int - 0x80) == n;
  }

  lemma DecodeFour(c: char)
    requires 0x10000 <= c as int
    ensures SequenceLength(Utf8(c)[0]) == 4 == |Utf8(c)|
    ensures DecodeSequence(Utf8(c)) == Some(c)
  {
    var n := c as int;
    Split64(n);
    Split64(n / 64);
    Split64(n / 4096);
    var bs := Utf8(c);
    assert bs == [0xF0 + n / 262144, 0x80 + (n / 4096) % 64, 0x80 + (n / 64) % 64, 0x80 + n % 64];
    assert (bs[0] as int - 0xF0) * 262144 + (bs[1] as int - 0x80) * 4096 + (bs[2] as int - 0x80) * 64 + (bs[3] as int - 0x80) == n;
  }

  // ---------------------------------------------------------------------
  // Percent-encoding

  /** `%XX` with upper-case digits. */
  function PercentByte(b: Byte): (r: string)
    ensures |r| == 3 && r[0] == '%'
  {
    ['%', Text.HexDigit(b / 16, true), Text.HexDigit(b % 16, true)]
  }

  function PercentBytes(bs: seq<Byte>): (r: string)
    ensures |r| == 3 * |bs|
  {
    if bs == [] then "" else PercentByte(bs[0]) + PercentBytes(bs[1..])
  }

  /** One encoded character. */
  function EncodeChar(c: char, scheme: Scheme): string
  {
    if Unreserved(c, scheme) then [c]
    else if scheme == Form && c == ' ' then "+"
    else PercentBytes(Utf8(c))
  }

  /** `new URLSearchParams(...)` serialisation of one name or value
      (scheme Form), or `encodeURIComponent(s)` (scheme Component). The
      output only holds unreserved characters, '%' and, for Form, '+'. */
  function Encode(s: string, scheme: Scheme): (r: string)
    ensures forall i :: 0 <= i < |r| ==> Safe(r[i], scheme)
  {
    if s == [] then ""
    else
      EncodeCharSafe(s[0], scheme);
      EncodeChar(s[0], scheme) + Encode(s[1..], scheme)
  }

  /** What an encoding may contain. */
  predicate Safe(c: char, scheme: Scheme) {
    Unreserved(c, scheme) || c == '%' || (scheme == Form && c == '+')
  }

  lemma {:induction false} PercentBytesSafe(bs: seq<Byte>, scheme: Scheme)
    ensures forall i :: 0 <= i < |PercentBytes(bs)| ==> Safe(PercentBytes(bs)[i], scheme)
  {
    if bs != [] {
      PercentBytesSafe(bs[1..], scheme);
      var head := PercentByte(bs[0]);
      var all := PercentBytes(bs);
      assert all == head + PercentBytes(bs[1..]);
      forall i | 0 <= i < |all| ensures Safe(all[i], scheme) {
        if i >= 3 {
          assert all[i] == PercentBytes(bs[1..])[i - 3];
        }
      }
    }
  }

  lemma EncodeCharSafe(c: char, scheme: Scheme)
    ensures forall i :: 0 <= i < |EncodeChar(c, scheme)| ==> Safe(EncodeChar(c, scheme)[i], scheme)
  {
    PercentBytesSafe(Utf8(c), scheme);
  }

  /** Encodings contain neither the pair separator nor the name/value
      separator of a query string. */
  lemma EncodeHasNoSeparators(s: string, scheme: Scheme)
    ensures '&' !in Encode(s, scheme) && '=' !in Encode(s, scheme)
  {
    var r := Encode(s, scheme);
    assert forall i :: 0 <= i < |r| ==> r[i] != '&' && r[i] != '=';
  }

  // ---------------------------------------------------------------------
  // Decoding

  /** Reads a `%XX` triple at the front of s. */
  function ReadByte(s: string): Option<Byte>
  {
    if |s| >= 3 && s[0] == '%' then
      match (Text.HexValue(s[1]), Text.HexValue(s[2]))
      case (Some(h), Some(l)) =>
        if 0 <= h < 16 && 0 <= l < 16 then Some(h * 16 + l) else None
      case _ => None
    else None
  }

  /** Reads k `%XX` triples at the front of s. */
  function ReadBytes(s: string, k: nat): Option<seq<Byte>>
  {
    if k == 0 then Some([])
    else if |s| < 3 then None
    else
      match (ReadByte(s), ReadBytes(s[3..], k - 1))
      case (Some(b), Some(bs)) => Some([b] + bs)
      case _ => None
  }

  function Prepend(c: char, rest: Option<string>): Option<string>
  {
    match rest
    case Some(r) => Some([c] + r)
    case None => None
  }

  /** Decodes a form-encoded (scheme Form) or percent-encoded (scheme
      Component) string; None when a `%` does not start a well-formed UTF-8
      sequence of `%XX` triples. */
  function Decode(s: string, scheme: Scheme): Option<string>
    decreases |s|
  {
    if s == [] then Some("")
    else if s[0] == '%' then
      match ReadByte(s)
      case None => None
      case Some(lead) =>
        var k := SequenceLength(lead);
        if k == 0 || |s| < 3 * k then None
        else
          match ReadBytes(s, k)
          case None => None
          case Some(bs) =>
            match DecodeSequence(bs)
            case None => None
            case Some(c) => Prepend(c, Decode(s[3 * k..], scheme))
    else if s[0] == '+' && scheme == Form then Prepend(' ', Decode(s[1..], scheme))
    else Prepend(s[0], Decode(s[1..], scheme))
  }

  lemma ReadPercentByte(b: Byte, rest: string)
    ensures ReadByte(PercentByte(b) + rest) == Some(b)
  {
    Text.HexDigitValue(b / 16, true);
    Text.HexDigitValue(b % 16, true);
  }

  lemma {:induction false} ReadPercentBytes(bs: seq<Byte>, rest: string)
    ensures ReadBytes(PercentBytes(bs) + rest, |bs|) == Some(bs)
  {
    if bs != [] {
      var s := PercentBytes(bs) + rest;
      var tail := PercentBytes(bs[1..]) + rest;
      assert s == PercentByte(bs[0]) + tail;
      ReadPercentByte(bs[0], tail);
      assert s[3..] == tail;
      ReadPercentBytes(bs[1..], rest);
      ReadBytesStep(s, |bs|, bs[0], bs[1..]);
      assert bs == [bs[0]] + bs[1..];
    }
  }

  /** One step of reading triples: the first triple, then the others. */
  lemma ReadBytesStep(s: string, k: nat, b: Byte, bs: seq<Byte>)
    requires k > 0 && |s| >= 3
    requires ReadByte(s) == Some(b) && ReadBytes(s[3..], k - 1) == Some(bs)
    ensures ReadBytes(s, k) == Some([b] + bs)
  {
  }

  /** Decoding consumes exactly one encoded character. */
  lemma DecodeEncodeChar(c: char, rest: string, scheme: Scheme)
    ensures Decode(EncodeChar(c, scheme) + rest, scheme) == Prepend(c, Decode(rest, scheme))
  {
    if Unreserved(c, scheme) || (scheme == Form && c == ' ') {
      DecodeLiteral(c, rest, scheme);
    } else {
      DecodePercent(c, rest, scheme);
    }
  }

  lemma DecodeLiteral(c: char, rest: string, scheme: Scheme)
    requires Unreserved(c, scheme) || (scheme == Form && c == ' ')
    ensures Decode(EncodeChar(c, scheme) + rest, scheme) == Prepend(c, Decode(rest, scheme))
  {
    var s := EncodeChar(c, scheme) + rest;
    assert |EncodeChar(c, scheme)| == 1;
    assert s[1..] == rest;
  }

  lemma DecodePercent(c: char, rest: string, scheme: Scheme)
    requires !Unreserved(c, scheme) && !(scheme == Form && c == ' ')
    ensures Decode(EncodeChar(c, scheme) + rest, scheme) == Prepend(c, Decode(rest, scheme))
  {
    var bs := Utf8(c);
    var s := PercentBytes(bs) + rest;
    assert EncodeChar(c, scheme) == PercentBytes(bs);
    ReadPercentBytes(bs, rest);
    LeadByte(bs, rest);
    DecodeUtf8(c);
    assert s[3 * |bs|..] == rest;
    DecodeStep(s, scheme, bs, c);
  }

  /** The front of an encoding is its first byte's triple. */
  lemma LeadByte(bs: seq<Byte>, rest: string)
    requires |bs| >= 1
    ensures var s := PercentBytes(bs) + rest; |s| >= 3 && s[0] == '%' && ReadByte(s) == Some(bs[0])
  {
    var tail := PercentBytes(bs[1..]) + rest;
    assert PercentBytes(bs) + rest == PercentByte(bs[0]) + tail;
    ReadPercentByte(bs[0], tail);
  }

  /** One step of decoding at a `%`: a complete, well-formed sequence of
      triples yields its character, then the rest is decoded. */
  lemma DecodeStep(s: string, scheme: Scheme, bs: seq<Byte>, c: char)
    requires |bs| >= 1 && |s| >= 3 * |bs| && s[0] == '%'
    requires ReadByte(s) == Some(bs[0]) && SequenceLength(bs[0]) == |bs|
    requires ReadBytes(s, |bs|) == Some(bs) && DecodeSequence(bs) == Some(c)
    ensures Decode(s, scheme) == Prepend(c, Decode(s[3 * |bs|..], scheme))
  {
  }

  /** Decoding inverts encoding, for both schemes. */
  lemma {:induction false} DecodeEncode(s: string, scheme: Scheme)
    ensures Decode(Encode(s, scheme), scheme) == Some(s)
  {
    if s != [] {
      DecodeEncode(s[1..], scheme);
      DecodeEncodeChar(s[0], Encode(s[1..], scheme), scheme);
      assert s == [s[0]] + s[1..];
    }
  }

  // ---------------------------------------------------------------------
  // Query strings

  /** `new URLSearchParams(pairs).toString()`: `name=value` pairs in order,
      joined with '&'. */
  function Serialize(pairs: seq<(string, string)>): string
  {
    Text.Join(EncodePairs(pairs), "&")
  }

  function EncodePairs(pairs: seq<(string, string)>): (r: seq<string>)
    ensures |r| == |pairs|
    ensures forall i :: 0 <= i < |r| ==> r[i] == EncodePair(pairs[i])
  {
    if pairs == [] then [] else [EncodePair(pairs[0])] + EncodePairs(pairs[1..])
  }

  function EncodePair(p: (string, string)): string
  {
    Encode(p.0, Form) + "=" + Encode(p.1, Form)
  }

  /** Parsing a query string (WHATWG URL standard, section 5.1): split on
      '&', skip empty pieces, split each piece at its first '=' (a piece
      without one has the empty value) and decode both halves. */
  function ParseQuery(q: string): Option<seq<(string, string)>>
  {
    ParsePieces(Text.Split(q, '&'))
  }

  function ParsePieces(pieces: seq<string>): Option<seq<(string, string)>>
  {
    if pieces == [] then Some([])
    else if pieces[0] == "" then ParsePieces(pieces[1..])
    else
      var halves := Text.Split(pieces[0], '=');
      match (Decode(halves[0], Form), Decode(Text.Join(halves[1..], "="), Form), ParsePieces(pieces[1..]))
      case (Some(name), Some(value), Some(rest)) => Some([(name, value)] + rest)
      case _ => None
  }

  lemma ParseEncodedPair(p: (string, string))
    ensures EncodePair(p) != ""
    ensures '&' !in EncodePair(p)
    ensures ParsePieces([EncodePair(p)]) == Some([p])
  {
    var name := Encode(p.0, Form);
    var value := Encode(p.1, Form);
    EncodeHasNoSeparators(p.0, Form);
    EncodeHasNoSeparators(p.1, Form);
    var piece := EncodePair(p);
    assert piece == name + ['='] + value;
    assert piece[|name|] == '=';
    Text.SplitFirst(name, '=', value);
    Text.SplitPlain(value, '=');
    var halves := Text.Split(piece, '=');
    assert halves == [name, value];
    assert halves[1..] == [value];
    assert Text.Join(halves[1..], "=") == value;
    DecodeEncode(p.0, Form);
    DecodeEncode(p.1, Form);
    assert [piece][1..] == [];
    assert ParsePieces([piece]) == Some([(p.0, p.1)] + []);
    assert [(p.0, p.1)] + [] == [p];
  }

  lemma {:induction false} ParseEncodedPieces(pairs: seq<(string, string)>)
    ensures ParsePieces(EncodePairs(pairs)) == Some(pairs)
  {
    if pairs != [] {
      ParseEncodedPair(pairs[0]);
      ParseEncodedPieces(pairs[1..]);
      assert EncodePairs(pairs)[1..] == EncodePairs(pairs[1..]);
      assert pairs == [pairs[0]] + pairs[1..];
    }
  }

  /** A serialised query string parses back to the same pairs, in order. */
  lemma ParseSerialize(pairs: seq<(string, string)>)
    ensures ParseQuery(Serialize(pairs)) == Some(pairs)
  {
    var pieces := EncodePairs(pairs);
    if pairs == [] {
      assert Serialize(pairs) == "";
      assert Text.Split("", '&') == [""];
      assert ParsePieces([""]) == ParsePieces([]);
    } else {
      forall i | 0 <= i < |pieces| ensures '&' !in pieces[i] {
        ParseEncodedPair(pairs[i]);
      }
      Text.SplitJoin(pieces, '&');
      assert Serialize(pairs) == Text.Join(pieces, ['&']);
      ParseEncodedPieces(pairs);
    }
  }
}
