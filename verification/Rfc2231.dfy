/** RFC 2231 extended parameter values: percent-encoded UTF-8, and the way back. */
module Rfc2231 {
  import opened Wrappers
  import opened Text
  import opened HeaderFields
  import opened Hex
  import opened Seqs
  import Utf8

  type byte = Utf8.byte

  const CHARSET: string := "utf-8''"

  /** The characters that go out as themselves. */
  predicate IsPlain(b: byte) {
    var c := b as char;
    IsAsciiAlphanumeric(c) || c in {'!', '#', '$', '&', '+', '-', '.', '^', '_', '`', '|', '~'}
  }

  function EncodeByte(b: byte): (r: string)
    ensures |r| == if IsPlain(b) then 1 else 3
  {
    if IsPlain(b) then [b as char] else ['%', HexDigit(b / 16), HexDigit(b % 16)]
  }

  function EncodeBytes(bytes: seq<byte>): string {
    if bytes == [] then "" else EncodeByte(bytes[0]) + EncodeBytes(bytes[1..])
  }

  function Encode(s: string): string {
    EncodeBytes(Utf8.Encode(s))
  }

  function DecodeBytes(s: string): Option<seq<byte>> {
    if s == "" then Some([])
    else if s[0] == '%' then
      if |s| < 3 || HexValue(s[1]) < 0 || HexValue(s[2]) < 0 then None
      else Prepend(HexValue(s[1]) * 16 + HexValue(s[2]), DecodeBytes(s[3..]))
    else if s[0] < 128 as char then Prepend(s[0] as int, DecodeBytes(s[1..]))
    else None
  }

  function Prepend(b: byte, rest: Option<seq<byte>>): Option<seq<byte>> {
    match rest
    case None => None
    case Some(bytes) => Some([b] + bytes)
  }

  /** An extended value as a recipient reads it: the charset it names must be UTF-8. */
  function DecodeValue(value: string): Option<string> {
    if !StartsWith(value, CHARSET) then None
    else
      match DecodeBytes(value[|CHARSET|..])
      case None => None
      case Some(bytes) => Utf8.Decode(bytes)
  }

  lemma {:induction false} BytesRoundTrip(bytes: seq<byte>)
    ensures DecodeBytes(EncodeBytes(bytes)) == Some(bytes)
  {
    if bytes != [] {
      var e, rest := EncodeByte(bytes[0]), EncodeBytes(bytes[1..]);
      BytesRoundTrip(bytes[1..]);
      HexRoundTrip(bytes[0] / 16);
      HexRoundTrip(bytes[0] % 16);
      assert (e + rest)[|e|..] == rest;
      assert forall i :: 0 <= i < |e| ==> (e + rest)[i] == e[i];
      Uncons(bytes);
    }
  }

  /** Reading the extended value gives the name back, for every name. */
  lemma RoundTrip(s: string)
    ensures DecodeValue(CHARSET + Encode(s)) == Some(s)
  {
    var v := CHARSET + Encode(s);
    assert v[..|CHARSET|] == CHARSET && v[|CHARSET|..] == Encode(s);
    BytesRoundTrip(Utf8.Encode(s));
    Utf8.RoundTrip(s);
  }

  /** Nothing in an encoded name can end the parameter or the line. */
  lemma {:induction false} EncodedIsInert(bytes: seq<byte>)
    ensures Plain(EncodeBytes(bytes)) && NoLineBreak(EncodeBytes(bytes))
  {
    if bytes != [] {
      EncodedIsInert(bytes[1..]);
      HexRoundTrip(bytes[0] / 16);
      HexRoundTrip(bytes[0] % 16);
    }
  }

  // ---- Length --------------------------------------------------------------------------------

  /** How many octets one character of a name costs once encoded. */
  function EncodedWidth(c: char): nat {
    if c < 128 as char && IsPlain(c as int) then 1 else 3 * Utf8.Width(c)
  }

  function EncodedLength(s: string): nat {
    if s == "" then 0 else EncodedWidth(s[0]) + EncodedLength(s[1..])
  }

  lemma {:induction false} BytesAppend(a: seq<byte>, b: seq<byte>)
    ensures EncodeBytes(a + b) == EncodeBytes(a) + EncodeBytes(b)
  {
    if a == [] {
      NilLeft(a, b);
    } else {
      TailOf(a, b);
      BytesAppend(a[1..], b);
    }
  }

  lemma {:induction false} HighBytesEscape(bytes: seq<byte>)
    requires forall i :: 0 <= i < |bytes| ==> bytes[i] >= 128
    ensures |EncodeBytes(bytes)| == 3 * |bytes|
  {
    if bytes != [] {
      assert !IsPlain(bytes[0]);
      HighBytesEscape(bytes[1..]);
    }
  }

  lemma CharLength(c: char)
    ensures |EncodeBytes(Utf8.EncodeChar(c))| == EncodedWidth(c)
  {
    var e := Utf8.EncodeChar(c);
    if c < 128 as char {
      assert e[1..] == [];
    } else {
      HighBytesEscape(e);
    }
  }

  lemma {:induction false} LengthIs(s: string)
    ensures |Encode(s)| == EncodedLength(s)
  {
    if s != "" {
      BytesAppend(Utf8.EncodeChar(s[0]), Utf8.Encode(s[1..]));
      CharLength(s[0]);
      LengthIs(s[1..]);
    }
  }
}
