/** Base64 in the URL alphabet without padding (RFC 4648 section 5), as cursors are written and read. */
module Base64Url {
  import opened Wrappers
  import opened Utf8

  function Digit(i: int): (c: char)
    requires 0 <= i < 64
  {
    if i < 26 then 'A' + i as char
    else if i < 52 then 'a' + (i - 26) as char
    else if i < 62 then '0' + (i - 52) as char
    else if i == 62 then '-'
    else '_'
  }

  function Value(c: char): (v: int)
    ensures -1 <= v < 64
  {
    if 'A' <= c <= 'Z' then c as int - 'A' as int
    else if 'a' <= c <= 'z' then c as int - 'a' as int + 26
    else if '0' <= c <= '9' then c as int - '0' as int + 52
    else if c == '-' then 62
    else if c == '_' then 63
    else -1
  }

  lemma ValueOfDigit(i: int)
    requires 0 <= i < 64
    ensures Value(Digit(i)) == i
  {
  }

  function EncodeGroup(b: seq<byte>): (r: string)
    requires 1 <= |b| <= 3
    ensures |r| == |b| + 1
  {
    var b1 := if |b| > 1 then b[1] else 0;
    var b2 := if |b| > 2 then b[2] else 0;
    [Digit(b[0] / 4), Digit(b[0] % 4 * 16 + b1 / 16)]
    + (if |b| > 1 then [Digit(b1 % 16 * 4 + b2 / 64)] else [])
    + if |b| > 2 then [Digit(b2 % 64)] else []
  }

  function Encode(data: seq<byte>): string {
    if data == [] then ""
    else if |data| <= 3 then EncodeGroup(data)
    else EncodeGroup(data[..3]) + Encode(data[3..])
  }

  /** Bits left over in a short group must be zero, or two spellings would stand for one value. */
  function DecodeGroup(g: string): (r: Option<seq<byte>>)
    requires |g| <= 4
  {
    if |g| < 2 || Value(g[0]) < 0 || Value(g[1]) < 0 then None
    else
      var first := Value(g[0]) * 4 + Value(g[1]) / 16;
      if |g| == 2 then if Value(g[1]) % 16 == 0 then Some([first]) else None
      else if Value(g[2]) < 0 then None
      else
        var second := Value(g[1]) % 16 * 16 + Value(g[2]) / 4;
        if |g| == 3 then if Value(g[2]) % 4 == 0 then Some([first, second]) else None
        else if Value(g[3]) < 0 then None
        else Some([first, second, Value(g[2]) % 4 * 64 + Value(g[3])])
  }

  function Decode(s: string): Option<seq<byte>> {
    if s == "" then Some([])
    else if |s| <= 4 then DecodeGroup(s)
    else
      match (DecodeGroup(s[..4]), Decode(s[4..]))
      case (Some(a), Some(b)) => Some(a + b)
      case _ => None
  }

  lemma OneByte(a: byte)
    ensures DecodeGroup(EncodeGroup([a])) == Some([a])
  {
    ValueOfDigit(a / 4);
    ValueOfDigit(a % 4 * 16);
    Halves(a, 0, 0);
  }

  lemma TwoBytes(a: byte, b: byte)
    ensures DecodeGroup(EncodeGroup([a, b])) == Some([a, b])
  {
    ValueOfDigit(a / 4);
    ValueOfDigit(a % 4 * 16 + b / 16);
    ValueOfDigit(b % 16 * 4);
    Halves(a, b, 0);
  }

  lemma ThreeBytes(a: byte, b: byte, c: byte)
    ensures DecodeGroup(EncodeGroup([a, b, c])) == Some([a, b, c])
  {
    ValueOfDigit(a / 4);
    ValueOfDigit(a % 4 * 16 + b / 16);
    ValueOfDigit(b % 16 * 4 + c / 64);
    ValueOfDigit(c % 64);
    Halves(a, b, c);
  }

  lemma GroupRoundTrip(b: seq<byte>)
    requires 1 <= |b| <= 3
    ensures DecodeGroup(EncodeGroup(b)) == Some(b)
  {
    if |b| == 1 {
      OneByte(b[0]);
      assert b == [b[0]];
    } else if |b| == 2 {
      TwoBytes(b[0], b[1]);
      assert b == [b[0], b[1]];
    } else {
      ThreeBytes(b[0], b[1], b[2]);
      assert b == [b[0], b[1], b[2]];
    }
  }

  lemma Halves(a: byte, b: byte, c: byte)
    ensures a / 4 * 4 + (a % 4 * 16 + b / 16) / 16 == a && (a % 4 * 16 + b / 16) % 16 == b / 16
    ensures b / 16 * 16 + (b % 16 * 4 + c / 64) / 4 == b && (b % 16 * 4 + c / 64) % 4 == c / 64
    ensures c / 64 * 64 + c % 64 == c
  {
  }

  /** Decoding undoes encoding for every byte string. */
  lemma {:induction false} RoundTrip(data: seq<byte>)
    ensures Decode(Encode(data)) == Some(data)
  {
    if data == [] {
    } else if |data| <= 3 {
      GroupRoundTrip(data);
    } else {
      var g, rest := EncodeGroup(data[..3]), Encode(data[3..]);
      GroupRoundTrip(data[..3]);
      RoundTrip(data[3..]);
      EncodedLength(data[3..]);
      assert (g + rest)[..4] == g && (g + rest)[4..] == rest;
      assert data == data[..3] + data[3..];
    }
  }

  /** Four characters for three bytes, rounded up. */
  lemma {:induction false} EncodedLength(data: seq<byte>)
    ensures |Encode(data)| == (4 * |data| + 2) / 3
  {
    if |data| > 3 {
      EncodedLength(data[3..]);
    }
  }
}
