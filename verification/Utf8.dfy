/** The UTF-8 bytes of a text (`str::as_bytes`, `String::into_bytes`) and the reader's way back. */
module Utf8 {
  import opened Wrappers
  import opened Seqs

  type byte = b: int | 0 <= b < 256

  predicate IsScalar(n: int) {
    0 <= n < 0xD800 || 0xE000 <= n < 0x11_0000
  }

  function EncodeChar(c: char): (r: seq<byte>)
    ensures 1 <= |r| <= 4
    ensures |r| == Width(c)
    ensures forall b <- r :: b >= 128 || c < 128 as char
  {
    var n := c as int;
    if n < 0x80 then [n]
    else if n < 0x800 then [0xC0 + n / 64, 0x80 + n % 64]
    else if n < 0x1_0000 then [0xE0 + n / 4096, 0x80 + n / 64 % 64, 0x80 + n % 64]
    else [0xF0 + n / 262144, 0x80 + n / 4096 % 64, 0x80 + n / 64 % 64, 0x80 + n % 64]
  }

  function Width(c: char): (w: nat)
  {
    var n := c as int;
    if n < 0x80 then 1 else if n < 0x800 then 2 else if n < 0x1_0000 then 3 else 4
  }

  function Encode(s: string): seq<byte> {
    if s == [] then [] else EncodeChar(s[0]) + Encode(s[1..])
  }

  /** How many bytes the character starting with `lead` takes, 0 for a byte that starts none. */
  function LeadWidth(lead: byte): nat {
    if lead < 0x80 then 1
    else if lead < 0xC0 then 0
    else if lead < 0xE0 then 2
    else if lead < 0xF0 then 3
    else if lead < 0xF8 then 4
    else 0
  }

  function CodePoint(b: seq<int>): int
    requires 1 <= |b| <= 4
  {
    if |b| == 1 then b[0]
    else if |b| == 2 then (b[0] - 0xC0) * 64 + (b[1] - 0x80)
    else if |b| == 3 then (b[0] - 0xE0) * 4096 + (b[1] - 0x80) * 64 + (b[2] - 0x80)
    else (b[0] - 0xF0) * 262144 + (b[1] - 0x80) * 4096 + (b[2] - 0x80) * 64 + (b[3] - 0x80)
  }

  /** `None` for bytes that are not UTF-8: each step must give back a scalar that encodes to the
      very bytes read, so overlong and surrogate spellings are refused. */
  function Decode(b: seq<byte>): Option<string> {
    if b == [] then Some("")
    else
      var w := LeadWidth(b[0]);
      if w == 0 || w > |b| then None
      else
        var n := CodePoint(b[..w]);
        if !IsScalar(n) || EncodeChar(n as char) != b[..w] then None
        else
          match Decode(b[w..])
          case None => None
          case Some(s) => Some([n as char] + s)
  }

  lemma CharRoundTrip(c: char)
    ensures LeadWidth(EncodeChar(c)[0]) == |EncodeChar(c)|
    ensures CodePoint(EncodeChar(c)) == c as int
  {
    var n := c as int;
    if n < 0x80 {
    } else if n < 0x800 {
    } else {
      SixBits(n);
    }
  }

  lemma SixBits(n: nat)
    ensures n / 4096 * 4096 + n / 64 % 64 * 64 + n % 64 == n
    ensures n / 262144 * 262144 + n / 4096 % 64 * 4096 + n / 64 % 64 * 64 + n % 64 == n
  {
    assert n / 4096 == n / 64 / 64 && n / 262144 == n / 4096 / 64;
  }

  /** Decoding undoes encoding, for every text. */
  lemma {:induction false} RoundTrip(s: string)
    ensures Decode(Encode(s)) == Some(s)
  {
    if s != [] {
      var e := EncodeChar(s[0]);
      var b := Encode(s);
      CharRoundTrip(s[0]);
      RoundTrip(s[1..]);
      assert b[0] == e[0];
      assert b[..|e|] == e && b[|e|..] == Encode(s[1..]);
      Uncons(s);
    }
  }
}
