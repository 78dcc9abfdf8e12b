/** Base64 as RFC 4648 section 4 defines it (standard alphabet, padded), the 76-column body the mail
    builders write with it, and the decoder a recipient runs. */
module Base64 {
  import opened Wrappers
  import opened Text
  import opened Utf8
  import opened Seqs

  const COLUMNS := 76

  function Digit(i: int): (c: char)
    requires 0 <= i < 64
    ensures c != '=' && c != '_' && '+' <= c <= 'z'
  {
    if i < 26 then 'A' + i as char
    else if i < 52 then 'a' + (i - 26) as char
    else if i < 62 then '0' + (i - 52) as char
    else if i == 62 then '+'
    else '/'
  }

  /** The value of a base64 digit, -1 for any other character. */
  function Value(c: char): (v: int)
    ensures -1 <= v < 64
  {
    if 'A' <= c <= 'Z' then c as int - 'A' as int
    else if 'a' <= c <= 'z' then c as int - 'a' as int + 26
    else if '0' <= c <= '9' then c as int - '0' as int + 52
    else if c == '+' then 62
    else if c == '/' then 63
    else -1
  }

  lemma ValueOfDigit(i: int)
    requires 0 <= i < 64
    ensures Value(Digit(i)) == i
  {
  }

  /** Three bytes as four digits. A short group is padded with zero bits and `=`. */
  function EncodeGroup(b: seq<byte>): (r: string)
    requires 1 <= |b| <= 3
    ensures |r| == 4
  {
    var b1 := if |b| > 1 then b[1] else 0;
    var b2 := if |b| > 2 then b[2] else 0;
    [Digit(b[0] / 4),
     Digit(b[0] % 4 * 16 + b1 / 16),
     if |b| > 1 then Digit(b1 % 16 * 4 + b2 / 64) else '=',
     if |b| > 2 then Digit(b2 % 64) else '=']
  }

  function Encode(data: seq<byte>): string {
    if data == [] then ""
    else if |data| <= 3 then EncodeGroup(data)
    else EncodeGroup(data[..3]) + Encode(data[3..])
  }

  /** Four characters back to one, two or three bytes. `None` for a character outside the alphabet,
      for padding in the wrong place, and for padding bits that are not zero. */
  function DecodeGroup(g: string): (r: Option<seq<byte>>)
    requires |g| == 4
    ensures r.Some? ==> 1 <= |r.value| <= 3
  {
    var v0, v1, v2, v3 := Value(g[0]), Value(g[1]), Value(g[2]), Value(g[3]);
    if v0 < 0 || v1 < 0 then None
    else if g[2] == '=' && g[3] == '=' then
      if v1 % 16 != 0 then None else Some([v0 * 4 + v1 / 16])
    else if v2 < 0 then None
    else if g[3] == '=' then
      if v2 % 4 != 0 then None else Some([v0 * 4 + v1 / 16, v1 % 16 * 16 + v2 / 4])
    else if v3 < 0 then None
    else Some([v0 * 4 + v1 / 16, v1 % 16 * 16 + v2 / 4, v2 % 4 * 64 + v3])
  }

  /** Only the last group may be short. */
  function Decode(s: string): Option<seq<byte>> {
    if s == "" then Some([])
    else if |s| < 4 then None
    else
      match DecodeGroup(s[..4])
      case None => None
      case Some(bytes) =>
        if |s| == 4 then Some(bytes)
        else if |bytes| < 3 then None
        else
          match Decode(s[4..])
          case None => None
          case Some(rest) => Some(bytes + rest)
  }

  /** The six-bit pieces put together again. */
  lemma Halves(a: byte, b: byte, c: byte)
    ensures a / 4 * 4 + (a % 4 * 16 + b / 16) / 16 == a
    ensures (a % 4 * 16 + b / 16) % 16 * 16 + (b % 16 * 4 + c / 64) / 4 == b
    ensures (b % 16 * 4 + c / 64) % 4 * 64 + c % 64 == c
  {
  }

  lemma GroupRoundTrip(b: seq<byte>)
    requires 1 <= |b| <= 3
    ensures DecodeGroup(EncodeGroup(b)) == Some(b)
  {
    var b1 := if |b| > 1 then b[1] else 0;
    var b2 := if |b| > 2 then b[2] else 0;
    var i0, i1, i2, i3 := b[0] / 4, b[0] % 4 * 16 + b1 / 16, b1 % 16 * 4 + b2 / 64, b2 % 64;
    ValueOfDigit(i0);
    ValueOfDigit(i1);
    ValueOfDigit(i2);
    ValueOfDigit(i3);
    Halves(b[0], b1, b2);
    if |b| == 1 {
      assert b == [b[0]];
    } else if |b| == 2 {
      assert b == [b[0], b[1]];
    } else {
      assert b == [b[0], b[1], b[2]];
    }
  }

  /** A recipient gets back exactly the bytes that were attached. */
  lemma {:induction false} RoundTrip(data: seq<byte>)
    ensures Decode(Encode(data)) == Some(data)
  {
    if data == [] {
    } else if |data| <= 3 {
      GroupRoundTrip(data);
      assert EncodeGroup(data)[..4] == EncodeGroup(data);
    } else {
      var e := EncodeGroup(data[..3]);
      GroupRoundTrip(data[..3]);
      RoundTrip(data[3..]);
      assert Encode(data)[..4] == e && Encode(data)[4..] == Encode(data[3..]);
      assert data == data[..3] + data[3..];
    }
  }

  /** The characters base64 text is made of: no `_` among them, and neither CR nor LF. */
  predicate InAlphabet(s: string) {
    forall i :: 0 <= i < |s| ==> s[i] == '=' || Value(s[i]) >= 0
  }

  lemma {:induction false} EncodeInAlphabet(data: seq<byte>)
    ensures InAlphabet(Encode(data))
  {
    if |data| > 3 {
      EncodeInAlphabet(data[3..]);
      GroupInAlphabet(data[..3]);
    } else if data != [] {
      GroupInAlphabet(data);
    }
  }

  lemma GroupInAlphabet(b: seq<byte>)
    requires 1 <= |b| <= 3
    ensures InAlphabet(EncodeGroup(b))
  {
    var b1 := if |b| > 1 then b[1] else 0;
    var b2 := if |b| > 2 then b[2] else 0;
    ValueOfDigit(b[0] / 4);
    ValueOfDigit(b[0] % 4 * 16 + b1 / 16);
    ValueOfDigit(b1 % 16 * 4 + b2 / 64);
    ValueOfDigit(b2 % 64);
  }

  // ---- The wrapped body ----------------------------------------------------------------------

  /** `s` cut into lines of 76, the last one possibly shorter; no line at all for no text. */
  function Chunks(s: string): (r: seq<string>)
    ensures forall i :: 0 <= i < |r| ==> 1 <= |r[i]| <= COLUMNS
  {
    if s == "" then []
    else if |s| <= COLUMNS then [s]
    else [s[..COLUMNS]] + Chunks(s[COLUMNS..])
  }

  function Concat(lines: seq<string>): string {
    if lines == [] then "" else lines[0] + Concat(lines[1..])
  }

  /** What `base64_body` writes for an attachment. */
  function Body(data: seq<byte>): string {
    Flat(Chunks(Encode(data)))
  }

  lemma {:induction false} ConcatChunks(s: string)
    ensures Concat(Chunks(s)) == s
  {
    if |s| > COLUMNS {
      ConcatChunks(s[COLUMNS..]);
      assert s == s[..COLUMNS] + s[COLUMNS..];
      assert Chunks(s)[1..] == Chunks(s[COLUMNS..]);
    } else if s != "" {
      assert Chunks(s)[1..] == [];
    }
  }

  lemma {:induction false} ChunksInAlphabet(s: string)
    requires InAlphabet(s)
    ensures forall i :: 0 <= i < |Chunks(s)| ==> InAlphabet(Chunks(s)[i])
  {
    if |s| > COLUMNS {
      ChunksInAlphabet(s[COLUMNS..]);
    }
  }

  /** The lines of an encoded attachment, joined, decode to its data; each is at most 76 long and
      free of CR and LF. */
  lemma BodyLines(data: seq<byte>)
    ensures var lines := Chunks(Encode(data));
            && Body(data) == Flat(lines)
            && Decode(Concat(lines)) == Some(data)
            && forall i :: 0 <= i < |lines| ==> |lines[i]| <= COLUMNS && NoLineBreak(lines[i])
  {
    RoundTrip(data);
    ConcatChunks(Encode(data));
    EncodeInAlphabet(data);
    ChunksInAlphabet(Encode(data));
    forall l | l in Chunks(Encode(data)) && InAlphabet(l) ensures NoLineBreak(l) {
      AlphabetHasNoBreak(l);
    }
  }

  lemma AlphabetHasNoBreak(l: string)
    requires InAlphabet(l)
    ensures NoLineBreak(l)
  {
  }

  /** `base64_body`: the chunks pushed one by one, each with its CRLF. */
  method EncodeBody(data: seq<byte>) returns (out: string)
    ensures out == Body(data)
  {
    var encoded := Encode(data);
    out := "";
    var at := 0;
    while at < |encoded|
      invariant 0 <= at <= |encoded|
      invariant out + Flat(Chunks(encoded[at..])) == Body(data)
    {
      var end := if at + COLUMNS < |encoded| then at + COLUMNS else |encoded|;
      ghost var rest := encoded[at..];
      if end < |encoded| {
        assert rest[COLUMNS..] == encoded[end..] && rest[..COLUMNS] == encoded[at..end];
        FirstLineOfFlat(encoded[at..end], Chunks(encoded[end..]));
      } else {
        assert rest == encoded[at..end];
        FirstLineOfFlat(rest, []);
        assert [rest] + [] == [rest];
      }
      out := out + encoded[at..end] + CRLF;
      at := end;
    }
    assert encoded[at..] == "";
  }

  // ---- The probe ------------------------------------------------------------------------------

  /** Encoded attachments can never spell the `=_` every boundary starts with. */
  lemma {:induction false} FlatLacksUnderscore(lines: seq<string>)
    requires forall i :: 0 <= i < |lines| ==> InAlphabet(lines[i])
    ensures '_' !in Flat(lines)
  {
    if lines != [] {
      FlatLacksUnderscore(lines[1..]);
    }
  }

  lemma BodyLacksUnderscore(data: seq<byte>)
    ensures '_' !in Body(data)
  {
    EncodeInAlphabet(data);
    ChunksInAlphabet(Encode(data));
    FlatLacksUnderscore(Chunks(Encode(data)));
  }
}
