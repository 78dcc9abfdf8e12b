/** Quoted-printable: the encoder a forward's bodies go through, and the decoder of RFC 2045
    section 6.7 that a recipient runs. */
module QuotedPrintable {
  import opened Wrappers
  import opened Text
  import opened Utf8
  import opened Hex
  import opened Seqs

  /** The longest line allowed, the `=` of a soft break included. */
  const MAX_LINE := 76
  const SOFT_BREAK: string := "=\r\n"

  predicate AtCrlf(t: seq<byte>) {
    |t| >= 2 && t[0] == 13 && t[1] == 10
  }

  /** Whitespace that nothing but a line end follows. */
  predicate EndsLine(t: seq<byte>)
    requires t != []
  {
    t[0] in {32, 9} && (|t| == 1 || AtCrlf(t[1..]))
  }

  predicate MustEscape(t: seq<byte>)
    requires t != []
  {
    t[0] == 61 || !(32 <= t[0] <= 126) || EndsLine(t)
  }

  /** How the first byte of `t` is spelled: itself, or `=XX`. */
  function Token(t: seq<byte>): (r: string)
    requires t != []
    ensures |r| == 1 || |r| == 3
  {
    if MustEscape(t) then ['=', HexDigit(t[0] / 16), HexDigit(t[0] % 16)] else [t[0] as char]
  }

  predicate Overflows(t: seq<byte>, line: nat)
    requires t != []
  {
    line + |Token(t)| > MAX_LINE - 1
  }

  /** The encoding of `t` when `line` characters already stand on the current line. */
  function EncodeFrom(t: seq<byte>, line: nat): string {
    if t == [] then ""
    else if AtCrlf(t) then CRLF + EncodeFrom(t[2..], 0)
    else if Overflows(t, line) then SOFT_BREAK + (Token(t) + EncodeFrom(t[1..], |Token(t)|))
    else Token(t) + EncodeFrom(t[1..], line + |Token(t)|)
  }

  function Encode(t: seq<byte>): string {
    EncodeFrom(t, 0)
  }

  /** `qp_encode`: one pass with the column count in `line`. */
  method QpEncode(text: seq<byte>) returns (out: string)
    ensures out == Encode(text)
  {
    out := "";
    var line, i := 0, 0;
    while i < |text|
      invariant 0 <= i <= |text| && line >= 0
      invariant out + EncodeFrom(text[i..], line) == Encode(text)
    {
      if text[i] == 13 && i + 1 < |text| && text[i + 1] == 10 {
        CrlfStep(text[i..], line);
        DropTwice(text, i, 2);
        Assoc(out, CRLF, EncodeFrom(text[i + 2..], 0));
        out := out + CRLF;
        line := 0;
        i := i + 2;
      } else {
        var token := Token(text[i..]);
        TokenStep(out, text[i..], line);
        OneFurther(text, i);
        if line + |token| > MAX_LINE - 1 {
          out := out + SOFT_BREAK;
          line := 0;
        }
        out := out + token;
        line := line + |token|;
        i := i + 1;
      }
    }
    assert text[i..] == [];
  }

  lemma CrlfStep(t: seq<byte>, line: nat)
    requires AtCrlf(t)
    ensures EncodeFrom(t, line) == CRLF + EncodeFrom(t[2..], 0)
  {
  }

  lemma TokenStep(out: string, t: seq<byte>, line: nat)
    requires t != [] && !AtCrlf(t)
    ensures var token := Token(t);
            out + EncodeFrom(t, line)
            == if Overflows(t, line) then (out + SOFT_BREAK) + token + EncodeFrom(t[1..], |token|)
               else out + token + EncodeFrom(t[1..], line + |token|)
  {
    var token := Token(t);
    if Overflows(t, line) {
      Assoc(out, SOFT_BREAK, token + EncodeFrom(t[1..], |token|));
      Assoc(out + SOFT_BREAK, token, EncodeFrom(t[1..], |token|));
    } else {
      Assoc(out, token, EncodeFrom(t[1..], line + |token|));
    }
  }

  // ---- The recipient's side ------------------------------------------------------------------

  predicate IsBlankChar(c: char) {
    c == ' ' || c == '\t'
  }

  /** Nothing but blanks up to the end of the line. */
  predicate BlankToLineEnd(s: string) {
    s == "" || StartsWith(s, CRLF) || (IsBlankChar(s[0]) && BlankToLineEnd(s[1..]))
  }

  /** What a relay that trims trailing white space leaves, and what a decoder must ignore. */
  function StripTrailingBlanks(s: string): string {
    if s == "" then ""
    else if IsBlankChar(s[0]) && BlankToLineEnd(s[1..]) then StripTrailingBlanks(s[1..])
    else [s[0]] + StripTrailingBlanks(s[1..])
  }

  function DecodeTokens(s: string): Option<seq<byte>> {
    if s == "" then Some([])
    else if StartsWith(s, SOFT_BREAK) then DecodeTokens(s[3..])
    else if s[0] == '=' then
      if |s| < 3 || HexValue(s[1]) < 0 || HexValue(s[2]) < 0 then None
      else Prepend(HexValue(s[1]) * 16 + HexValue(s[2]), DecodeTokens(s[3..]))
    else if s[0] < 128 as char then Prepend(s[0] as int, DecodeTokens(s[1..]))
    else None
  }

  function Prepend(b: byte, rest: Option<seq<byte>>): Option<seq<byte>> {
    match rest
    case None => None
    case Some(bytes) => Some([b] + bytes)
  }

  function Decode(s: string): Option<seq<byte>> {
    DecodeTokens(StripTrailingBlanks(s))
  }

  lemma TokenShape(t: seq<byte>)
    requires t != [] && !AtCrlf(t)
    ensures var k := Token(t);
            && NoLineBreak(k)
            && (|k| == 3 ==> k[0] == '=' && HexValue(k[1]) * 16 + HexValue(k[2]) == t[0]
                             && HexValue(k[1]) >= 0 && HexValue(k[2]) >= 0)
            && (|k| == 1 ==> k[0] != '=' && k[0] < 128 as char && k[0] as int == t[0] && !EndsLine(t))
            && !IsBlankChar(k[|k| - 1]) == (|k| == 3 || t[0] !in {32, 9})
            && k[|k| - 1] != '='
            && (|k| == 3 ==> k[1] != '_' && k[1] != '=' && k[2] != '_')
  {
    HexRoundTrip(t[0] / 16);
    HexRoundTrip(t[0] % 16);
  }

  lemma DecodeToken(k: string, t: seq<byte>, rest: string)
    requires t != [] && !AtCrlf(t) && k == Token(t)
    ensures DecodeTokens(k + rest) == Prepend(t[0], DecodeTokens(rest))
  {
    TokenShape(t);
    var s := k + rest;
    assert s[|k|..] == rest;
    if |k| == 3 {
      assert s[1] == k[1] && s[2] == k[2];
      assert !StartsWith(s, SOFT_BREAK) by {
        assert SOFT_BREAK[1] == '\r';
      }
    }
  }

  lemma DecodeSoftBreak(rest: string)
    ensures DecodeTokens(SOFT_BREAK + rest) == DecodeTokens(rest)
  {
    var s := SOFT_BREAK + rest;
    assert s[..3] == SOFT_BREAK && s[3..] == rest;
  }

  lemma DecodePlain(c: char, rest: string)
    requires c != '=' && c < 128 as char
    ensures DecodeTokens([c] + rest) == Prepend(c as int, DecodeTokens(rest))
  {
    TailOf([c], rest);
    NilLeft([c][1..], rest);
  }

  lemma CrlfApart(rest: string)
    ensures CRLF + rest == ['\r'] + (['\n'] + rest)
  {
  }

  lemma DecodeCrlf(rest: string)
    ensures DecodeTokens(CRLF + rest) == Prepend(13, Prepend(10, DecodeTokens(rest)))
  {
    CrlfApart(rest);
    DecodePlain('\n', rest);
    DecodePlain('\r', ['\n'] + rest);
  }

  lemma CrlfBytes(t: seq<byte>)
    requires AtCrlf(t)
    ensures t == [13] + ([10] + t[2..])
  {
  }

  lemma {:induction false} TokensRoundTrip(t: seq<byte>, line: nat)
    ensures DecodeTokens(EncodeFrom(t, line)) == Some(t)
  {
    if t == [] {
    } else if AtCrlf(t) {
      TokensRoundTrip(t[2..], 0);
      DecodeCrlf(EncodeFrom(t[2..], 0));
      CrlfBytes(t);
    } else {
      var k := Token(t);
      Uncons(t);
      if Overflows(t, line) {
        TokensRoundTrip(t[1..], |k|);
        var rest := EncodeFrom(t[1..], |k|);
        DecodeSoftBreak(k + rest);
        DecodeToken(k, t, rest);
      } else {
        TokensRoundTrip(t[1..], line + |k|);
        DecodeToken(k, t, EncodeFrom(t[1..], line + |k|));
      }
    }
  }

  /** The encoder never leaves a blank where a line ends. */
  lemma {:induction false} BlankTail(t: seq<byte>, line: nat)
    ensures BlankToLineEnd(EncodeFrom(t, line)) <==> t == [] || AtCrlf(t)
  {
    if t != [] {
      var s := EncodeFrom(t, line);
      if AtCrlf(t) {
        assert s[..2] == CRLF;
      } else if Overflows(t, line) {
        assert s[0] == '=';
      } else {
        TokenShape(t);
        var k := Token(t);
        assert s[0] == k[0] && s[0] != '\r';
        if |k| == 1 && IsBlankChar(k[0]) {
          BlankTail(t[1..], line + 1);
          assert s[1..] == EncodeFrom(t[1..], line + 1);
        }
      }
    }
  }

  lemma StripOne(c: char, rest: string)
    requires IsBlankChar(c) ==> !BlankToLineEnd(rest)
    ensures StripTrailingBlanks([c] + rest) == [c] + StripTrailingBlanks(rest)
  {
    assert ([c] + rest)[1..] == rest;
  }

  lemma {:induction false} StripKeeps(k: string, rest: string)
    requires forall i :: 0 <= i < |k| - 1 ==> !IsBlankChar(k[i])
    requires k != "" && IsBlankChar(k[|k| - 1]) ==> !BlankToLineEnd(rest)
    ensures StripTrailingBlanks(k + rest) == k + StripTrailingBlanks(rest)
  {
    if k == "" {
      NilLeft(k, rest);
    } else if |k| == 1 {
      StripOne(k[0], rest);
      assert k == [k[0]];
    } else {
      StripKeeps(k[1..], rest);
      StripOne(k[0], k[1..] + rest);
      assert k + rest == [k[0]] + (k[1..] + rest);
      assert k + StripTrailingBlanks(rest) == [k[0]] + (k[1..] + StripTrailingBlanks(rest));
    }
  }

  lemma {:induction false} StripIsIdentity(t: seq<byte>, line: nat)
    ensures StripTrailingBlanks(EncodeFrom(t, line)) == EncodeFrom(t, line)
  {
    if t == [] {
    } else if AtCrlf(t) {
      StripIsIdentity(t[2..], 0);
      StripKeeps(CRLF, EncodeFrom(t[2..], 0));
    } else {
      var k := Token(t);
      var next := if Overflows(t, line) then |k| else line + |k|;
      var rest := EncodeFrom(t[1..], next);
      TokenShape(t);
      BlankTail(t[1..], next);
      StripIsIdentity(t[1..], next);
      StripKeeps(k, rest);
      if Overflows(t, line) {
        StripKeeps(SOFT_BREAK, k + rest);
      }
    }
  }

  /** Decoding undoes encoding for every byte string, whether or not a relay trimmed the lines. */
  lemma RoundTrip(t: seq<byte>)
    ensures Decode(Encode(t)) == Some(t)
    ensures StripTrailingBlanks(Encode(t)) == Encode(t)
  {
    TokensRoundTrip(t, 0);
    StripIsIdentity(t, 0);
  }

  // ---- The shape of the lines ----------------------------------------------------------------

  /** A line made of whole tokens, with at most the `=` of a soft break behind them. */
  predicate WholeTokens(l: string) {
    l == "" || l == "="
    || (if l[0] == '=' then |l| >= 3 && HexValue(l[1]) >= 0 && HexValue(l[2]) >= 0 && WholeTokens(l[3..])
        else 32 <= l[0] as int <= 126 && WholeTokens(l[1..]))
  }

  predicate GoodLine(l: string) {
    |l| <= MAX_LINE && WholeTokens(l) && (l != "" ==> !IsBlankChar(l[|l| - 1]))
  }

  predicate GoodLines(lines: seq<string>) {
    forall i :: 0 <= i < |lines| ==> GoodLine(lines[i])
  }

  lemma TokenOnLine(k: string, t: seq<byte>, l: string, room: int)
    requires t != [] && !AtCrlf(t) && k == Token(t)
    requires GoodLine(l) && |l| + |k| <= room <= MAX_LINE
    requires l == "" && |k| == 1 ==> !IsBlankChar(k[0])
    ensures GoodLine(k + l) && |k + l| <= room
  {
    TokenShape(t);
    assert (k + l)[|k|..] == l;
    if |k| == 3 {
      assert (k + l)[1] == k[1] && (k + l)[2] == k[2];
    }
    if l != "" {
      assert (k + l)[|k + l| - 1] == l[|l| - 1];
    }
  }

  /** One token in front of good lines, with `line` characters already on its own line. */
  lemma TokenBeforeLines(t: seq<byte>, rest: string, line: nat)
    requires t != [] && !AtCrlf(t) && line + |Token(t)| <= MAX_LINE - 1
    requires GoodLines(Split(rest)) && |Split(rest)[0]| + (line + |Token(t)|) <= MAX_LINE
    requires Split(rest)[0] == "" ==> t[1..] == [] || AtCrlf(t[1..])
    ensures var lines := Split(Token(t) + rest);
            GoodLines(lines) && |lines[0]| + line <= MAX_LINE && lines[0] != ""
  {
    var k := Token(t);
    TokenShape(t);
    SplitPrefix(k, rest);
    assert EndsLine(t) <==> t[0] in {32, 9} && (t[1..] == [] || AtCrlf(t[1..]));
    TokenOnLine(k, t, Split(rest)[0], MAX_LINE - line);
  }

  lemma SoftBreakBeforeLines(rest: string)
    requires GoodLines(Split(rest))
    ensures Split(SOFT_BREAK + rest) == ["="] + Split(rest)
    ensures GoodLines(Split(SOFT_BREAK + rest))
  {
    SplitAt("=", rest);
    assert "=" + CRLF + rest == SOFT_BREAK + rest;
    SplitNoBreak("=");
  }

  lemma CrlfBeforeLines(rest: string)
    requires GoodLines(Split(rest))
    ensures GoodLines(Split(CRLF + rest)) && Split(CRLF + rest)[0] == ""
  {
    SplitAt("", rest);
    assert "" + CRLF + rest == CRLF + rest;
  }

  lemma {:induction false} LinesAreGood(t: seq<byte>, line: nat)
    requires line <= MAX_LINE - 1
    ensures GoodLines(Split(EncodeFrom(t, line)))
    ensures |Split(EncodeFrom(t, line))[0]| + line <= MAX_LINE
    ensures Split(EncodeFrom(t, line))[0] == "" ==> t == [] || AtCrlf(t)
  {
    if t == [] {
    } else if AtCrlf(t) {
      LinesAreGood(t[2..], 0);
      CrlfBeforeLines(EncodeFrom(t[2..], 0));
    } else if Overflows(t, line) {
      var k := Token(t);
      LinesAreGood(t[1..], |k|);
      TokenBeforeLines(t, EncodeFrom(t[1..], |k|), 0);
      SoftBreakBeforeLines(k + EncodeFrom(t[1..], |k|));
    } else {
      var k := Token(t);
      LinesAreGood(t[1..], line + |k|);
      TokenBeforeLines(t, EncodeFrom(t[1..], line + |k|), line);
    }
  }

  /** RFC 2045 section 6.7: no line over 76, none ending in white space, no token cut in two. */
  lemma EncodedLines(t: seq<byte>)
    ensures GoodLines(Split(Encode(t)))
  {
    LinesAreGood(t, 0);
  }

  /** A space is written literally exactly when it does not end its line; a tab never is. */
  lemma BlankIsLiteral(t: seq<byte>)
    requires t != [] && t[0] in {32, 9}
    ensures Token(t) == [t[0] as char] <==> t[0] == 32 && t[1..] != [] && !AtCrlf(t[1..])
  {
    assert |Token(t)| == 1 <==> t[0] == 32 && t[1..] != [] && !AtCrlf(t[1..]);
  }

  lemma {:induction false} WholeTokensHoldNoTab(l: string)
    requires WholeTokens(l)
    ensures '\t' !in l
  {
    if l != "" && l != "=" {
      var n := if l[0] == '=' then 3 else 1;
      WholeTokensHoldNoTab(l[n..]);
      assert forall i :: n <= i < |l| ==> l[i] == l[n..][i - n];
    }
  }

  /** So no line of an encoded text holds a tab, whatever the text was. */
  lemma NoTabIsWritten(t: seq<byte>)
    ensures forall i :: 0 <= i < |Split(Encode(t))| ==> '\t' !in Split(Encode(t))[i]
  {
    EncodedLines(t);
    forall i | 0 <= i < |Split(Encode(t))| ensures '\t' !in Split(Encode(t))[i] {
      assert GoodLine(Split(Encode(t))[i]);
      WholeTokensHoldNoTab(Split(Encode(t))[i]);
    }
  }

  // ---- The probe -----------------------------------------------------------------------------

  predicate SpellsEqualsUnderscore(s: string) {
    exists i :: 0 <= i < |s| - 1 && s[i] == '=' && s[i + 1] == '_'
  }

  /** `=` survives only as `=XX` or a soft break, so the `=_` of a boundary cannot be spelled. */
  lemma {:induction false} EncodedLacksEqualsUnderscore(t: seq<byte>, line: nat)
    ensures !SpellsEqualsUnderscore(EncodeFrom(t, line))
  {
    if t == [] {
    } else if AtCrlf(t) {
      EncodedLacksEqualsUnderscore(t[2..], 0);
      JoinLacks(CRLF, EncodeFrom(t[2..], 0));
    } else {
      var k := Token(t);
      var next := if Overflows(t, line) then |k| else line + |k|;
      EncodedLacksEqualsUnderscore(t[1..], next);
      TokenShape(t);
      JoinLacks(k, EncodeFrom(t[1..], next));
      if Overflows(t, line) {
        JoinLacks(SOFT_BREAK, k + EncodeFrom(t[1..], next));
      }
    }
  }

  lemma JoinLacks(a: string, b: string)
    requires !SpellsEqualsUnderscore(a) && !SpellsEqualsUnderscore(b)
    requires a != "" && a[|a| - 1] != '='
    ensures !SpellsEqualsUnderscore(a + b)
  {
    var s := a + b;
    forall i | 0 <= i < |s| - 1
      ensures !(s[i] == '=' && s[i + 1] == '_')
    {
      if i + 1 < |a| {
        assert s[i] == a[i] && s[i + 1] == a[i + 1];
      } else if i >= |a| {
        assert s[i] == b[i - |a|] && s[i + 1] == b[i - |a| + 1];
      }
    }
  }
}
