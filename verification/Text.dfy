/** Text as a sequence of Unicode scalar values, the way a Rust `String` is seen through its `char`s:
    substring search, CRLF lines, and the newline normalisations the mail builders apply. */
module Text {
  import opened Seqs

  const CRLF: string := "\r\n"

  /** The Unicode `White_Space` property, which is what `char::is_whitespace` and `str::trim` test. */
  predicate IsWhitespace(c: char) {
    var n := c as int;
    9 <= n <= 13 || n == 32 || n == 0x85 || n == 0xA0 || n == 0x1680 || 0x2000 <= n <= 0x200A
    || n == 0x2028 || n == 0x2029 || n == 0x202F || n == 0x205F || n == 0x3000
  }

  /** The Unicode `Cc` category, which is what `char::is_control` tests. */
  predicate IsControl(c: char) {
    var n := c as int;
    n < 32 || 127 <= n < 160
  }

  predicate IsAsciiAlphanumeric(c: char) {
    'a' <= c <= 'z' || 'A' <= c <= 'Z' || '0' <= c <= '9'
  }

  function TrimStart(s: string): (r: string)
    ensures |r| <= |s| && s[|s| - |r|..] == r
  {
    if s != [] && IsWhitespace(s[0]) then TrimStart(s[1..]) else s
  }

  function TrimEnd(s: string): (r: string)
    ensures |r| <= |s| && s[..|r|] == r
  {
    if s != [] && IsWhitespace(s[|s| - 1]) then TrimEnd(s[..|s| - 1]) else s
  }

  function Trim(s: string): string {
    TrimEnd(TrimStart(s))
  }

  predicate IsBlank(s: string) {
    forall c <- s :: IsWhitespace(c)
  }

  predicate StartsWith(s: string, p: string) {
    |p| <= |s| && s[..|p|] == p
  }

  predicate EndsWith(s: string, p: string) {
    |p| <= |s| && s[|s| - |p|..] == p
  }

  function AsciiLower(c: char): char {
    if 'A' <= c <= 'Z' then c + 32 as char else c
  }

  function ToAsciiLower(s: string): (r: string)
    ensures |r| == |s|
    ensures forall i :: 0 <= i < |s| ==> r[i] == AsciiLower(s[i])
  {
    seq(|s|, i requires 0 <= i < |s| => AsciiLower(s[i]))
  }

  /** `p` stands in `s` at `i`. */
  predicate OccursAt(s: string, p: string, i: int) {
    0 <= i <= |s| - |p| && s[i..i + |p|] == p
  }

  /** `s.contains(p)`. */
  predicate Contains(s: string, p: string) {
    exists i | 0 <= i <= |s| :: OccursAt(s, p, i)
  }

  lemma ContainsWider(a: string, s: string, b: string, p: string)
    requires Contains(s, p)
    ensures Contains(a + s + b, p)
  {
    var i :| 0 <= i <= |s| && OccursAt(s, p, i);
    var w := a + s + b;
    assert w[|a| + i..|a| + i + |p|] == p;
    assert OccursAt(w, p, |a| + i);
  }

  predicate NoLineBreak(s: string) {
    '\r' !in s && '\n' !in s
  }

  // ---- CRLF lines ----------------------------------------------------------------------------

  /** Cut `s` at every CRLF. A lone CR or a lone LF is ordinary content. Never empty. */
  function Split(s: string): (r: seq<string>)
    ensures |r| >= 1
  {
    if s == [] then [""]
    else if StartsWith(s, CRLF) then [""] + Split(s[2..])
    else
      var rest := Split(s[1..]);
      [[s[0]] + rest[0]] + rest[1..]
  }

  /** The lines put back together, CRLF between them and none after the last. */
  function Join(lines: seq<string>): string {
    if lines == [] then ""
    else if |lines| == 1 then lines[0]
    else lines[0] + CRLF + Join(lines[1..])
  }

  /** The lines with a CRLF after every one of them. */
  function Flat(lines: seq<string>): string {
    if lines == [] then "" else lines[0] + CRLF + Flat(lines[1..])
  }

  lemma {:induction false} JoinSplit(s: string)
    ensures Join(Split(s)) == s
  {
    if s == [] {
    } else if StartsWith(s, CRLF) {
      JoinSplit(s[2..]);
      var rest := Split(s[2..]);
      assert ([""] + rest)[1..] == rest;
      assert s == CRLF + s[2..];
    } else {
      JoinSplit(s[1..]);
      var rest := Split(s[1..]);
      var r := Split(s);
      assert r[1..] == rest[1..];
      Uncons(s);
      if |rest| > 1 {
        assert Join(r) == ([s[0]] + rest[0]) + CRLF + Join(rest[1..]);
        assert Join(r) == [s[0]] + (rest[0] + CRLF + Join(rest[1..]));
      }
    }
  }

  /** Whatever stands before a CRLF splits on its own: the tool behind every statement about lines. */
  lemma {:induction false} SplitAt(a: string, b: string)
    ensures Split(a + CRLF + b) == Split(a) + Split(b)
  {
    var s := a + CRLF + b;
    if a == [] {
      assert s == CRLF + b;
      assert s[2..] == b;
    } else if StartsWith(a, CRLF) {
      assert s[..2] == a[..2];
      assert s[2..] == a[2..] + CRLF + b;
      SplitAt(a[2..], b);
    } else {
      assert !StartsWith(s, CRLF) by {
        if |a| == 1 { assert s[1] == '\r'; } else { assert s[..2] == a[..2]; }
      }
      assert s[1..] == a[1..] + CRLF + b;
      assert s[0] == a[0];
      SplitAt(a[1..], b);
    }
  }

  lemma {:induction false} SplitNoBreak(s: string)
    requires '\n' !in s
    ensures Split(s) == [s]
  {
    if s != [] {
      SplitNoBreak(s[1..]);
      Uncons(s);
      assert !StartsWith(s, CRLF) by {
        assert CRLF[1] == '\n';
      }
    }
  }

  /** Text free of line breaks only lengthens the first line of what follows it. */
  lemma {:induction false} SplitPrefix(p: string, s: string)
    requires NoLineBreak(p)
    ensures Split(p + s) == [p + Split(s)[0]] + Split(s)[1..]
  {
    if p == "" {
      NilLeft(p, s);
      assert p + Split(s)[0] == Split(s)[0];
    } else {
      SplitPrefix(p[1..], s);
      TailOf(p, s);
      CrlfHead(p + s);
      Recons(p, Split(s)[0]);
    }
  }

  /** A line: no CRLF inside. */
  predicate Atomic(l: string) {
    Split(l) == [l]
  }

  predicate AllAtomic(lines: seq<string>) {
    forall i :: 0 <= i < |lines| ==> Atomic(lines[i])
  }

  /** Lines written one after another, each with its CRLF, are the lines read back. */
  lemma {:induction false} SplitFlat(lines: seq<string>, tail: string)
    requires AllAtomic(lines)
    ensures Split(Flat(lines) + tail) == lines + Split(tail)
  {
    if lines == [] {
      assert Flat(lines) + tail == tail;
    } else {
      SplitFlat(lines[1..], tail);
      assert Atomic(lines[0]);
      SplitFlatStep(lines[0], Flat(lines[1..]) + tail, lines[1..] + Split(tail));
      Assoc(lines[0] + CRLF, Flat(lines[1..]), tail);
      Uncons(lines);
      Assoc([lines[0]], lines[1..], Split(tail));
    }
  }

  lemma SplitFlatStep(first: string, rest: string, lines: seq<string>)
    requires Split(first) == [first] && Split(rest) == lines
    ensures Split(first + CRLF + rest) == [first] + lines
  {
    SplitAt(first, rest);
  }

  lemma CrlfHead(s: string)
    ensures StartsWith(s, CRLF) <==> |s| >= 2 && s[0] == '\r' && s[1] == '\n'
  {
    if |s| >= 2 {
      assert s[..2] == [s[0], s[1]];
    }
  }

  lemma {:induction false} SplitAtomic(s: string)
    ensures AllAtomic(Split(s))
  {
    if s == [] {
    } else if StartsWith(s, CRLF) {
      SplitAtomic(s[2..]);
      assert Atomic("");
    } else {
      SplitAtomic(s[1..]);
      var rest := Split(s[1..]);
      FirstLinePrefix(s[1..]);
      var l := [s[0]] + rest[0];
      assert Atomic(rest[0]);
      assert l[1..] == rest[0];
      CrlfHead(s);
      CrlfHead(l);
      assert |l| > 1 ==> l[1] == s[1..][0];
    }
  }

  /** `{text}` followed by a CRLF is its lines, each with a CRLF. */
  lemma {:induction false} FlatIsJoin(lines: seq<string>)
    requires lines != []
    ensures Flat(lines) == Join(lines) + CRLF
  {
    if |lines| > 1 {
      FlatIsJoin(lines[1..]);
    } else {
      assert lines[1..] == [];
    }
  }

  lemma FlatSplit(s: string)
    ensures Flat(Split(s)) == s + CRLF
  {
    FlatIsJoin(Split(s));
    JoinSplit(s);
  }

  lemma {:induction false} FlatAppend(a: seq<string>, b: seq<string>)
    ensures Flat(a + b) == Flat(a) + Flat(b)
  {
    if a == [] {
      NilLeft(a, b);
    } else {
      TailOf(a, b);
      FlatAppend(a[1..], b);
    }
  }

  /** Every line of `s` is a contiguous stretch of `s`. */
  lemma {:induction false} LineContained(s: string, l: string, p: string)
    requires l in Split(s) && Contains(l, p)
    ensures Contains(s, p)
  {
    if s == [] {
    } else if StartsWith(s, CRLF) {
      if l in Split(s[2..]) {
        LineContained(s[2..], l, p);
        ContainsWider(s[..2], s[2..], "", p);
        assert s == s[..2] + s[2..] + "";
      } else {
        ContainsWider("", l, s, p);
        assert "" + l + s == s;
      }
    } else {
      var rest := Split(s[1..]);
      assert s == s[..1] + s[1..] + "";
      if l in rest[1..] {
        LineContained(s[1..], l, p);
        ContainsWider(s[..1], s[1..], "", p);
      } else {
        assert l == [s[0]] + rest[0];
        FirstLinePrefix(s);
        assert s == "" + l + s[|l|..];
        ContainsWider("", l, s[|l|..], p);
      }
    }
  }

  lemma {:induction false} FirstLinePrefix(s: string)
    ensures StartsWith(s, Split(s)[0])
  {
    if s != [] && !StartsWith(s, CRLF) {
      FirstLinePrefix(s[1..]);
      var l := Split(s)[0];
      assert s[1..][..|l| - 1] == l[1..];
      assert s[..|l|] == [s[0]] + s[1..][..|l| - 1];
    }
  }

  lemma PushLine(lines: seq<string>, l: string)
    ensures Flat(lines + [l]) == Flat(lines) + l + CRLF
  {
    FlatAppend(lines, [l]);
    assert [l][1..] == [];
    assert Flat([l]) == l + CRLF + "";
  }

  lemma FirstLineOfFlat(l: string, lines: seq<string>)
    ensures Flat([l] + lines) == l + CRLF + Flat(lines)
  {
    assert ([l] + lines)[1..] == lines;
  }

  // ---- Newline normalisation -----------------------------------------------------------------

  /** `replace("\r\n", "\n")`. */
  function CrlfToLf(s: string): string {
    if s == [] then ""
    else if StartsWith(s, CRLF) then "\n" + CrlfToLf(s[2..])
    else [s[0]] + CrlfToLf(s[1..])
  }

  /** `replace('\n', "\r\n")`. */
  function LfToCrlf(s: string): string {
    if s == [] then ""
    else if s[0] == '\n' then CRLF + LfToCrlf(s[1..])
    else [s[0]] + LfToCrlf(s[1..])
  }

  /** `replace('\r', "\n")`. */
  function CrToLf(s: string): string {
    seq(|s|, i requires 0 <= i < |s| => if s[i] == '\r' then '\n' else s[i])
  }

  /** What a reply does to its bodies: every line feed ends up behind exactly one carriage return it
      was given, a lone CR is left alone. */
  function NormalizeReply(s: string): string {
    LfToCrlf(CrlfToLf(s))
  }

  /** What a forward does to its bodies: a lone CR is a line break too. */
  function NormalizeForward(s: string): string {
    LfToCrlf(CrToLf(CrlfToLf(s)))
  }
}
