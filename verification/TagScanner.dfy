/** The attribute scanner of `strip_charset_meta` against tags written from known attributes: what is
    inside a quoted value is never read as structure, and only names declare. */
module TagScanner {
  import opened Wrappers
  import opened Text
  import opened CharsetMeta
  import opened Seqs

  /** `tag_attributes`: one pass over the tag with the indices of the source. */
  method ReadAttributes(tag: string) returns (out: seq<Attribute>)
    ensures out == TagAttributes(tag)
  {
    var first := FirstWhitespace(tag);
    if first.None? {
      return [];
    }
    var i := first.value;
    out := [];
    while i < |tag|
      invariant 0 <= i <= |tag|
      invariant out + AttributesFrom(tag[i..]) == TagAttributes(tag)
      decreases |tag| - i
    {
      var step;
      ghost var t;
      step, t := NextAttribute(tag[i..]);
      if step.None? {
        AttributesStop(tag[i..], t);
        return;
      }
      OneTurn(tag, i, t, step.value.0, step.value.1);
      Assoc(out, step.value.0, AttributesFrom(tag[i + step.value.1..]));
      out := out + step.value.0;
      i := i + step.value.1;
    }
    AttributesStop(tag[i..], "");
  }

  lemma OneTurn(tag: string, i: nat, t: string, a: seq<Attribute>, k: nat)
    requires i + k <= |tag| && t == SkipSeparators(tag[i..]) && !ListEnds(t) && !IsSeparator(t[0])
    requires ReadAttribute(t) == (a, tag[i..][k..])
    ensures AttributesFrom(tag[i..]) == a + AttributesFrom(tag[i + k..])
  {
    DropTwice(tag, i, k);
    AttributesStep(tag[i..], t, a, tag[i + k..]);
  }

  method PassSeparators(s: string) returns (i: nat)
    ensures i <= |s| && s[i..] == SkipSeparators(s)
    ensures i < |s| ==> !IsSeparator(s[i])
  {
    i := 0;
    while i < |s| && IsSeparator(s[i])
      invariant 0 <= i <= |s| && SkipSeparators(s) == SkipSeparators(s[i..])
    {
      OneFurther(s, i);
      i := i + 1;
    }
  }

  method PassWhitespace(s: string) returns (i: nat)
    ensures i <= |s| && s[i..] == SkipWhitespace(s)
  {
    i := 0;
    while i < |s| && IsAsciiWhitespace(s[i])
      invariant 0 <= i <= |s| && SkipWhitespace(s) == SkipWhitespace(s[i..])
    {
      OneFurther(s, i);
      i := i + 1;
    }
  }

  method PassName(s: string) returns (n: nat)
    ensures n == NameLength(s)
  {
    n := 0;
    while n < |s| && !EndsName(s[n])
      invariant 0 <= n <= |s| && NameLength(s) == n + NameLength(s[n..])
    {
      OneFurther(s, n);
      n := n + 1;
    }
  }

  method PassQuoted(s: string, quote: char) returns (m: nat)
    ensures m == QuotedLength(s, quote)
  {
    m := 0;
    while m < |s| && s[m] != quote
      invariant 0 <= m <= |s| && QuotedLength(s, quote) == m + QuotedLength(s[m..], quote)
    {
      OneFurther(s, m);
      m := m + 1;
    }
  }

  method PassUnquoted(s: string) returns (m: nat)
    ensures m == UnquotedLength(s)
  {
    m := 0;
    while m < |s| && !IsAsciiWhitespace(s[m]) && s[m] != '>'
      invariant 0 <= m <= |s| && UnquotedLength(s) == m + UnquotedLength(s[m..])
    {
      OneFurther(s, m);
      m := m + 1;
    }
  }

  /** The value after an `=`, and how much of the text it took. */
  method NextValue(s: string) returns (value: string, k: nat)
    ensures k <= |s| && ReadValue(s) == (value, s[k..])
  {
    var j := PassWhitespace(s);
    var v := s[j..];
    if v != "" && IsQuote(v[0]) {
      value, k := QuotedValue(v);
    } else {
      k := PassUnquoted(v);
      value := v[..k];
    }
    ReadValueAt(s, v, value, k);
    DropTwice(s, j, k);
    k := j + k;
  }

  lemma ReadValueAt(s: string, v: string, value: string, k: nat)
    requires v == SkipWhitespace(s) && k <= |v|
    requires if v != "" && IsQuote(v[0]) then
               var n := QuotedLength(v[1..], v[0]);
               value == v[1..][..n] && v[k..] == if n < |v[1..]| then v[1..][n + 1..] else ""
             else k == UnquotedLength(v) && value == v[..k]
    ensures ReadValue(s) == (value, v[k..])
  {
  }

  method QuotedValue(v: string) returns (value: string, k: nat)
    requires v != "" && IsQuote(v[0])
    ensures var body := v[1..];
            var n := QuotedLength(body, v[0]);
            k <= |v| && value == body[..n] && v[k..] == if n < |body| then body[n + 1..] else ""
  {
    var body := v[1..];
    var m := PassQuoted(body, v[0]);
    value := body[..m];
    k := if m < |body| then m + 2 else |v|;
  }

  /** The attribute a text starts with, and how much of the text it took. */
  method NextNamed(t: string) returns (a: seq<Attribute>, k: nat)
    requires t != "" && !IsSeparator(t[0]) && t[0] != '>'
    ensures 0 < k <= |t| && ReadAttribute(t) == (a, t[k..])
  {
    var n := PassName(t);
    var j := PassWhitespace(t[n..]);
    var u := t[n..][j..];
    if u != "" && u[0] == '=' {
      var value, m := NextValue(u[1..]);
      k := n + j + 1 + m;
      assert u[1..][m..] == t[k..];
      a := if n > 0 then [Attribute(t[..n], value)] else [];
    } else {
      a, k := [Attribute(t[..n], "")], n;
    }
  }

  lemma AttributesStep(s: string, t: string, a: seq<Attribute>, rest: string)
    requires SkipSeparators(s) == t && t != "" && !IsSeparator(t[0]) && t[0] != '>' && ReadAttribute(t) == (a, rest)
    ensures AttributesFrom(s) == a + AttributesFrom(rest)
  {
  }

  lemma AttributesStop(s: string, t: string)
    requires SkipSeparators(s) == t && (t == "" || t[0] == '>')
    ensures AttributesFrom(s) == []
  {
  }

  predicate ListEnds(t: string) {
    t == "" || t[0] == '>'
  }

  /** One turn of the loop: nothing at the end of the list, otherwise at most one attribute and how far
      the index moves. */
  method NextAttribute(s: string) returns (r: Option<(seq<Attribute>, nat)>, ghost t: string)
    ensures t == SkipSeparators(s) && (r.None? <==> ListEnds(t)) && (r.Some? ==> !IsSeparator(t[0]))
    ensures r.Some? ==> 0 < r.value.1 <= |s| && ReadAttribute(t) == (r.value.0, s[r.value.1..])
  {
    var i := PassSeparators(s);
    t := s[i..];
    if i == |s| || s[i] == '>' {
      r := None;
    } else {
      var a, k := NextNamed(s[i..]);
      DropTwice(s, i, k);
      r := Some((a, i + k));
    }
  }

  // ---- Tags written from attributes ----------------------------------------------------------

  predicate IsNameChar(c: char) {
    !EndsName(c) && !IsQuote(c)
  }

  /** A name the scanner takes whole, and a value that may hold anything but a double quote. */
  predicate Writable(a: Attribute) {
    a.name != "" && '"' !in a.value && forall i :: 0 <= i < |a.name| ==> IsNameChar(a.name[i])
  }

  predicate AllWritable(attrs: seq<Attribute>) {
    forall i :: 0 <= i < |attrs| ==> Writable(attrs[i])
  }

  /** ` name="value"` after `name="value"`, then the `>`. */
  function WriteFrom(attrs: seq<Attribute>): string {
    if attrs == [] then ">"
    else " " + (attrs[0].name + ("=\"" + (attrs[0].value + ("\"" + WriteFrom(attrs[1..])))))
  }

  function WriteTag(attrs: seq<Attribute>): string {
    META + WriteFrom(attrs)
  }

  lemma {:induction false} NameTaken(name: string, rest: string)
    requires forall i :: 0 <= i < |name| ==> IsNameChar(name[i])
    requires rest != "" && EndsName(rest[0])
    ensures NameLength(name + rest) == |name|
  {
    if name == "" {
      NilLeft(name, rest);
    } else {
      TailOf(name, rest);
      NameTaken(name[1..], rest);
    }
  }

  lemma {:induction false} QuotedTaken(value: string, rest: string)
    requires '"' !in value
    ensures QuotedLength(value + ("\"" + rest), '"') == |value|
  {
    var s := value + ("\"" + rest);
    if value != "" {
      assert s[1..] == value[1..] + ("\"" + rest);
      QuotedTaken(value[1..], rest);
    }
  }

  lemma ValueTaken(value: string, rest: string)
    requires '"' !in value
    ensures ReadValue("\"" + (value + ("\"" + rest))) == (value, rest)
  {
    var body := value + ("\"" + rest);
    var s := "\"" + body;
    assert s[1..] == body;
    QuotedTaken(value, rest);
    assert body[..|value|] == value;
    assert body[|value| + 1..] == rest;
  }

  lemma NamedTaken(a: Attribute, rest: string)
    requires Writable(a)
    ensures var t := a.name + ("=" + ("\"" + (a.value + ("\"" + rest))));
            !IsSeparator(t[0]) && t[0] != '>' && ReadAttribute(t) == ([a], rest)
  {
    var quoted := "\"" + (a.value + ("\"" + rest));
    var tail := "=" + quoted;
    var t := a.name + tail;
    assert t[0] == a.name[0];
    NameTaken(a.name, tail);
    assert t[|a.name|..] == tail && t[..|a.name|] == a.name;
    assert SkipWhitespace(tail) == tail;
    assert tail[1..] == quoted;
    ValueTaken(a.value, rest);
  }

  lemma EqualsQuote(x: string)
    ensures "=\"" + x == "=" + ("\"" + x)
  {
  }

  lemma SpaceSkipped(t: string)
    requires t != "" && !IsSeparator(t[0])
    ensures SkipSeparators(" " + t) == t
  {
    assert (" " + t)[1..] == t;
  }

  lemma AttributeTaken(a: Attribute, rest: string)
    requires Writable(a)
    ensures AttributesFrom(" " + (a.name + ("=\"" + (a.value + ("\"" + rest))))) == [a] + AttributesFrom(rest)
  {
    EqualsQuote(a.value + ("\"" + rest));
    NamedTaken(a, rest);
    var t := a.name + ("=" + ("\"" + (a.value + ("\"" + rest))));
    SpaceSkipped(t);
    AttributesStep(" " + t, t, [a], rest);
  }

  lemma FirstOfAll(attrs: seq<Attribute>, rest: string)
    requires attrs != [] && Writable(attrs[0]) && rest == WriteFrom(attrs[1..]) && AttributesFrom(rest) == attrs[1..]
    ensures AttributesFrom(WriteFrom(attrs)) == attrs
  {
    AttributeTaken(attrs[0], rest);
    Uncons(attrs);
  }

  lemma StopsAtClose(s: string)
    requires s != "" && s[0] == '>'
    ensures AttributesFrom(s) == []
  {
    assert SkipSeparators(s) == s;
    AttributesStop(s, s);
  }

  /** The scanner gives back the attributes a tag was written with, whatever their values say. */
  lemma {:induction false} WrittenAttributes(attrs: seq<Attribute>)
    requires AllWritable(attrs)
    ensures AttributesFrom(WriteFrom(attrs)) == attrs
  {
    if attrs == [] {
      StopsAtClose(WriteFrom(attrs));
    } else {
      WrittenAttributes(attrs[1..]);
      FirstOfAll(attrs, WriteFrom(attrs[1..]));
    }
  }

  lemma {:induction false} PastSolid(p: string, rest: string)
    requires forall i :: 0 <= i < |p| ==> !IsAsciiWhitespace(p[i])
    ensures FirstWhitespace(p + rest) == Shift(FirstWhitespace(rest), |p|)
  {
    if p == "" {
      NilLeft(p, rest);
    } else {
      TailOf(p, rest);
      PastSolid(p[1..], rest);
    }
  }

  lemma FirstOfWritten(attrs: seq<Attribute>)
    ensures FirstWhitespace(WriteFrom(attrs)) == if attrs == [] then None else Some(0)
  {
    if attrs == [] {
      assert ">"[1..] == "";
    }
  }

  lemma WrittenTagAttributes(attrs: seq<Attribute>)
    requires AllWritable(attrs)
    ensures TagAttributes(WriteTag(attrs)) == attrs
  {
    PastSolid(META, WriteFrom(attrs));
    FirstOfWritten(attrs);
    if attrs != [] {
      WrittenAttributes(attrs);
      assert WriteTag(attrs)[5..] == WriteFrom(attrs);
    }
  }

  /** A written tag is dropped exactly when it has an attribute named `charset`, or one named `http-equiv`
      that says `content-type`: the word inside a value, or a `>` inside one, declares nothing. */
  lemma OnlyNamesDeclare(attrs: seq<Attribute>)
    requires AllWritable(attrs)
    ensures Drops(WriteTag(attrs))
            <==> exists i :: 0 <= i < |attrs|
                             && (attrs[i].name == "charset" || (attrs[i].name == "http-equiv" && Trim(attrs[i].value) == "content-type"))
  {
    WrittenTagAttributes(attrs);
    WrittenName(attrs);
  }

  lemma WrittenName(attrs: seq<Attribute>)
    ensures IsMetaName(WriteTag(attrs))
  {
    assert WriteTag(attrs)[5] == WriteFrom(attrs)[0];
  }

  /** A longer name, `<metadata`, is another tag and stays. */
  lemma LongerNamesStay(lower: string)
    requires |lower| > 5 && !IsWhitespace(lower[5]) && lower[5] !in {'/', '>'}
    ensures !Drops(lower)
  {
  }

  // ---- Where a written tag ends --------------------------------------------------------------

  function LastSolid(p: string, prev: char): char {
    if p == "" then prev
    else LastSolid(p[1..], if IsAsciiWhitespace(p[0]) then prev else p[0])
  }

  lemma PlainStep(s: string, prev: char)
    requires s != "" && s[0] != '>' && !IsQuote(s[0])
    ensures ScanTag(s, None, prev) == Shift(ScanTag(s[1..], None, if IsAsciiWhitespace(s[0]) then prev else s[0]), 1)
  {
    ScanStep(s, None, prev, 0);
  }

  lemma {:induction false} ScanPlain(p: string, s: string, prev: char)
    requires forall i :: 0 <= i < |p| ==> p[i] != '>' && !IsQuote(p[i])
    ensures ScanTag(p + s, None, prev) == Shift(ScanTag(s, None, LastSolid(p, prev)), |p|)
  {
    if p == "" {
      NilLeft(p, s);
    } else {
      var next := if IsAsciiWhitespace(p[0]) then prev else p[0];
      TailOf(p, s);
      ScanPlain(p[1..], s, next);
      PlainStep(p + s, prev);
      ShiftTwice(ScanTag(s, None, LastSolid(p[1..], next)), |p| - 1, 1);
    }
  }

  lemma {:induction false} ScanQuoted(v: string, rest: string, prev: char)
    requires '"' !in v && rest != "" && rest[0] == '"'
    ensures ScanTag(v + rest, Some('"'), prev) == Shift(ScanTag(rest[1..], None, NUL), |v| + 1)
  {
    if v == "" {
      NilLeft(v, rest);
    } else {
      TailOf(v, rest);
      ScanQuoted(v[1..], rest, prev);
    }
  }

  lemma {:induction false} LastSolidEquals(p: string, prev: char)
    requires p != "" && p[|p| - 1] == '='
    ensures LastSolid(p, prev) == '='
  {
    if |p| > 1 {
      LastSolidEquals(p[1..], if IsAsciiWhitespace(p[0]) then prev else p[0]);
    } else {
      assert p[1..] == "";
    }
  }

  lemma QuoteOpens(rest: string)
    requires rest != "" && rest[0] == '"'
    ensures ScanTag(rest, None, '=') == Shift(ScanTag(rest[1..], Some('"'), '='), 1)
  {
  }

  lemma BehindQuote(body: string)
    ensures ("\"" + body) != "" && ("\"" + body)[0] == '"' && ("\"" + body)[1..] == body
  {
  }

  lemma ValueScanned(v: string, s: string)
    requires '"' !in v
    ensures ScanTag("\"" + (v + ("\"" + s)), None, '=') == Shift(ScanTag(s, None, NUL), |v| + 2)
  {
    BehindQuote(v + ("\"" + s));
    BehindQuote(s);
    QuoteOpens("\"" + (v + ("\"" + s)));
    ScanQuoted(v, "\"" + s, '=');
    ShiftTwice(ScanTag(s, None, NUL), |v| + 1, 1);
  }

  lemma HeadScanned(name: string, rest: string, prev: char)
    requires forall i :: 0 <= i < |name| ==> IsNameChar(name[i])
    ensures ScanTag(" " + (name + ("=" + rest)), None, prev) == Shift(ScanTag(rest, None, '='), |name| + 2)
  {
    var head := " " + name + "=";
    assert " " + (name + ("=" + rest)) == head + rest;
    ScanPlain(head, rest, prev);
    LastSolidEquals(head, prev);
  }

  lemma AttributeScanned(a: Attribute, s: string, prev: char)
    requires Writable(a)
    ensures ScanTag(" " + (a.name + ("=\"" + (a.value + ("\"" + s)))), None, prev)
            == Shift(ScanTag(s, None, NUL), |a.name| + |a.value| + 4)
  {
    EqualsQuote(a.value + ("\"" + s));
    HeadScanned(a.name, "\"" + (a.value + ("\"" + s)), prev);
    ValueScanned(a.value, s);
    Together(ScanTag(s, None, NUL), |a.name|, |a.value|);
  }

  lemma Together(end: Option<nat>, name: nat, value: nat)
    ensures Shift(Shift(end, value + 2), name + 2) == Shift(end, name + value + 4)
  {
  }

  /** A written tag ends at its own `>`, not at one inside a value, whatever follows it. */
  lemma {:induction false} WrittenTagEnds(attrs: seq<Attribute>, prev: char)
    requires AllWritable(attrs)
    ensures ScanTag(WriteFrom(attrs), None, prev) == Some(|WriteFrom(attrs)|)
  {
    if attrs == [] {
      assert ">"[0] == '>';
    } else {
      WrittenTagEnds(attrs[1..], NUL);
      WrittenAhead(attrs[0], WriteFrom(attrs[1..]), prev);
    }
  }

  lemma WrittenAhead(a: Attribute, rest: string, prev: char)
    requires Writable(a) && ScanTag(rest, None, NUL) == Some(|rest|)
    ensures var all := " " + (a.name + ("=\"" + (a.value + ("\"" + rest))));
            ScanTag(all, None, prev) == Some(|all|)
  {
    AttributeScanned(a, rest, prev);
  }

  lemma WrittenTagEnd(attrs: seq<Attribute>, rest: string)
    requires AllWritable(attrs)
    ensures TagEnd(WriteTag(attrs) + rest) == Some(|WriteTag(attrs)|)
  {
    WrittenTagIsTerminated(attrs);
    ScanPrefix(WriteTag(attrs), rest, None, NUL);
  }

  lemma WrittenTagIsTerminated(attrs: seq<Attribute>)
    requires AllWritable(attrs)
    ensures TagEnd(WriteTag(attrs)) == Some(|WriteTag(attrs)|)
  {
    MetaIsPlain();
    ScanPlain(META, WriteFrom(attrs), NUL);
    WrittenTagEnds(attrs, LastSolid(META, NUL));
  }

  lemma MetaIsPlain()
    ensures forall i :: 0 <= i < |META| ==> META[i] != '>' && !IsQuote(META[i])
  {
  }
}
