/** Header fields and their parameters: how the builders write them, how a recipient reads them, and
    that reading undoes writing. */
module HeaderFields {
  import opened Wrappers
  import opened Text
  import opened Seqs

  datatype Field = Field(name: string, value: string)

  const TO: string := "To"
  const CC: string := "Cc"
  const BCC: string := "Bcc"
  const SUBJECT: string := "Subject"
  const IN_REPLY_TO: string := "In-Reply-To"
  const REFERENCES: string := "References"
  const MIME_VERSION: string := "MIME-Version"
  const CONTENT_TYPE: string := "Content-Type"
  const TRANSFER_ENCODING: string := "Content-Transfer-Encoding"
  const DISPOSITION: string := "Content-Disposition"
  const CONTENT_ID: string := "Content-ID"

  function Line(f: Field): string {
    f.name + ": " + f.value
  }

  function Lines(fields: seq<Field>): (r: seq<string>)
    ensures |r| == |fields|
    ensures forall i :: 0 <= i < |r| ==> r[i] == Line(fields[i])
  {
    seq(|fields|, i requires 0 <= i < |fields| => Line(fields[i]))
  }

  /** A field a builder may write: a name without structure, a value without a line break. */
  predicate WellFormed(f: Field) {
    GoodName(f.name) && NoLineBreak(f.value)
  }

  predicate GoodName(name: string) {
    name != "" && name[0] != '-' && ':' !in name && NoLineBreak(name)
  }

  lemma AddressNamesAreGood()
    ensures GoodName(TO) && GoodName(CC) && GoodName(BCC) && GoodName(SUBJECT)
    ensures GoodName(IN_REPLY_TO) && GoodName(REFERENCES)
  {
  }

  lemma TypeNamesAreGood()
    ensures GoodName(MIME_VERSION) && GoodName(CONTENT_TYPE) && GoodName(CONTENT_ID)
  {
  }

  lemma DispositionNameIsGood()
    ensures GoodName(DISPOSITION)
  {
  }

  lemma EncodingNameIsGood()
    ensures GoodName(TRANSFER_ENCODING)
  {
  }

  /** The names a reader asks for are told apart. */
  lemma NamesDiffer()
    ensures CONTENT_TYPE != TRANSFER_ENCODING && CONTENT_TYPE != DISPOSITION && CONTENT_TYPE != CONTENT_ID
    ensures TRANSFER_ENCODING != DISPOSITION && TRANSFER_ENCODING != CONTENT_ID && DISPOSITION != CONTENT_ID
    ensures CONTENT_TYPE != TO && CONTENT_TYPE != CC && CONTENT_TYPE != BCC && CONTENT_TYPE != SUBJECT
    ensures CONTENT_TYPE != IN_REPLY_TO && CONTENT_TYPE != REFERENCES
    ensures MIME_VERSION !in {CONTENT_TYPE, TRANSFER_ENCODING, DISPOSITION, CONTENT_ID}
  {
  }

  function AddressNames(): set<string> {
    {TO, CC, BCC, SUBJECT, IN_REPLY_TO, REFERENCES}
  }

  /** No address field says anything about the content. */
  lemma AddressNamesDiffer(name: string)
    requires name in AddressNames()
    ensures name !in {CONTENT_TYPE, TRANSFER_ENCODING, DISPOSITION, CONTENT_ID, MIME_VERSION}
  {
    assert |CONTENT_TYPE| == |MIME_VERSION| == 12 && |TRANSFER_ENCODING| == 25 && |DISPOSITION| == 19;
    assert |CONTENT_ID| == |REFERENCES| == 10 && CONTENT_ID[0] != REFERENCES[0];
    assert |IN_REPLY_TO| == 11 && |SUBJECT| == 7 && |TO| == 2 && |CC| == 2 && |BCC| == 3;
  }

  predicate AllWellFormed(fields: seq<Field>) {
    forall i :: 0 <= i < |fields| ==> WellFormed(fields[i])
  }

  // ---- Reading -------------------------------------------------------------------------------

  function IndexOf(s: string, c: char): (i: nat)
    ensures i <= |s| && c !in s[..i] && (i < |s| ==> s[i] == c)
  {
    if s == "" || s[0] == c then 0
    else
      var j := IndexOf(s[1..], c);
      assert s[..j + 1] == [s[0]] + s[1..][..j];
      j + 1
  }

  lemma {:induction false} IndexOfFirst(a: string, c: char, b: string)
    requires c !in a
    ensures IndexOf(a + [c] + b, c) == |a|
  {
    var s := a + [c] + b;
    if a != "" {
      IndexOfFirst(a[1..], c, b);
      assert s[0] == a[0] && s[1..] == a[1..] + [c] + b;
    }
  }

  /** The name up to the colon, the value after it and one space. */
  function ParseField(line: string): Field {
    var i := IndexOf(line, ':');
    if i == |line| then Field(line, "")
    else
      var rest := line[i + 1..];
      Field(line[..i], if rest != "" && rest[0] == ' ' then rest[1..] else rest)
  }

  function ParseFields(lines: seq<string>): (r: seq<Field>)
    ensures |r| == |lines|
    ensures forall i :: 0 <= i < |r| ==> r[i] == ParseField(lines[i])
  {
    seq(|lines|, i requires 0 <= i < |lines| => ParseField(lines[i]))
  }

  function Lookup(fields: seq<Field>, name: string): Option<string> {
    if fields == [] then None
    else if fields[0].name == name then Some(fields[0].value)
    else Lookup(fields[1..], name)
  }

  lemma FieldRoundTrip(f: Field)
    requires WellFormed(f)
    ensures ParseField(Line(f)) == f
    ensures Line(f) != "" && Atomic(Line(f)) && NoLineBreak(Line(f))
  {
    var l := Line(f);
    assert l == f.name + [':'] + (" " + f.value);
    IndexOfFirst(f.name, ':', " " + f.value);
    assert l[..|f.name|] == f.name;
    assert l[|f.name| + 1..] == " " + f.value;
    assert (" " + f.value)[1..] == f.value;
    SplitNoBreak(l);
  }

  /** The fields read are the fields written, none more and none less. */
  lemma FieldsRoundTrip(fields: seq<Field>)
    requires AllWellFormed(fields)
    ensures ParseFields(Lines(fields)) == fields
    ensures AllAtomic(Lines(fields)) && "" !in Lines(fields)
  {
    forall i | 0 <= i < |fields|
      ensures ParseField(Lines(fields)[i]) == fields[i]
      ensures Atomic(Lines(fields)[i]) && Lines(fields)[i] != ""
    {
      FieldRoundTrip(fields[i]);
    }
  }

  // ---- Parameters ----------------------------------------------------------------------------

  datatype Param = Bare(attr: string, value: string) | Quoted(attr: string, value: string)

  /** `; attr=value` or `; attr="value"`. */
  function RenderParam(p: Param): string {
    ";" + Segment(p)
  }

  function Segment(p: Param): string {
    match p
    case Bare(a, v) => " " + a + "=" + v
    case Quoted(a, v) => " " + a + "=" + "\"" + v + "\""
  }

  function RenderParams(ps: seq<Param>): string {
    if ps == [] then "" else RenderParam(ps[0]) + RenderParams(ps[1..])
  }

  function Render(main: string, ps: seq<Param>): string {
    main + RenderParams(ps)
  }

  predicate Plain(s: string) {
    ';' !in s && '"' !in s
  }

  predicate SafeParam(p: Param) {
    && Plain(p.attr) && p.attr != "" && '=' !in p.attr && !IsWhitespace(p.attr[0])
    && (p.Bare? ==> Plain(p.value))
    && (p.Quoted? ==> '"' !in p.value && '\\' !in p.value)
  }

  predicate AllSafe(ps: seq<Param>) {
    forall i :: 0 <= i < |ps| ==> SafeParam(ps[i])
  }

  /** A header value cut at the semicolons outside quoted strings. */
  function Segments(s: string, quoted: bool): (r: seq<string>)
    ensures |r| >= 1
  {
    if s == "" then [""]
    else if s[0] == ';' && !quoted then [""] + Segments(s[1..], false)
    else if s[0] == '\\' && quoted && |s| > 1 then
      var rest := Segments(s[2..], true);
      [s[..2] + rest[0]] + rest[1..]
    else
      var rest := Segments(s[1..], if s[0] == '"' then !quoted else quoted);
      [[s[0]] + rest[0]] + rest[1..]
  }

  /** A quoted string without its quotes and escapes; a token as it stands. */
  function Unquote(v: string): string {
    if v != "" && v[0] == '"' then UpToQuote(v[1..]) else v
  }

  function UpToQuote(v: string): string {
    if v == "" || v[0] == '"' then ""
    else if v[0] == '\\' && |v| > 1 then [v[1]] + UpToQuote(v[2..])
    else [v[0]] + UpToQuote(v[1..])
  }

  function ParamOf(segments: seq<string>, attr: string): Option<string> {
    if segments == [] then None
    else
      var a := TrimStart(segments[0]);
      var i := IndexOf(a, '=');
      if i < |a| && a[..i] == attr then Some(Unquote(a[i + 1..]))
      else ParamOf(segments[1..], attr)
  }

  /** The first parameter of that name, as it was meant. */
  function Meant(ps: seq<Param>, attr: string): Option<string> {
    if ps == [] then None
    else if ps[0].attr == attr then Some(ps[0].value)
    else Meant(ps[1..], attr)
  }

  lemma {:induction false} PlainPrefix(a: string, s: string)
    requires Plain(a)
    ensures Segments(a + s, false) == [a + Segments(s, false)[0]] + Segments(s, false)[1..]
  {
    if a == "" {
      NilLeft(a, s);
      assert a + Segments(s, false)[0] == Segments(s, false)[0];
    } else {
      PlainPrefix(a[1..], s);
      TailOf(a, s);
      Recons(a, Segments(s, false)[0]);
    }
  }

  lemma QuotedPrefix(q: string, s: string)
    requires '"' !in q && '\\' !in q
    ensures Segments(q + "\"" + s, true) == [q + "\"" + Segments(s, false)[0]] + Segments(s, false)[1..]
  {
    Assoc(q, "\"", s);
    Assoc(q, "\"", Segments(s, false)[0]);
    QuoteCloses(s);
    InsideQuotes(q, "\"" + s);
  }

  lemma QuoteCloses(s: string)
    ensures Segments("\"" + s, true) == ["\"" + Segments(s, false)[0]] + Segments(s, false)[1..]
  {
    assert ("\"" + s)[1..] == s;
  }

  lemma {:induction false} InsideQuotes(q: string, rest: string)
    requires '"' !in q && '\\' !in q
    ensures Segments(q + rest, true) == [q + Segments(rest, true)[0]] + Segments(rest, true)[1..]
  {
    if q == "" {
      NilLeft(q, rest);
      NilLeft(q, Segments(rest, true)[0]);
    } else {
      InsideQuotes(q[1..], rest);
      TailOf(q, rest);
      Recons(q, Segments(rest, true)[0]);
    }
  }

  /** A parameter's segment is plain up to its value. */
  function Head(p: Param): string {
    " " + p.attr + "="
  }

  lemma QuotedSegmentPrefix(head: string, v: string, s: string)
    requires Plain(head) && '"' !in v && '\\' !in v
    ensures var seg := head + ("\"" + (v + "\""));
            Segments(seg + s, false) == [seg + Segments(s, false)[0]] + Segments(s, false)[1..]
  {
    var body := v + "\"" + s;
    QuotedPrefix(v, s);
    QuoteStarts(body);
    PlainPrefix(head, "\"" + body);
    Grouped(head, "\"", v, s);
    Grouped(head, "\"", v, Segments(s, false)[0]);
  }

  lemma QuoteStarts(body: string)
    ensures Segments("\"" + body, false) == [['"'] + Segments(body, true)[0]] + Segments(body, true)[1..]
  {
    assert ("\"" + body)[1..] == body;
  }

  lemma Grouped(head: string, quote: string, v: string, s: string)
    ensures (head + (quote + (v + quote))) + s == head + (quote + ((v + quote) + s))
  {
  }

  lemma SegmentPrefix(p: Param, s: string)
    requires SafeParam(p)
    ensures Segments(Segment(p) + s, false) == [Segment(p) + Segments(s, false)[0]] + Segments(s, false)[1..]
  {
    if p.Bare? {
      PlainPrefix(Segment(p), s);
    } else {
      QuotedSegmentPrefix(Head(p), p.value, s);
      assert Segment(p) == Head(p) + ("\"" + (p.value + "\""));
    }
  }

  function SegmentsOf(ps: seq<Param>): (r: seq<string>)
    ensures |r| == |ps|
  {
    if ps == [] then [] else [Segment(ps[0])] + SegmentsOf(ps[1..])
  }

  lemma {:induction false} ParamsSegments(ps: seq<Param>)
    requires AllSafe(ps)
    ensures Segments(RenderParams(ps), false) == [""] + SegmentsOf(ps)
  {
    if ps != [] {
      ParamsSegments(ps[1..]);
      var rest := RenderParams(ps[1..]);
      SegmentPrefix(ps[0], rest);
      Assoc(";", Segment(ps[0]), rest);
      AfterSemicolon(Segment(ps[0]) + rest);
      NilRight(Segment(ps[0]));
    }
  }

  lemma AfterSemicolon(s: string)
    ensures Segments(";" + s, false) == [""] + Segments(s, false)
  {
    assert (";" + s)[1..] == s;
  }

  lemma RenderedSegments(main: string, ps: seq<Param>)
    requires Plain(main) && AllSafe(ps)
    ensures Segments(Render(main, ps), false) == [main] + SegmentsOf(ps)
  {
    ParamsSegments(ps);
    PlainPrefix(main, RenderParams(ps));
    assert main + "" == main;
  }

  lemma {:induction false} UpToQuoteStops(q: string, s: string)
    requires '"' !in q && '\\' !in q
    ensures UpToQuote(q + "\"" + s) == q
  {
    var all := q + "\"" + s;
    if q != "" {
      UpToQuoteStops(q[1..], s);
      assert all[0] == q[0] && all[1..] == q[1..] + "\"" + s;
    }
  }

  lemma TrimOneSpace(a: string)
    requires a != "" && !IsWhitespace(a[0])
    ensures TrimStart(" " + a) == a
  {
    assert (" " + a)[1..] == a;
  }

  lemma UnquoteQuoted(v: string)
    requires '"' !in v && '\\' !in v
    ensures Unquote("\"" + v + "\"") == v
  {
    UpToQuoteStops(v, "");
    assert ("\"" + v + "\"")[1..] == v + "\"" + "";
  }

  function Raw(p: Param): string {
    match p
    case Bare(_, v) => v
    case Quoted(_, v) => "\"" + v + "\""
  }

  lemma SegmentShape(p: Param)
    ensures Segment(p) == " " + (p.attr + ['='] + Raw(p))
  {
  }

  lemma UnquoteRaw(p: Param)
    requires SafeParam(p)
    ensures Unquote(Raw(p)) == p.value
  {
    if p.Quoted? {
      UnquoteQuoted(p.value);
    }
  }

  lemma ParamOfSegment(p: Param)
    requires SafeParam(p)
    ensures var a := TrimStart(Segment(p));
            var i := IndexOf(a, '=');
            i < |a| && a[..i] == p.attr && Unquote(a[i + 1..]) == p.value
  {
    var raw := Raw(p);
    var a := p.attr + ['='] + raw;
    SegmentShape(p);
    assert a[0] == p.attr[0];
    TrimOneSpace(a);
    IndexOfFirst(p.attr, '=', raw);
    assert a[..|p.attr|] == p.attr && a[|p.attr| + 1..] == raw;
    UnquoteRaw(p);
  }

  lemma SegmentsOfTail(ps: seq<Param>)
    requires ps != []
    ensures SegmentsOf(ps) != [] && SegmentsOf(ps)[0] == Segment(ps[0]) && SegmentsOf(ps)[1..] == SegmentsOf(ps[1..])
  {
  }

  lemma {:induction false} ParamOfSegments(ps: seq<Param>, attr: string)
    requires AllSafe(ps)
    ensures ParamOf(SegmentsOf(ps), attr) == Meant(ps, attr)
  {
    if ps != [] {
      ParamOfSegment(ps[0]);
      ParamOfSegments(ps[1..], attr);
      SegmentsOfTail(ps);
    }
  }

  /** What a parsed header value says. */
  function MainOf(value: string): string {
    Segments(value, false)[0]
  }

  function ParamIn(value: string, attr: string): Option<string> {
    ParamOf(Segments(value, false)[1..], attr)
  }

  /** Reading a rendered header value gives back its main part and every parameter as meant, whatever
      the quoted values hold. */
  lemma ParamsRoundTrip(main: string, ps: seq<Param>, attr: string)
    requires Plain(main) && AllSafe(ps)
    ensures MainOf(Render(main, ps)) == main
    ensures ParamIn(Render(main, ps), attr) == Meant(ps, attr)
  {
    RenderedSegments(main, ps);
    assert ([main] + SegmentsOf(ps))[1..] == SegmentsOf(ps);
    ParamOfSegments(ps, attr);
  }

  lemma {:induction false} LookupPast(a: seq<Field>, b: seq<Field>, name: string)
    requires forall i :: 0 <= i < |a| ==> a[i].name != name
    ensures Lookup(a + b, name) == Lookup(b, name)
  {
    if a == [] {
      NilLeft(a, b);
    } else {
      TailOf(a, b);
      LookupPast(a[1..], b, name);
    }
  }

  lemma {:induction false} RenderParamsAppend(a: seq<Param>, b: seq<Param>)
    ensures RenderParams(a + b) == RenderParams(a) + RenderParams(b)
  {
    if a == [] {
      NilLeft(a, b);
    } else {
      TailOf(a, b);
      RenderParamsAppend(a[1..], b);
    }
  }

  lemma LookupSkip(f: Field, rest: seq<Field>, name: string)
    requires f.name != name
    ensures Lookup([f] + rest, name) == Lookup(rest, name)
  {
    assert ([f] + rest)[1..] == rest;
  }
}
