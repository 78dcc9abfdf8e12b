/** A composed reply or new message: the levels of the tree it documents, and that each of them is read
    back below any header that states its type. */
module Reply {
  import opened Wrappers
  import opened Text
  import opened HeaderFields
  import opened Attachments
  import opened MimeReader
  import opened MimeTree
  import Base64
  import Boundary
  import Html
  import Utf8

  type byte = Utf8.byte

  datatype WriteError = Invalid(message: string)

  datatype ReplyParts = ReplyParts(
    to: string, cc: Option<string>, bcc: Option<string>, subject: string, body: string,
    inReplyTo: Option<string>, references: Option<string>,
    bodyHtml: Option<string>, pixelUrl: Option<string>, attachments: seq<MailAttachment>)

  const ALTERNATIVE: string := "multipart/alternative"
  const RELATED: string := "multipart/related"
  const MIXED: string := "multipart/mixed"
  const VERSION_FIELD := Field(MIME_VERSION, "1.0")

  lemma AlternativeIsMulti()
    ensures IsMultiMime(ALTERNATIVE) && '\\' !in ALTERNATIVE
  {
  }

  lemma RelatedIsMulti()
    ensures IsMultiMime(RELATED)
  {
  }

  lemma MixedIsMulti()
    ensures IsMultiMime(MIXED)
  {
  }

  // ---- The nodes of the tree -----------------------------------------------------------------

  datatype Bounds = Bounds(alt: string, rel: string, mix: string)

  function AltParts(text: string, html: string): seq<seq<string>> {
    [TextLines("text/plain", text), TextLines("text/html", html)]
  }

  function BodyNode(text: string, html: Option<string>, alt: string): Node {
    match html
    case None => Node(TextType("text/plain"), Split(text))
    case Some(h) => Node(MultiType(ALTERNATIVE, alt, []), Enclose(Dash(alt), AltParts(text, h)))
  }

  /** A node nested as a part under its own Content-Type. */
  function AsPart(n: Node): seq<string> {
    Headed(TypeOnly(n.ct), n.lines)
  }

  /** `ct.split(';').next().trim()`. */
  function RootType(ct: string): string {
    Trim(ct[..IndexOf(ct, ';')])
  }

  function InnerNode(body: Node, rel: string, inlined: seq<FilePart>): Node {
    if inlined == [] then body
    else Node(MultiType(RELATED, rel, [Quoted("type", RootType(body.ct))]),
              Enclose(Dash(rel), WithFiles(AsPart(body), inlined)))
  }

  function OuterNode(inner: Node, mix: string, files: seq<FilePart>): Node {
    if files == [] then inner
    else Node(MultiType(MIXED, mix, []), Enclose(Dash(mix), WithFiles(AsPart(inner), files)))
  }

  // ---- The tree a recipient should see -------------------------------------------------------

  function RootMime(html: Option<string>): string {
    if html.None? then "text/plain" else ALTERNATIVE
  }

  function BodyEntity(text: string, html: Option<string>): Entity {
    match html
    case None => TextEntity("text/plain", Utf8.Encode(text))
    case Some(h) =>
      Multi(ALTERNATIVE, None, [TextEntity("text/plain", Utf8.Encode(text)), TextEntity("text/html", Utf8.Encode(h))])
  }

  function InnerEntity(text: string, html: Option<string>, inlined: seq<FilePart>): Entity {
    if inlined == [] then BodyEntity(text, html)
    else Multi(RELATED, Some(RootMime(html)), [BodyEntity(text, html)] + FileEntities(inlined))
  }

  function OuterEntity(text: string, html: Option<string>, inlined: seq<FilePart>, files: seq<FilePart>): Entity {
    if files == [] then InnerEntity(text, html, inlined)
    else Multi(MIXED, None, [InnerEntity(text, html, inlined)] + FileEntities(files))
  }

  // ---- Reading the levels --------------------------------------------------------------------

  predicate CleanIn(text: string, html: Option<string>, boundary: string) {
    !Contains(text, boundary) && (html.Some? ==> !Contains(html.value, boundary))
  }

  predicate GoodBounds(b: Bounds, text: string, html: Option<string>) {
    && IsLevel(b.alt, 'a') && IsLevel(b.rel, 'r') && IsLevel(b.mix, 'm')
    && CleanIn(text, html, b.alt) && CleanIn(text, html, b.rel) && CleanIn(text, html, b.mix)
  }

  lemma AltPartsHasNo(text: string, html: string, boundary: string)
    requires CleanIn(text, Some(html), boundary)
    ensures NoDelimiters(AltParts(text, html), Dash(boundary))
  {
    TextPartHasNo("text/plain", text, boundary);
    TextPartHasNo("text/html", html, boundary);
  }

  lemma AltPartsRead(text: string, html: string)
    ensures ReadEntities(AltParts(text, html))
            == [TextEntity("text/plain", Utf8.Encode(text)), TextEntity("text/html", Utf8.Encode(html))]
  {
    TextPartRead("text/plain", text);
    TextPartRead("text/html", html);
    ReadTwo(TextLines("text/plain", text), TextLines("text/html", html),
            TextEntity("text/plain", Utf8.Encode(text)), TextEntity("text/html", Utf8.Encode(html)));
  }

  lemma ReadTwo(a: seq<string>, b: seq<string>, x: Entity, y: Entity)
    requires ReadEntity(a) == x && ReadEntity(b) == y
    ensures ReadEntities([a, b]) == [x, y]
  {
    var parts := [a, b];
    assert parts[0] == a && parts[1] == b;
  }

  lemma AltRead(fields: seq<Field>, text: string, html: string, alt: string, tail: seq<string>)
    requires IsLevel(alt, 'a') && CleanIn(text, Some(html), alt)
    requires AllWellFormed(fields) && Lookup(fields, CONTENT_TYPE) == Some(MultiType(ALTERNATIVE, alt, []))
    ensures ReadEntity(Headed(fields, Enclose(Dash(alt), AltParts(text, html)) + tail)) == BodyEntity(text, Some(html))
  {
    AlternativeIsMulti();
    AltPartsHasNo(text, html, alt);
    AltPartsRead(text, html);
    LevelRead(fields, ALTERNATIVE, alt, [], AltParts(text, html), tail);
  }

  lemma BodyTypeIsSafe(text: string, html: Option<string>, alt: string)
    requires IsLevel(alt, 'a')
    ensures NoLineBreak(BodyNode(text, html, alt).ct)
  {
    TextTypeRead("text/plain");
    AlternativeIsMulti();
    MultiTypeRead(ALTERNATIVE, alt, []);
  }

  lemma BodyPartRead(text: string, html: Option<string>, alt: string)
    requires IsLevel(alt, 'a') && CleanIn(text, html, alt)
    ensures ReadEntity(AsPart(BodyNode(text, html, alt))) == BodyEntity(text, html)
  {
    var n := BodyNode(text, html, alt);
    BodyTypeIsSafe(text, html, alt);
    TypeOnlyCarries(n.ct);
    if html.None? {
      TextRead(TypeOnly(n.ct), "text/plain", text);
    } else {
      AltRead(TypeOnly(n.ct), text, html.value, alt, []);
      assert n.lines + [] == n.lines;
    }
  }

  lemma BodyPartHasNo(text: string, html: Option<string>, alt: string, boundary: string, y: char)
    requires IsLevel(alt, 'a') && IsLevel(boundary, y) && y != 'a' && CleanIn(text, html, boundary)
    ensures NoDelimiter(AsPart(BodyNode(text, html, alt)), Dash(boundary))
  {
    var n := BodyNode(text, html, alt);
    BodyTypeIsSafe(text, html, alt);
    TypeOnlyCarries(n.ct);
    if html.None? {
      TextHasNo(text, boundary);
    } else {
      AltPartsHasNo(text, html.value, boundary);
      EncloseHasNo(boundary, y, alt, 'a', AltParts(text, html.value));
    }
    HeadedHasNo(TypeOnly(n.ct), n.lines, boundary);
  }

  lemma BodyPartAtomic(text: string, html: Option<string>, alt: string)
    requires IsLevel(alt, 'a')
    ensures AllAtomic(BodyNode(text, html, alt).lines) && AllAtomic(AsPart(BodyNode(text, html, alt)))
  {
    var n := BodyNode(text, html, alt);
    BodyTypeIsSafe(text, html, alt);
    TypeOnlyCarries(n.ct);
    if html.None? {
      SplitAtomic(text);
    } else {
      TextPartAtomic("text/plain", text);
      TextPartAtomic("text/html", html.value);
      EncloseAtomic(alt, AltParts(text, html.value));
    }
    HeadedAtomic(TypeOnly(n.ct), n.lines);
  }

  lemma TrimTight(s: string)
    requires s != "" && !IsWhitespace(s[0]) && !IsWhitespace(s[|s| - 1])
    ensures Trim(s) == s
  {
  }

  lemma CutAtSemicolon(main: string, rest: string)
    requires ';' !in main && main != "" && !IsWhitespace(main[0]) && !IsWhitespace(main[|main| - 1])
    ensures RootType(main + [';'] + rest) == main
  {
    var ct := main + [';'] + rest;
    IndexOfFirst(main, ';', rest);
    assert ct[..|main|] == main;
    TrimTight(main);
  }

  lemma RenderShape(main: string, p: Param, more: seq<Param>)
    ensures Render(main, [p] + more) == main + [';'] + (Segment(p) + RenderParams(more))
  {
    assert ([p] + more)[1..] == more;
    Reassociate(main, Segment(p), RenderParams(more));
  }

  lemma Reassociate(main: string, segment: string, rest: string)
    ensures main + ((";" + segment) + rest) == main + [';'] + (segment + rest)
  {
  }

  lemma RootTypeOf(main: string, p: Param, more: seq<Param>)
    requires Plain(main) && main != "" && !IsWhitespace(main[0]) && !IsWhitespace(main[|main| - 1])
    ensures RootType(Render(main, [p] + more)) == main
  {
    RenderShape(main, p, more);
    CutAtSemicolon(main, Segment(p) + RenderParams(more));
  }

  lemma RootTypeIs(text: string, html: Option<string>, alt: string)
    ensures RootType(BodyNode(text, html, alt).ct) == RootMime(html)
    ensures AllGood([Quoted("type", RootMime(html))])
  {
    if html.None? {
      PlainRoot();
      RootTypeOf("text/plain", PLAIN_UTF8, []);
      assert [PLAIN_UTF8] + [] == [PLAIN_UTF8];
      RootParamIsGood("text/plain");
    } else {
      AlternativeRoot(alt);
    }
  }

  lemma AlternativeRoot(alt: string)
    ensures RootType(MultiType(ALTERNATIVE, alt, [])) == ALTERNATIVE && AllGood([Quoted("type", ALTERNATIVE)])
  {
    AlternativeIsMulti();
    RootTypeOf(ALTERNATIVE, Quoted("boundary", alt), []);
    RootParamIsGood(ALTERNATIVE);
  }

  lemma PlainRoot()
    ensures Plain("text/plain") && NoLineBreak("text/plain") && '\\' !in "text/plain"
  {
  }

  lemma RootParamIsGood(mime: string)
    requires Plain(mime) && NoLineBreak(mime) && '\\' !in mime
    ensures AllGood([Quoted("type", mime)])
  {
    var p := Quoted("type", mime);
    assert SafeParam(p);
  }

  lemma RelatedRead(fields: seq<Field>, text: string, html: Option<string>, b: Bounds, inlined: seq<FilePart>, tail: seq<string>)
    requires GoodBounds(b, text, html) && AllGoodHeads(inlined) && inlined != []
    requires AllWellFormed(fields)
    requires Lookup(fields, CONTENT_TYPE) == Some(InnerNode(BodyNode(text, html, b.alt), b.rel, inlined).ct)
    ensures ReadEntity(Headed(fields, InnerNode(BodyNode(text, html, b.alt), b.rel, inlined).lines + tail))
            == InnerEntity(text, html, inlined)
  {
    var body := BodyNode(text, html, b.alt);
    var more := [Quoted("type", RootMime(html))];
    RootTypeIs(text, html, b.alt);
    RelatedIsMulti();
    BodyPartHasNo(text, html, b.alt, b.rel, 'r');
    WithFilesHasNo(AsPart(body), inlined, b.rel);
    BodyPartRead(text, html, b.alt);
    WithFilesRead(AsPart(body), BodyEntity(text, html), inlined);
    LevelRead(fields, RELATED, b.rel, more, WithFiles(AsPart(body), inlined), tail);
    MeantOne(more[0], "type");
  }

  lemma InnerTypeIsSafe(text: string, html: Option<string>, b: Bounds, inlined: seq<FilePart>)
    requires GoodBounds(b, text, html)
    ensures NoLineBreak(InnerNode(BodyNode(text, html, b.alt), b.rel, inlined).ct)
  {
    BodyTypeIsSafe(text, html, b.alt);
    RootTypeIs(text, html, b.alt);
    RelatedIsMulti();
    MultiTypeRead(RELATED, b.rel, [Quoted("type", RootMime(html))]);
  }

  lemma InnerPartRead(text: string, html: Option<string>, b: Bounds, inlined: seq<FilePart>)
    requires GoodBounds(b, text, html) && AllGoodHeads(inlined)
    ensures ReadEntity(AsPart(InnerNode(BodyNode(text, html, b.alt), b.rel, inlined))) == InnerEntity(text, html, inlined)
  {
    var n := InnerNode(BodyNode(text, html, b.alt), b.rel, inlined);
    InnerTypeIsSafe(text, html, b, inlined);
    TypeOnlyCarries(n.ct);
    if inlined == [] {
      BodyPartRead(text, html, b.alt);
    } else {
      RelatedRead(TypeOnly(n.ct), text, html, b, inlined, []);
      assert n.lines + [] == n.lines;
    }
  }

  lemma InnerPartHasNo(text: string, html: Option<string>, b: Bounds, inlined: seq<FilePart>)
    requires GoodBounds(b, text, html) && AllGoodHeads(inlined)
    ensures NoDelimiter(AsPart(InnerNode(BodyNode(text, html, b.alt), b.rel, inlined)), Dash(b.mix))
  {
    var body := BodyNode(text, html, b.alt);
    var n := InnerNode(body, b.rel, inlined);
    InnerTypeIsSafe(text, html, b, inlined);
    TypeOnlyCarries(n.ct);
    BodyPartHasNo(text, html, b.alt, b.mix, 'm');
    if inlined != [] {
      WithFilesHasNo(AsPart(body), inlined, b.mix);
      EncloseHasNo(b.mix, 'm', b.rel, 'r', WithFiles(AsPart(body), inlined));
      HeadedHasNo(TypeOnly(n.ct), n.lines, b.mix);
    }
  }

  lemma InnerPartAtomic(text: string, html: Option<string>, b: Bounds, inlined: seq<FilePart>)
    requires GoodBounds(b, text, html) && AllGoodHeads(inlined)
    ensures var n := InnerNode(BodyNode(text, html, b.alt), b.rel, inlined);
            AllAtomic(n.lines) && AllAtomic(AsPart(n))
  {
    var body := BodyNode(text, html, b.alt);
    var n := InnerNode(body, b.rel, inlined);
    InnerTypeIsSafe(text, html, b, inlined);
    TypeOnlyCarries(n.ct);
    BodyPartAtomic(text, html, b.alt);
    if inlined != [] {
      WithFilesAtomic(AsPart(body), inlined);
      EncloseAtomic(b.rel, WithFiles(AsPart(body), inlined));
      HeadedAtomic(TypeOnly(n.ct), n.lines);
    }
  }

  function TopNode(text: string, html: Option<string>, b: Bounds, inlined: seq<FilePart>, files: seq<FilePart>): Node {
    OuterNode(InnerNode(BodyNode(text, html, b.alt), b.rel, inlined), b.mix, files)
  }

  lemma MixedRead(fields: seq<Field>, text: string, html: Option<string>, b: Bounds,
                  inlined: seq<FilePart>, files: seq<FilePart>, tail: seq<string>)
    requires GoodBounds(b, text, html) && AllGoodHeads(inlined) && AllGoodHeads(files) && files != []
    requires AllWellFormed(fields) && Lookup(fields, CONTENT_TYPE) == Some(TopNode(text, html, b, inlined, files).ct)
    ensures ReadEntity(Headed(fields, TopNode(text, html, b, inlined, files).lines + tail))
            == OuterEntity(text, html, inlined, files)
  {
    var inner := InnerNode(BodyNode(text, html, b.alt), b.rel, inlined);
    MixedIsMulti();
    InnerPartHasNo(text, html, b, inlined);
    WithFilesHasNo(AsPart(inner), files, b.mix);
    InnerPartRead(text, html, b, inlined);
    WithFilesRead(AsPart(inner), InnerEntity(text, html, inlined), files);
    LevelRead(fields, MIXED, b.mix, [], WithFiles(AsPart(inner), files), tail);
  }

  /** A message with at least one attachment, below any header that states its type. */
  lemma AttachedRead(fields: seq<Field>, text: string, html: Option<string>, b: Bounds,
                     inlined: seq<FilePart>, files: seq<FilePart>, tail: seq<string>)
    requires GoodBounds(b, text, html) && AllGoodHeads(inlined) && AllGoodHeads(files) && (inlined != [] || files != [])
    requires AllWellFormed(fields) && Lookup(fields, CONTENT_TYPE) == Some(TopNode(text, html, b, inlined, files).ct)
    ensures ReadEntity(Headed(fields, TopNode(text, html, b, inlined, files).lines + tail))
            == OuterEntity(text, html, inlined, files)
  {
    if files == [] {
      RelatedRead(fields, text, html, b, inlined, tail);
    } else {
      MixedRead(fields, text, html, b, inlined, files, tail);
    }
  }

  lemma TopAtomic(text: string, html: Option<string>, b: Bounds, inlined: seq<FilePart>, files: seq<FilePart>)
    requires GoodBounds(b, text, html) && AllGoodHeads(inlined) && AllGoodHeads(files)
    ensures AllAtomic(TopNode(text, html, b, inlined, files).lines)
    ensures NoLineBreak(TopNode(text, html, b, inlined, files).ct)
  {
    var inner := InnerNode(BodyNode(text, html, b.alt), b.rel, inlined);
    InnerPartAtomic(text, html, b, inlined);
    InnerTypeIsSafe(text, html, b, inlined);
    MixedIsMulti();
    MultiTypeRead(MIXED, b.mix, []);
    WithFilesAtomic(AsPart(inner), files);
    EncloseAtomic(b.mix, WithFiles(AsPart(inner), files));
  }
}
