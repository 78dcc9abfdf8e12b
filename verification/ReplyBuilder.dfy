/** `build_reply_rfc822` and the methods it is made of, each proved against what it has to write, and
    the theorem that a recipient reads back the whole message. */
module ReplyBuilder {
  import opened Wrappers
  import opened Seqs
  import opened Text
  import opened HeaderFields
  import opened Attachments
  import opened MimeReader
  import opened MimeTree
  import opened Reply
  import Base64
  import Boundary
  import Html
  import PartWriter
  import Utf8

  type byte = Utf8.byte

  // ---- What has to be written ----------------------------------------------------------------

  function Stated(value: Option<string>): Option<string> {
    if value.Some? && !IsBlank(value.value) then value else None
  }

  function NonEmpty(value: Option<string>): Option<string> {
    if value.Some? && value.value != "" then value else None
  }

  function Optional(name: string, value: Option<string>): seq<Field> {
    match value
    case Some(v) => [Field(name, v)]
    case None => []
  }

  function AddressFields(p: ReplyParts): seq<Field> {
    [Field(TO, p.to)] + Optional(CC, Stated(p.cc)) + Optional(BCC, Stated(p.bcc)) + [Field(SUBJECT, p.subject)]
    + Optional(IN_REPLY_TO, NonEmpty(p.inReplyTo)) + Optional(REFERENCES, NonEmpty(p.references))
  }

  /** Every value that becomes a header line, present or not. */
  function Guarded(p: ReplyParts): seq<Field> {
    [Field(TO, p.to), Field(CC, p.cc.GetOr("")), Field(BCC, p.bcc.GetOr("")), Field(SUBJECT, p.subject),
     Field(IN_REPLY_TO, p.inReplyTo.GetOr("")), Field(REFERENCES, p.references.GetOr(""))]
  }

  function FirstFault(fields: seq<Field>): Option<string> {
    if fields == [] then None
    else if !NoLineBreak(fields[0].value) then Some(fields[0].name)
    else FirstFault(fields[1..])
  }

  function TextOf(p: ReplyParts): string {
    NormalizeReply(p.body)
  }

  function HtmlOf(p: ReplyParts): Option<string> {
    match Html.Alternative(p.body, p.bodyHtml, p.pixelUrl)
    case Some(h) => Some(NormalizeReply(h))
    case None => None
  }

  function Encoded(atts: seq<MailAttachment>): (r: seq<string>)
    ensures |r| == |atts|
    ensures forall i :: 0 <= i < |r| ==> r[i] == Base64.Body(atts[i].data)
  {
    seq(|atts|, i requires 0 <= i < |atts| => Base64.Body(atts[i].data))
  }

  function Probe(text: string, html: Option<string>, encoded: seq<string>): seq<string> {
    [text] + (if html.Some? then [html.value] else []) + encoded
  }

  function BoundsFor(probe: seq<string>, hash: Boundary.Hasher): Bounds {
    Bounds(Boundary.Boundary(BOUNDARY_ALT, probe, hash),
           Boundary.Boundary(BOUNDARY_REL, probe, hash),
           Boundary.Boundary(BOUNDARY_MIX, probe, hash))
  }

  /** The parts going out inline, or the ones that do not, in tray order. */
  function Pick(files: seq<FilePart>, inlined: bool): seq<FilePart> {
    if files == [] then []
    else
      var n := |files| - 1;
      Pick(files[..n], inlined) + if files[n].head.isInline == inlined then [files[n]] else []
  }

  function Selected(atts: seq<MailAttachment>, inlined: bool): seq<FilePart> {
    Pick(PartsOf(atts), inlined)
  }

  function AttachedNode(text: string, html: Option<string>, atts: seq<MailAttachment>, hash: Boundary.Hasher): Node {
    TopNode(text, html, BoundsFor(Probe(text, html, Encoded(atts)), hash), Selected(atts, true), Selected(atts, false))
  }

  /** The content below the address headers. */
  function ContentNode(p: ReplyParts, hash: Boundary.Hasher): Node {
    if p.attachments != [] then AttachedNode(TextOf(p), HtmlOf(p), p.attachments, hash)
    else
      BodyNode(TextOf(p), HtmlOf(p), Boundary.Boundary(BOUNDARY_ALT, Probe(TextOf(p), HtmlOf(p), []), hash))
  }

  function TypeFields(ct: string): seq<Field> {
    [Field(CONTENT_TYPE, ct), VERSION_FIELD]
  }

  function MessageFields(p: ReplyParts, ct: string): seq<Field> {
    AddressFields(p) + TypeFields(ct)
  }

  /** The text of the message. Only an unwrapped plain body goes out without a final CRLF. */
  function Wire(p: ReplyParts, hash: Boundary.Hasher): string {
    var n := ContentNode(p, hash);
    if OpenEnded(p) then Flat(Headed(MessageFields(p, n.ct), [])) + TextOf(p)
    else Flat(Headed(MessageFields(p, n.ct), n.lines))
  }

  predicate Accepted(p: ReplyParts) {
    FirstFault(Guarded(p)).None? && !IsBlank(p.to)
  }

  function Build(p: ReplyParts, hash: Boundary.Hasher): Result<seq<byte>, WriteError> {
    match FirstFault(Guarded(p))
    case Some(name) => Err(Invalid(name + " header must not contain CR/LF"))
    case None =>
      if IsBlank(p.to) then Err(Invalid("reply has no recipient"))
      else Ok(Utf8.Encode(Wire(p, hash)))
  }

  // ---- What a recipient should see -----------------------------------------------------------

  function Tree(p: ReplyParts): Entity {
    if p.attachments == [] then BodyEntity(TextOf(p), HtmlOf(p))
    else OuterEntity(TextOf(p), HtmlOf(p), Selected(p.attachments, true), Selected(p.attachments, false))
  }

  // ---- Header proofs -------------------------------------------------------------------------

  lemma {:induction false} NoFault(fields: seq<Field>)
    ensures FirstFault(fields).None? <==> forall i :: 0 <= i < |fields| ==> NoLineBreak(fields[i].value)
  {
    if fields != [] {
      NoFault(fields[1..]);
      assert forall i :: 1 <= i < |fields| ==> fields[i] == fields[1..][i - 1];
    }
  }

  predicate OnlyAddresses(fields: seq<Field>) {
    forall i :: 0 <= i < |fields| ==> fields[i].name in AddressNames() && NoLineBreak(fields[i].value)
  }

  lemma OnlyAddressesJoin(a: seq<Field>, b: seq<Field>)
    requires OnlyAddresses(a) && OnlyAddresses(b)
    ensures OnlyAddresses(a + b)
  {
  }

  lemma GuardedValues(p: ReplyParts)
    requires FirstFault(Guarded(p)).None?
    ensures NoLineBreak(p.to) && NoLineBreak(p.subject)
    ensures NoLineBreak(p.cc.GetOr("")) && NoLineBreak(p.bcc.GetOr(""))
    ensures NoLineBreak(p.inReplyTo.GetOr("")) && NoLineBreak(p.references.GetOr(""))
  {
    var g := Guarded(p);
    NoFault(g);
    assert NoLineBreak(g[0].value) && NoLineBreak(g[1].value) && NoLineBreak(g[2].value);
    assert NoLineBreak(g[3].value) && NoLineBreak(g[4].value) && NoLineBreak(g[5].value);
  }

  lemma AddressesAreAddresses(p: ReplyParts)
    requires FirstFault(Guarded(p)).None?
    ensures OnlyAddresses(AddressFields(p))
  {
    GuardedValues(p);
    var a, b, c := Optional(CC, Stated(p.cc)), Optional(BCC, Stated(p.bcc)), [Field(SUBJECT, p.subject)];
    var d, e := Optional(IN_REPLY_TO, NonEmpty(p.inReplyTo)), Optional(REFERENCES, NonEmpty(p.references));
    OnlyAddressesJoin([Field(TO, p.to)], a);
    OnlyAddressesJoin([Field(TO, p.to)] + a, b);
    OnlyAddressesJoin([Field(TO, p.to)] + a + b, c);
    OnlyAddressesJoin([Field(TO, p.to)] + a + b + c, d);
    OnlyAddressesJoin([Field(TO, p.to)] + a + b + c + d, e);
  }

  /** Address headers in front of a Content-Type change nothing about how the content is read. */
  lemma AddressedCarries(addresses: seq<Field>, ct: string)
    requires OnlyAddresses(addresses) && NoLineBreak(ct)
    ensures Carries(addresses + TypeFields(ct), ct)
  {
    var fields := addresses + TypeFields(ct);
    AddressNamesAreGood();
    TypeNamesAreGood();
    NamesDiffer();
    forall i | 0 <= i < |fields| ensures WellFormed(fields[i]) {
      if i < |addresses| {
        assert fields[i] == addresses[i];
      } else {
        assert fields[i] == TypeFields(ct)[i - |addresses|];
        assert WellFormed(VERSION_FIELD) && WellFormed(Field(CONTENT_TYPE, ct));
      }
    }
    forall i | 0 <= i < |addresses|
      ensures addresses[i].name !in {CONTENT_TYPE, TRANSFER_ENCODING, DISPOSITION, CONTENT_ID, MIME_VERSION}
    {
      AddressNamesDiffer(addresses[i].name);
    }
    LookupPast(addresses, TypeFields(ct), CONTENT_TYPE);
    LookupPast(addresses, TypeFields(ct), TRANSFER_ENCODING);
    LookupPast(addresses, TypeFields(ct), DISPOSITION);
    LookupPast(addresses, TypeFields(ct), CONTENT_ID);
    TypeFieldLookups(ct);
  }

  lemma TypeFieldLookups(ct: string)
    ensures Lookup(TypeFields(ct), CONTENT_TYPE) == Some(ct)
    ensures Lookup(TypeFields(ct), TRANSFER_ENCODING) == None
    ensures Lookup(TypeFields(ct), DISPOSITION) == None
    ensures Lookup(TypeFields(ct), CONTENT_ID) == None
  {
    NamesDiffer();
    var first, rest := Field(CONTENT_TYPE, ct), [VERSION_FIELD] + [];
    assert TypeFields(ct) == [first] + rest;
    forall name | name in {TRANSFER_ENCODING, DISPOSITION, CONTENT_ID}
      ensures Lookup(TypeFields(ct), name) == None
    {
      LookupSkip(first, rest, name);
      LookupSkip(VERSION_FIELD, [], name);
    }
  }

  // ---- Boundary proofs -----------------------------------------------------------------------

  lemma BoundaryFits(prefix: string, c: char, text: string, html: Option<string>, encoded: seq<string>, hash: Boundary.Hasher)
    requires IsLevel(prefix, c)
    ensures var b := Boundary.Boundary(prefix, Probe(text, html, encoded), hash);
            IsLevel(b, c) && CleanIn(text, html, b)
  {
    var probe := Probe(text, html, encoded);
    LevelOf(prefix, c, probe, hash);
    Boundary.BoundaryIsClean(prefix, probe, hash);
    assert probe[0] == text;
    assert html.Some? ==> probe[1] == html.value;
  }

  lemma BoundsFit(text: string, html: Option<string>, encoded: seq<string>, hash: Boundary.Hasher)
    ensures GoodBounds(BoundsFor(Probe(text, html, encoded), hash), text, html)
  {
    AltPrefix();
    RelPrefix();
    MixPrefix();
    BoundaryFits(BOUNDARY_ALT, 'a', text, html, encoded, hash);
    BoundaryFits(BOUNDARY_REL, 'r', text, html, encoded, hash);
    BoundaryFits(BOUNDARY_MIX, 'm', text, html, encoded, hash);
  }

  /** Picking keeps exactly the files of that kind. */
  lemma {:induction false} PickedAre(files: seq<FilePart>, inlined: bool, f: FilePart)
    ensures f in Pick(files, inlined) <==> f in files && f.head.isInline == inlined
  {
    if files != [] {
      PickedAre(files[..|files| - 1], inlined, f);
    }
  }

  lemma SelectedGood(atts: seq<MailAttachment>, inlined: bool)
    ensures AllGoodHeads(Selected(atts, inlined))
  {
    var files := PartsOf(atts);
    PartsAreGood(atts);
    PickedGood(files, inlined);
  }

  lemma {:induction false} PickedGood(files: seq<FilePart>, inlined: bool)
    requires AllGoodHeads(files)
    ensures AllGoodHeads(Pick(files, inlined))
  {
    if files != [] {
      PickedGood(files[..|files| - 1], inlined);
    }
  }

  lemma SelectedSome(atts: seq<MailAttachment>)
    requires atts != []
    ensures Selected(atts, true) != [] || Selected(atts, false) != []
  {
    var files := PartsOf(atts);
    var f := files[0];
    PickedAre(files, f.head.isInline, f);
  }

  // ---- The theorem ---------------------------------------------------------------------------

  lemma NodeIsSafe(p: ReplyParts, hash: Boundary.Hasher)
    ensures AllAtomic(ContentNode(p, hash).lines) && NoLineBreak(ContentNode(p, hash).ct)
  {
    if p.attachments == [] {
      BareNodeIsSafe(TextOf(p), HtmlOf(p), hash);
    } else {
      AttachedNodeIsSafe(TextOf(p), HtmlOf(p), p.attachments, hash);
    }
  }

  lemma BareNodeIsSafe(text: string, html: Option<string>, hash: Boundary.Hasher)
    ensures var n := BodyNode(text, html, Boundary.Boundary(BOUNDARY_ALT, Probe(text, html, []), hash));
            AllAtomic(n.lines) && NoLineBreak(n.ct)
  {
    var alt := Boundary.Boundary(BOUNDARY_ALT, Probe(text, html, []), hash);
    AltPrefix();
    BoundaryFits(BOUNDARY_ALT, 'a', text, html, [], hash);
    BodyTypeIsSafe(text, html, alt);
    BodyPartAtomic(text, html, alt);
  }

  lemma AttachedNodeIsSafe(text: string, html: Option<string>, atts: seq<MailAttachment>, hash: Boundary.Hasher)
    ensures var n := AttachedNode(text, html, atts, hash);
            AllAtomic(n.lines) && NoLineBreak(n.ct)
  {
    BoundsFit(text, html, Encoded(atts), hash);
    SelectedGood(atts, true);
    SelectedGood(atts, false);
    TopAtomic(text, html, BoundsFor(Probe(text, html, Encoded(atts)), hash), Selected(atts, true), Selected(atts, false));
  }

  lemma OpenEndedSplits(fields: seq<Field>, text: string)
    requires AllWellFormed(fields)
    ensures Split(Flat(Headed(fields, [])) + text) == Headed(fields, Split(text))
  {
    assert AllAtomic([]);
    HeadedAtomic(fields, []);
    SplitFlat(Headed(fields, []), text);
    HeadedThen(fields, Split(text));
  }

  lemma HeadedThen(fields: seq<Field>, content: seq<string>)
    ensures Headed(fields, []) + content == Headed(fields, content)
  {
    NilRight(Lines(fields) + [""]);
  }

  predicate OpenEnded(p: ReplyParts) {
    p.attachments == [] && HtmlOf(p).None?
  }

  lemma WireSplits(p: ReplyParts, hash: Boundary.Hasher)
    requires Accepted(p)
    ensures var n := ContentNode(p, hash);
            var fields := MessageFields(p, n.ct);
            && Carries(fields, n.ct)
            && Split(Wire(p, hash)) == Headed(fields, n.lines + if OpenEnded(p) then [] else [""])
  {
    var n := ContentNode(p, hash);
    NodeIsSafe(p, hash);
    AddressesAreAddresses(p);
    AddressedCarries(AddressFields(p), n.ct);
    if OpenEnded(p) {
      OpenEndedSplits(MessageFields(p, n.ct), TextOf(p));
      assert n.lines + [] == n.lines;
    } else {
      FlatRead(MessageFields(p, n.ct), n.lines);
    }
  }

  /** Every accepted reply, however its text, names and files were crafted, is read back as the tree
      the builder documents: the same address headers and no others, the normalised text and html, the
      inline parts inside related and the files in mixed, in tray order, with every byte of theirs. */
  lemma ReplyReadsBack(p: ReplyParts, hash: Boundary.Hasher)
    requires Accepted(p)
    ensures Build(p, hash).Ok?
    ensures ReadMessage(Build(p, hash).value)
            == Some(Message(MessageFields(p, ContentNode(p, hash).ct), Tree(p)))
  {
    var n := ContentNode(p, hash);
    var tail := if OpenEnded(p) then [] else [""];
    assert n.lines + [] == n.lines;
    WireSplits(p, hash);
    ContentReads(p, hash);
    WireRead(Wire(p, hash), MessageFields(p, n.ct), n.lines + tail);
  }

  lemma ContentReads(p: ReplyParts, hash: Boundary.Hasher)
    requires Accepted(p)
    requires Carries(MessageFields(p, ContentNode(p, hash).ct), ContentNode(p, hash).ct)
    ensures var n := ContentNode(p, hash);
            var tail := if OpenEnded(p) then [] else [""];
            ReadEntity(Headed(MessageFields(p, n.ct), n.lines + tail)) == Tree(p)
  {
    var n := ContentNode(p, hash);
    var fields := MessageFields(p, n.ct);
    var text, html := TextOf(p), HtmlOf(p);
    if p.attachments == [] {
      AltPrefix();
      BoundaryFits(BOUNDARY_ALT, 'a', text, html, [], hash);
      if html.None? {
        TextRead(fields, "text/plain", text);
        assert n.lines + [] == n.lines;
      } else {
        AltRead(fields, text, html.value, Boundary.Boundary(BOUNDARY_ALT, Probe(text, html, []), hash), [""]);
      }
    } else {
      var b := BoundsFor(Probe(text, html, Encoded(p.attachments)), hash);
      BoundsFit(text, html, Encoded(p.attachments), hash);
      SelectedGood(p.attachments, true);
      SelectedGood(p.attachments, false);
      SelectedSome(p.attachments);
      AttachedRead(fields, text, html, b, Selected(p.attachments, true), Selected(p.attachments, false), [""]);
    }
  }

  // ---- The builder ---------------------------------------------------------------------------

  method EncodeAll(atts: seq<MailAttachment>) returns (encoded: seq<string>)
    ensures encoded == Encoded(atts)
  {
    encoded := [];
    for i := 0 to |atts|
      invariant |encoded| == i && forall j :: 0 <= j < i ==> encoded[j] == Base64.Body(atts[j].data)
    {
      var body := Base64.EncodeBody(atts[i].data);
      encoded := encoded + [body];
    }
  }

  /** The files of one kind pushed behind `content`, each a part under `boundary`. */
  method PushFiles(content: string, boundary: string, atts: seq<MailAttachment>, encoded: seq<string>, inlined: bool)
    returns (out: string)
    requires encoded == Encoded(atts)
    ensures out == content + Flat(Opened(Dash(boundary), FilesLines(Selected(atts, inlined))))
  {
    var files := "";
    for i := 0 to |atts|
      invariant files == Flat(Opened(Dash(boundary), FilesLines(Selected(atts[..i], inlined))))
    {
      files := PushIf(files, boundary, atts, i, encoded[i], inlined);
    }
    assert atts[..|atts|] == atts;
    out := content + files;
  }

  method PushIf(files: string, boundary: string, atts: seq<MailAttachment>, i: nat, encoded: string, inlined: bool)
    returns (out: string)
    requires i < |atts| && encoded == Base64.Body(atts[i].data)
    requires files == Flat(Opened(Dash(boundary), FilesLines(Selected(atts[..i], inlined))))
    ensures out == Flat(Opened(Dash(boundary), FilesLines(Selected(atts[..i + 1], inlined))))
  {
    out := files;
    SelectedNext(atts, i, inlined);
    if atts[i].isInline == inlined {
      out := PushFile(files, boundary, atts[i], encoded, Selected(atts[..i], inlined));
    } else {
      assert Selected(atts[..i], inlined) + [] == Selected(atts[..i], inlined);
    }
  }

  lemma SelectedNext(atts: seq<MailAttachment>, i: nat, inlined: bool)
    requires i < |atts|
    ensures Selected(atts[..i + 1], inlined)
            == Selected(atts[..i], inlined) + if atts[i].isInline == inlined then [PartOf(atts[i])] else []
  {
    assert PartsOf(atts[..i + 1])[..i] == PartsOf(atts[..i]);
  }

  method PushFile(files: string, boundary: string, att: MailAttachment, encoded: string, ghost done: seq<FilePart>)
    returns (out: string)
    requires encoded == Base64.Body(att.data) && files == Flat(Opened(Dash(boundary), FilesLines(done)))
    ensures out == Flat(Opened(Dash(boundary), FilesLines(done + [PartOf(att)])))
  {
    var part := PartWriter.AttachmentPart(boundary, att, encoded);
    OneMoreFile(Dash(boundary), done, PartOf(att));
    out := files + part;
  }

  lemma OneMoreFile(dash: string, done: seq<FilePart>, file: FilePart)
    ensures Flat(Opened(dash, FilesLines(done + [file])))
            == Flat(Opened(dash, FilesLines(done))) + Flat([dash] + FileLines(file))
  {
    var parts := FilesLines(done + [file]);
    assert parts[..|parts| - 1] == FilesLines(done);
    FlatAppend(Opened(dash, FilesLines(done)), [dash] + FileLines(file));
  }

  /** `--{boundary}`, the part's Content-Type, an empty line, and its content. */
  method FirstPart(boundary: string, ct: string, content: string, ghost lines: seq<string>) returns (out: string)
    requires content == Flat(lines)
    ensures out == Flat(Opened(Dash(boundary), [Headed(TypeOnly(ct), lines)]))
  {
    ghost var done;
    out, done := PartWriter.Push("", [], "--" + boundary);
    out, done := PartWriter.Push(out, done, Line(Field(CONTENT_TYPE, ct)));
    out, done := PartWriter.Push(out, done, "");
    FlatAppend(done, lines);
    out := out + content;
    assert Lines(TypeOnly(ct)) == [Line(Field(CONTENT_TYPE, ct))];
    assert done + lines == [Dash(boundary)] + Headed(TypeOnly(ct), lines);
    OpenedOne(Dash(boundary), Headed(TypeOnly(ct), lines));
  }

  lemma OpenedOne(dash: string, part: seq<string>)
    ensures Opened(dash, [part]) == [dash] + part
  {
    assert [part][..0] == [];
    assert [] + ([dash] + part) == [dash] + part;
  }

  /** The text part, the html part and the closing delimiter. */
  method AlternativeText(alt: string, text: string, html: string) returns (out: string)
    ensures out == Flat(Enclose(Dash(alt), AltParts(text, html)))
  {
    FlatSplit(text);
    FlatSplit(html);
    var first := FirstPart(alt, TextType("text/plain"), text + CRLF, Split(text));
    var second := FirstPart(alt, TextType("text/html"), html + CRLF, Split(html));
    out := first + second;
    ghost var a, b := [TextLines("text/plain", text)], [TextLines("text/html", html)];
    OpenedAppend(Dash(alt), a, b);
    assert a + b == AltParts(text, html);
    FlatAppend(Opened(Dash(alt), a), Opened(Dash(alt), b));
    out := Close(out, alt, AltParts(text, html));
  }

  method Close(content: string, boundary: string, ghost parts: seq<seq<string>>) returns (out: string)
    requires content == Flat(Opened(Dash(boundary), parts))
    ensures out == Flat(Enclose(Dash(boundary), parts))
  {
    ghost var done;
    out, done := PartWriter.Push(content, Opened(Dash(boundary), parts), "--" + boundary + "--");
    OpenedCloses(Dash(boundary), parts);
  }

  /** A level that carries files: its first part, the files, the closing delimiter. */
  method LevelText(boundary: string, ct: string, content: string, ghost lines: seq<string>,
                   atts: seq<MailAttachment>, encoded: seq<string>, inlined: bool) returns (out: string)
    requires content == Flat(lines) && encoded == Encoded(atts)
    ensures out == Flat(Enclose(Dash(boundary), WithFiles(Headed(TypeOnly(ct), lines), Selected(atts, inlined))))
  {
    ghost var first := [Headed(TypeOnly(ct), lines)];
    ghost var rest := FilesLines(Selected(atts, inlined));
    out := FirstPart(boundary, ct, content, lines);
    out := PushFiles(out, boundary, atts, encoded, inlined);
    OpenedAppend(Dash(boundary), first, rest);
    FlatAppend(Opened(Dash(boundary), first), Opened(Dash(boundary), rest));
    out := Close(out, boundary, first + rest);
  }

  /** `body_with_attachments`, from the top-level Content-Type on. */
  method BodyWithAttachments(text: string, html: Option<string>, atts: seq<MailAttachment>, hash: Boundary.Hasher)
    returns (out: string)
    ensures var n := AttachedNode(text, html, atts, hash);
            out == Flat(Headed(TypeFields(n.ct), n.lines))
  {
    var encoded := EncodeAll(atts);
    var probe := Probe(text, html, encoded);
    var alt := Boundary.BoundaryWithPrefix(BOUNDARY_ALT, probe, hash);
    var rel := Boundary.BoundaryWithPrefix(BOUNDARY_REL, probe, hash);
    var mix := Boundary.BoundaryWithPrefix(BOUNDARY_MIX, probe, hash);

    var bodyCt, body;
    ghost var bodyNode := BodyNode(text, html, alt);
    if html.Some? {
      bodyCt := MultiType(ALTERNATIVE, alt, []);
      body := AlternativeText(alt, text, html.value);
    } else {
      bodyCt := TextType("text/plain");
      body := text + CRLF;
      FlatSplit(text);
    }

    var innerCt, inner := bodyCt, body;
    ghost var innerNode := InnerNode(bodyNode, rel, Selected(atts, true));
    var anyInline := AnyOf(atts, true);
    if anyInline {
      innerCt := MultiType(RELATED, rel, [Quoted("type", RootType(bodyCt))]);
      inner := LevelText(rel, bodyCt, body, bodyNode.lines, atts, encoded, true);
    }
    assert innerCt == innerNode.ct && inner == Flat(innerNode.lines);

    var anyFile := AnyOf(atts, false);
    if !anyFile {
      out := TopText(innerCt, inner, innerNode.lines);
    } else {
      var content := LevelText(mix, innerCt, inner, innerNode.lines, atts, encoded, false);
      out := TopText(MultiType(MIXED, mix, []), content, OuterNode(innerNode, mix, Selected(atts, false)).lines);
    }
  }

  /** Whether the filtered list is non-empty. */
  method AnyOf(atts: seq<MailAttachment>, inlined: bool) returns (any: bool)
    ensures any == (Selected(atts, inlined) != [])
  {
    any := false;
    for i := 0 to |atts|
      invariant any == (Selected(atts[..i], inlined) != [])
    {
      SelectedNext(atts, i, inlined);
      any := any || atts[i].isInline == inlined;
    }
    assert atts[..|atts|] == atts;
  }

  method TopText(ct: string, content: string, ghost lines: seq<string>) returns (out: string)
    requires content == Flat(lines)
    ensures out == Flat(Headed(TypeFields(ct), lines))
  {
    ghost var done;
    out, done := PartWriter.Push("", [], Line(Field(CONTENT_TYPE, ct)));
    out, done := PartWriter.Push(out, done, Line(VERSION_FIELD));
    out, done := PartWriter.Push(out, done, "");
    assert Lines(TypeFields(ct)) == [Line(Field(CONTENT_TYPE, ct)), Line(VERSION_FIELD)];
    FlatAppend(done, lines);
    assert done + lines == Headed(TypeFields(ct), lines);
    out := out + content;
  }

  method PushOptional(out: string, ghost lines: seq<string>, name: string, value: Option<string>)
    returns (more: string, ghost all: seq<string>)
    requires out == Flat(lines)
    ensures all == lines + Lines(Optional(name, value)) && more == Flat(all)
  {
    more, all := out, lines;
    if value.Some? {
      more, all := PartWriter.Push(more, all, Line(Field(name, value.value)));
    }
  }

  /** The address headers, an absent or blank copy list writing none. */
  method AddressText(p: ReplyParts) returns (out: string)
    ensures out == Flat(Lines(AddressFields(p)))
  {
    ghost var done;
    ghost var fields := [Field(TO, p.to)];
    out, done := PartWriter.Push("", [], Line(Field(TO, p.to)));
    assert done == Lines(fields);
    out, done := PushOptional(out, done, CC, Stated(p.cc));
    PartWriter.LinesAppend(fields, Optional(CC, Stated(p.cc)));
    fields := fields + Optional(CC, Stated(p.cc));
    out, done := PushOptional(out, done, BCC, Stated(p.bcc));
    PartWriter.LinesAppend(fields, Optional(BCC, Stated(p.bcc)));
    fields := fields + Optional(BCC, Stated(p.bcc));
    out, done := PartWriter.Push(out, done, Line(Field(SUBJECT, p.subject)));
    PartWriter.LinesAppend(fields, [Field(SUBJECT, p.subject)]);
    assert Lines([Field(SUBJECT, p.subject)]) == [Line(Field(SUBJECT, p.subject))];
    fields := fields + [Field(SUBJECT, p.subject)];
    out, done := PushOptional(out, done, IN_REPLY_TO, NonEmpty(p.inReplyTo));
    PartWriter.LinesAppend(fields, Optional(IN_REPLY_TO, NonEmpty(p.inReplyTo)));
    fields := fields + Optional(IN_REPLY_TO, NonEmpty(p.inReplyTo));
    out, done := PushOptional(out, done, REFERENCES, NonEmpty(p.references));
    PartWriter.LinesAppend(fields, Optional(REFERENCES, NonEmpty(p.references)));
  }

  lemma JoinTop(p: ReplyParts, ct: string, lines: seq<string>)
    ensures Flat(Lines(AddressFields(p))) + Flat(Headed(TypeFields(ct), lines)) == Flat(Headed(MessageFields(p, ct), lines))
  {
    var a, t := AddressFields(p), TypeFields(ct);
    PartWriter.LinesAppend(a, t);
    FlatAppend(Lines(a), Headed(t, lines));
    assert Lines(a) + Headed(t, lines) == Headed(a + t, lines);
  }

  /** The first header value with a line break in it, by name. */
  method FindFault(fields: seq<Field>) returns (fault: Option<string>)
    ensures fault == FirstFault(fields)
  {
    for i := 0 to |fields|
      invariant FirstFault(fields[i..]) == FirstFault(fields)
    {
      OneFurther(fields, i);
      if !NoLineBreak(fields[i].value) {
        return Some(fields[i].name);
      }
    }
    assert fields[|fields|..] == [];
    fault := None;
  }

  /** Everything below the address headers. */
  method ReplyContent(p: ReplyParts, text: string, html: Option<string>, hash: Boundary.Hasher) returns (rest: string)
    requires text == TextOf(p) && html == HtmlOf(p)
    ensures var n := ContentNode(p, hash);
            rest == if OpenEnded(p) then Flat(Headed(TypeFields(n.ct), [])) + text else Flat(Headed(TypeFields(n.ct), n.lines))
  {
    if p.attachments != [] {
      rest := BodyWithAttachments(text, html, p.attachments, hash);
    } else if html.None? {
      rest := TopText(TextType("text/plain"), "", []);
      rest := rest + text;
    } else {
      var probe := Probe(text, html, []);
      assert probe == [text, html.value];
      var alt := Boundary.BoundaryWithPrefix(BOUNDARY_ALT, probe, hash);
      var content := AlternativeText(alt, text, html.value);
      rest := TopText(MultiType(ALTERNATIVE, alt, []), content, Enclose(Dash(alt), AltParts(text, html.value)));
    }
  }

  lemma WireIs(p: ReplyParts, hash: Boundary.Hasher)
    ensures var n := ContentNode(p, hash);
            var rest := if OpenEnded(p) then Flat(Headed(TypeFields(n.ct), [])) + TextOf(p)
                        else Flat(Headed(TypeFields(n.ct), n.lines));
            Flat(Lines(AddressFields(p))) + rest == Wire(p, hash)
  {
    var n := ContentNode(p, hash);
    JoinTop(p, n.ct, []);
    JoinTop(p, n.ct, n.lines);
    Assoc(Flat(Lines(AddressFields(p))), Flat(Headed(TypeFields(n.ct), [])), TextOf(p));
  }

  /** `build_reply_rfc822`. */
  method BuildReply(p: ReplyParts, hash: Boundary.Hasher) returns (r: Result<seq<byte>, WriteError>)
    ensures r == Build(p, hash)
  {
    var fault := FindFault(Guarded(p));
    if fault.Some? {
      return Err(Invalid(fault.value + " header must not contain CR/LF"));
    }
    if IsBlank(p.to) {
      return Err(Invalid("reply has no recipient"));
    }
    var out := AddressText(p);
    var rest := ReplyContent(p, TextOf(p), HtmlOf(p), hash);
    WireIs(p, hash);
    r := Ok(Utf8.Encode(out + rest));
  }
}
