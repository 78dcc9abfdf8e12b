/** A forwarded message: the parts it quotes, the tree it documents, and the theorem that a recipient
    reads exactly that tree off the wire. */
module Forward {
  import opened Wrappers
  import opened Text
  import opened HeaderFields
  import opened Attachments
  import opened MimeReader
  import opened MimeTree
  import opened Reply
  import opened ReplyBuilder
  import Base64
  import Boundary
  import CharsetMeta
  import Html
  import LineEnds
  import PartWriter
  import QuotedPrintable
  import Utf8

  type byte = Utf8.byte

  datatype ForwardedOriginal = ForwardedOriginal(
    from: string, date: string, to: string, cc: string, subject: string,
    text: string, html: Option<string>, attachments: seq<MailAttachment>)

  datatype ForwardParts = ForwardParts(
    to: string, cc: Option<string>, bcc: Option<string>, subject: string,
    note: string, noteHtml: Option<string>, pixelUrl: Option<string>, original: ForwardedOriginal)

  const BANNER: string := "---------- Forwarded message ---------"

  // ---- The two parts before encoding ---------------------------------------------------------

  predicate IsNotNewline(c: char) {
    c != '\r' && c != '\n'
  }

  function StripNewlines(s: string): (r: string)
    ensures NoLineBreak(r)
  {
    Filter(s, IsNotNewline)
  }

  /** The quoted headers: the first four always, `Cc` only when there was one. */
  function QuotedRows(o: ForwardedOriginal): seq<(string, string)> {
    [("From", o.from), ("Date", o.date), ("Subject", o.subject), ("To", o.to)]
    + if IsBlank(o.cc) then [] else [("Cc", o.cc)]
  }

  function TextRow(row: (string, string)): string {
    row.0 + ": " + StripNewlines(row.1) + "\n"
  }

  function HtmlRow(row: (string, string)): string {
    "<b>" + row.0 + ":</b> " + Html.Escape(StripNewlines(row.1)) + "<br>\n"
  }

  function Rows(rows: seq<(string, string)>, write: ((string, string)) -> string): string {
    if rows == [] then "" else Rows(rows[..|rows| - 1], write) + write(rows[|rows| - 1])
  }

  function NoteText(p: ForwardParts): string {
    if IsBlank(p.note) then "" else p.note + "\n\n"
  }

  function TextPart(p: ForwardParts): string {
    NoteText(p) + BANNER + "\n" + Rows(QuotedRows(p.original), TextRow) + "\n" + p.original.text
  }

  function NoteHtml(p: ForwardParts): string {
    p.noteHtml.GetOr(Html.TextAsHtml(p.note))
  }

  function OriginalHtml(o: ForwardedOriginal): string {
    match o.html
    case Some(h) => CharsetMeta.Strip(h)
    case None => Html.TextAsHtml(o.text)
  }

  const OPENING: string := "<div class=\"passband_forward\">\n<hr>\n<p>"

  function HtmlPart(p: ForwardParts): string {
    "<html><body>\n" + NoteHtml(p) + OPENING + BANNER + "<br>\n" + Rows(QuotedRows(p.original), HtmlRow) + "</p>\n"
    + OriginalHtml(p.original) + "\n</div>\n" + Html.Pixel(p.pixelUrl) + "</body></html>\n"
  }

  // ---- What has to be written ----------------------------------------------------------------

  /** The bytes a body part stands for: its text with every line end made CRLF. */
  function Folded(text: string): seq<byte> {
    Utf8.Encode(NormalizeForward(text))
  }

  function QpOf(text: string): string {
    QuotedPrintable.Encode(Folded(text))
  }

  const QP_FIELD := Field(TRANSFER_ENCODING, "quoted-printable")

  function QpFields(mime: string): seq<Field> {
    [Field(CONTENT_TYPE, TextType(mime)), QP_FIELD]
  }

  function QpLines(mime: string, text: string): seq<string> {
    Headed(QpFields(mime), Split(QpOf(text)))
  }

  function QpParts(text: string, html: string): seq<seq<string>> {
    [QpLines("text/plain", text), QpLines("text/html", html)]
  }

  function AltNode(text: string, html: string, alt: string): Node {
    Node(MultiType(ALTERNATIVE, alt, []), Enclose(Dash(alt), QpParts(text, html)))
  }

  function MixNode(body: Node, mix: string, files: seq<FilePart>): Node {
    if files == [] then body
    else Node(MultiType(MIXED, mix, []), Enclose(Dash(mix), WithFiles(AsPart(body), files)))
  }

  function ForwardProbe(p: ForwardParts): seq<string> {
    [QpOf(TextPart(p)), QpOf(HtmlPart(p))] + Encoded(p.original.attachments)
  }

  function AltBound(p: ForwardParts, hash: Boundary.Hasher): string {
    Boundary.Boundary(BOUNDARY_ALT, ForwardProbe(p), hash)
  }

  function MixBound(p: ForwardParts, hash: Boundary.Hasher): string {
    Boundary.Boundary(BOUNDARY_MIX, ForwardProbe(p), hash)
  }

  function ForwardNode(p: ForwardParts, hash: Boundary.Hasher): Node {
    MixNode(AltNode(TextPart(p), HtmlPart(p), AltBound(p, hash)), MixBound(p, hash), PartsOf(p.original.attachments))
  }

  function ForwardAddresses(p: ForwardParts): seq<Field> {
    [Field(TO, p.to)] + Optional(CC, Stated(p.cc)) + Optional(BCC, Stated(p.bcc)) + [Field(SUBJECT, p.subject)]
  }

  function ForwardGuarded(p: ForwardParts): seq<Field> {
    [Field(TO, p.to), Field(CC, p.cc.GetOr("")), Field(BCC, p.bcc.GetOr("")), Field(SUBJECT, p.subject)]
  }

  function ForwardFields(p: ForwardParts, ct: string): seq<Field> {
    ForwardAddresses(p) + TypeFields(ct)
  }

  function ForwardWireLines(p: ForwardParts, hash: Boundary.Hasher): seq<string> {
    var n := ForwardNode(p, hash);
    Headed(ForwardFields(p, n.ct), n.lines)
  }

  predicate ForwardAccepted(p: ForwardParts) {
    FirstFault(ForwardGuarded(p)).None? && !IsBlank(p.to)
  }

  function BuildOf(p: ForwardParts, hash: Boundary.Hasher): Result<seq<byte>, WriteError> {
    match FirstFault(ForwardGuarded(p))
    case Some(name) => Err(Invalid(name + " header must not contain CR/LF"))
    case None =>
      if IsBlank(p.to) then Err(Invalid("forward has no recipient"))
      else Ok(Utf8.Encode(Flat(ForwardWireLines(p, hash))))
  }

  // ---- What a recipient should see -----------------------------------------------------------

  function AltEntity(text: string, html: string): Entity {
    Multi(ALTERNATIVE, None, [TextEntity("text/plain", Folded(text)), TextEntity("text/html", Folded(html))])
  }

  function ForwardTree(p: ForwardParts): Entity {
    var body := AltEntity(TextPart(p), HtmlPart(p));
    var files := PartsOf(p.original.attachments);
    if files == [] then body else Multi(MIXED, None, [body] + FileEntities(files))
  }

  // ---- One encoded part ----------------------------------------------------------------------

  lemma QpHeader(ct: string)
    requires NoLineBreak(ct)
    ensures var fields := [Field(CONTENT_TYPE, ct), QP_FIELD];
            && AllWellFormed(fields)
            && Lookup(fields, CONTENT_TYPE) == Some(ct) && Lookup(fields, TRANSFER_ENCODING) == Some(QP_FIELD.value)
            && Lookup(fields, DISPOSITION) == None && Lookup(fields, CONTENT_ID) == None
  {
    TypeNamesAreGood();
    QpFieldIsWellFormed();
    TwoLookups(Field(CONTENT_TYPE, ct), QP_FIELD);
  }

  lemma QpFieldIsWellFormed()
    ensures WellFormed(QP_FIELD)
  {
    EncodingNameIsGood();
  }

  lemma TwoLookups(a: Field, b: Field)
    requires a.name == CONTENT_TYPE && b.name == TRANSFER_ENCODING
    ensures Lookup([a, b], CONTENT_TYPE) == Some(a.value) && Lookup([a, b], TRANSFER_ENCODING) == Some(b.value)
    ensures Lookup([a, b], DISPOSITION) == None && Lookup([a, b], CONTENT_ID) == None
  {
    NamesDiffer();
    assert [a, b] == [a] + [b] && [b] == [b] + [];
    LookupSkip(a, [b], TRANSFER_ENCODING);
    LookupSkip(a, [b], DISPOSITION);
    LookupSkip(a, [b], CONTENT_ID);
    LookupSkip(b, [], DISPOSITION);
    LookupSkip(b, [], CONTENT_ID);
  }

  lemma QpFieldsAreWellFormed(mime: string)
    requires IsTextMime(mime)
    ensures AllWellFormed(QpFields(mime))
    ensures Lookup(QpFields(mime), CONTENT_TYPE) == Some(TextType(mime))
    ensures Lookup(QpFields(mime), TRANSFER_ENCODING) == Some(QP_FIELD.value)
    ensures Lookup(QpFields(mime), DISPOSITION) == None && Lookup(QpFields(mime), CONTENT_ID) == None
  {
    TextTypeIsSafe(mime);
    QpHeader(TextType(mime));
  }

  /** The part comes back as the folded text, byte for byte. */
  lemma QpPartRead(mime: string, text: string)
    requires IsTextMime(mime)
    ensures ReadEntity(QpLines(mime, text)) == TextEntity(mime, Folded(text))
  {
    QpFieldsAreWellFormed(mime);
    TextTypeRead(mime);
    LeafRead(QpFields(mime), Split(QpOf(text)));
    JoinSplit(QpOf(text));
    QuotedPrintable.RoundTrip(Folded(text));
  }

  lemma QpPartHasNo(mime: string, text: string, boundary: string)
    requires IsTextMime(mime) && !Contains(QpOf(text), boundary)
    ensures NoDelimiter(QpLines(mime, text), Dash(boundary))
  {
    QpFieldsAreWellFormed(mime);
    TextHasNo(QpOf(text), boundary);
    HeadedHasNo(QpFields(mime), Split(QpOf(text)), boundary);
  }

  lemma QpPartsHasNo(text: string, html: string, boundary: string)
    requires !Contains(QpOf(text), boundary) && !Contains(QpOf(html), boundary)
    ensures NoDelimiters(QpParts(text, html), Dash(boundary))
  {
    QpPartHasNo("text/plain", text, boundary);
    QpPartHasNo("text/html", html, boundary);
  }

  // ---- Suffix zero ---------------------------------------------------------------------------

  lemma PrefixSpells(s: string, prefix: string)
    requires Contains(s, prefix) && |prefix| >= 2 && prefix[0] == '=' && prefix[1] == '_'
    ensures QuotedPrintable.SpellsEqualsUnderscore(s)
  {
    var i :| 0 <= i <= |s| && OccursAt(s, prefix, i);
    assert s[i] == s[i..i + |prefix|][0] && s[i + 1] == s[i..i + |prefix|][1];
  }

  lemma NoUnderscoreNoSpelling(s: string)
    requires '_' !in s
    ensures !QuotedPrintable.SpellsEqualsUnderscore(s)
  {
  }

  lemma ProbeLacksPrefix(p: ForwardParts, prefix: string)
    requires |prefix| >= 2 && prefix[0] == '=' && prefix[1] == '_'
    ensures Boundary.Clean(prefix, ForwardProbe(p))
  {
    var probe := ForwardProbe(p);
    forall i | 0 <= i < |probe| ensures !Contains(probe[i], prefix) {
      if i < 2 {
        QuotedPrintable.EncodedLacksEqualsUnderscore(Folded(if i == 0 then TextPart(p) else HtmlPart(p)), 0);
      } else {
        assert probe[i] == Encoded(p.original.attachments)[i - 2];
        Base64.BodyLacksUnderscore(p.original.attachments[i - 2].data);
        NoUnderscoreNoSpelling(probe[i]);
      }
      if Contains(probe[i], prefix) {
        PrefixSpells(probe[i], prefix);
      }
    }
  }

  /** No forward ever bumps a boundary, whatever is quoted or attached and whatever the hash. */
  lemma ForwardTakesZero(p: ForwardParts, hash: Boundary.Hasher)
    ensures AltBound(p, hash) == BOUNDARY_ALT + "0" && MixBound(p, hash) == BOUNDARY_MIX + "0"
  {
    AltPrefix();
    MixPrefix();
    ProbeLacksPrefix(p, BOUNDARY_ALT);
    ProbeLacksPrefix(p, BOUNDARY_MIX);
    Boundary.HonestPartsTakeZero(BOUNDARY_ALT, ForwardProbe(p), hash);
    Boundary.HonestPartsTakeZero(BOUNDARY_MIX, ForwardProbe(p), hash);
  }

  // ---- The levels ----------------------------------------------------------------------------

  predicate FitsForward(text: string, html: string, alt: string, mix: string) {
    && IsLevel(alt, 'a') && IsLevel(mix, 'm')
    && !Contains(QpOf(text), alt) && !Contains(QpOf(html), alt)
    && !Contains(QpOf(text), mix) && !Contains(QpOf(html), mix)
  }

  lemma BoundsFitForward(p: ForwardParts, hash: Boundary.Hasher)
    ensures FitsForward(TextPart(p), HtmlPart(p), AltBound(p, hash), MixBound(p, hash))
  {
    var probe := ForwardProbe(p);
    AltPrefix();
    MixPrefix();
    LevelOf(BOUNDARY_ALT, 'a', probe, hash);
    LevelOf(BOUNDARY_MIX, 'm', probe, hash);
    Boundary.BoundaryIsClean(BOUNDARY_ALT, probe, hash);
    Boundary.BoundaryIsClean(BOUNDARY_MIX, probe, hash);
    assert probe[0] == QpOf(TextPart(p)) && probe[1] == QpOf(HtmlPart(p));
  }

  lemma AltTypeIsSafe(text: string, html: string, alt: string)
    requires IsLevel(alt, 'a')
    ensures NoLineBreak(AltNode(text, html, alt).ct) && Carries(TypeOnly(AltNode(text, html, alt).ct), AltNode(text, html, alt).ct)
  {
    AlternativeIsMulti();
    MultiTypeRead(ALTERNATIVE, alt, []);
    TypeOnlyCarries(AltNode(text, html, alt).ct);
  }

  lemma AltLevelRead(fields: seq<Field>, text: string, html: string, alt: string, mix: string, tail: seq<string>)
    requires FitsForward(text, html, alt, mix)
    requires AllWellFormed(fields) && Lookup(fields, CONTENT_TYPE) == Some(AltNode(text, html, alt).ct)
    ensures ReadEntity(Headed(fields, AltNode(text, html, alt).lines + tail)) == AltEntity(text, html)
  {
    AlternativeIsMulti();
    QpPartsHasNo(text, html, alt);
    QpPartRead("text/plain", text);
    QpPartRead("text/html", html);
    assert ReadEntities(QpParts(text, html))
        == [TextEntity("text/plain", Folded(text)), TextEntity("text/html", Folded(html))];
    LevelRead(fields, ALTERNATIVE, alt, [], QpParts(text, html), tail);
  }

  lemma AltPartFacts(text: string, html: string, alt: string, mix: string)
    requires FitsForward(text, html, alt, mix)
    ensures NoDelimiter(AsPart(AltNode(text, html, alt)), Dash(mix))
    ensures ReadEntity(AsPart(AltNode(text, html, alt))) == AltEntity(text, html)
  {
    var n := AltNode(text, html, alt);
    AltTypeIsSafe(text, html, alt);
    QpPartsHasNo(text, html, mix);
    EncloseHasNo(mix, 'm', alt, 'a', QpParts(text, html));
    HeadedHasNo(TypeOnly(n.ct), n.lines, mix);
    AltLevelRead(TypeOnly(n.ct), text, html, alt, mix, []);
    assert n.lines + [] == n.lines;
  }

  lemma MixLevelRead(fields: seq<Field>, text: string, html: string, alt: string, mix: string,
                     files: seq<FilePart>, tail: seq<string>)
    requires FitsForward(text, html, alt, mix) && AllGoodHeads(files) && files != []
    requires AllWellFormed(fields) && Lookup(fields, CONTENT_TYPE) == Some(MixNode(AltNode(text, html, alt), mix, files).ct)
    ensures ReadEntity(Headed(fields, MixNode(AltNode(text, html, alt), mix, files).lines + tail))
            == Multi(MIXED, None, [AltEntity(text, html)] + FileEntities(files))
  {
    var body := AltNode(text, html, alt);
    MixedIsMulti();
    AltPartFacts(text, html, alt, mix);
    WithFilesHasNo(AsPart(body), files, mix);
    WithFilesRead(AsPart(body), AltEntity(text, html), files);
    LevelRead(fields, MIXED, mix, [], WithFiles(AsPart(body), files), tail);
  }

  // ---- Header proofs -------------------------------------------------------------------------

  lemma ForwardAddressesAreAddresses(p: ForwardParts)
    requires FirstFault(ForwardGuarded(p)).None?
    ensures OnlyAddresses(ForwardAddresses(p))
  {
    var g := ForwardGuarded(p);
    NoFault(g);
    assert NoLineBreak(g[0].value) && NoLineBreak(g[1].value) && NoLineBreak(g[2].value) && NoLineBreak(g[3].value);
    var a, b := Optional(CC, Stated(p.cc)), Optional(BCC, Stated(p.bcc));
    OnlyAddressesJoin([Field(TO, p.to)], a);
    OnlyAddressesJoin([Field(TO, p.to)] + a, b);
    OnlyAddressesJoin([Field(TO, p.to)] + a + b, [Field(SUBJECT, p.subject)]);
  }

  // ---- Every line of it ----------------------------------------------------------------------

  /** No CR, no LF, and at most 76 characters unless it is one of the header lines in `wide`. */
  predicate Tidy(l: string, wide: set<string>) {
    NoLineBreak(l) && (|l| <= QuotedPrintable.MAX_LINE || l in wide)
  }

  predicate AllTidy(lines: seq<string>, wide: set<string>) {
    forall i :: 0 <= i < |lines| ==> Tidy(lines[i], wide)
  }

  lemma ConcatTidy(a: seq<string>, b: seq<string>, wide: set<string>)
    requires AllTidy(a, wide) && AllTidy(b, wide)
    ensures AllTidy(a + b, wide)
  {
  }

  lemma HeadedTidy(fields: seq<Field>, content: seq<string>, wide: set<string>)
    requires AllTidy(Lines(fields), wide) && AllTidy(content, wide)
    ensures AllTidy(Headed(fields, content), wide)
  {
    assert Tidy("", wide);
    ConcatTidy(Lines(fields), [""], wide);
    ConcatTidy(Lines(fields) + [""], content, wide);
  }

  lemma {:induction false} EncloseTidy(boundary: string, parts: seq<seq<string>>, wide: set<string>)
    requires Boundary.IsBoundaryText(boundary) && |boundary| <= 72
    requires forall i :: 0 <= i < |parts| ==> AllTidy(parts[i], wide)
    ensures AllTidy(Enclose(Dash(boundary), parts), wide)
  {
    var dash := Dash(boundary);
    assert Tidy(dash, wide) && Tidy(dash + "--", wide);
    if parts != [] {
      EncloseTidy(boundary, parts[1..], wide);
      ConcatTidy([dash], parts[0], wide);
      ConcatTidy([dash] + parts[0], Enclose(dash, parts[1..]), wide);
    }
  }

  lemma {:induction false} TokensHaveNoBreak(l: string)
    requires QuotedPrintable.WholeTokens(l)
    ensures NoLineBreak(l)
  {
    if l != "" && l != "=" {
      var n := if l[0] == '=' then 3 else 1;
      TokensHaveNoBreak(l[n..]);
      assert forall i :: n <= i < |l| ==> l[i] == l[n..][i - n];
    }
  }

  lemma FieldLine(name: string, main: string, p: Param)
    ensures |Line(Field(name, Render(main, [p])))| == |name| + 2 + |main| + |RenderParam(p)|
  {
    PartWriter.OneParam(p);
  }

  lemma QpHeadersTidy(mime: string, wide: set<string>)
    requires IsTextMime(mime)
    ensures AllTidy(Lines(QpFields(mime)), wide)
  {
    QpFieldsAreWellFormed(mime);
    FieldLine(CONTENT_TYPE, mime, PLAIN_UTF8);
    assert NoLineBreak(QP_FIELD.name) && NoLineBreak(CONTENT_TYPE);
    assert |Line(QP_FIELD)| == 43;
    assert |RenderParam(PLAIN_UTF8)| == 17;
    assert Tidy(Line(QP_FIELD), wide);
    assert WellFormed(Field(CONTENT_TYPE, TextType(mime)));
    assert Tidy(Line(Field(CONTENT_TYPE, TextType(mime))), wide);
  }

  lemma QpPartTidy(mime: string, text: string, wide: set<string>)
    requires IsTextMime(mime)
    ensures AllTidy(QpLines(mime, text), wide)
  {
    var lines := Split(QpOf(text));
    QuotedPrintable.EncodedLines(Folded(text));
    forall i | 0 <= i < |lines| ensures Tidy(lines[i], wide) {
      assert QuotedPrintable.GoodLine(lines[i]);
      TokensHaveNoBreak(lines[i]);
    }
    QpHeadersTidy(mime, wide);
    HeadedTidy(QpFields(mime), lines, wide);
  }

  lemma AltNodeTidy(text: string, html: string, alt: string, wide: set<string>)
    requires IsLevel(alt, 'a') && |alt| <= 16
    ensures AllTidy(AltNode(text, html, alt).lines, wide) && AllTidy(AsPart(AltNode(text, html, alt)), wide)
  {
    var n := AltNode(text, html, alt);
    QpPartTidy("text/plain", text, wide);
    QpPartTidy("text/html", html, wide);
    EncloseTidy(alt, QpParts(text, html), wide);
    AltTypeIsSafe(text, html, alt);
    BoundaryLine(alt);
    assert NoLineBreak(CONTENT_TYPE);
    assert Lines(TypeOnly(n.ct)) == [Line(Field(CONTENT_TYPE, n.ct))];
    assert Tidy(Line(Field(CONTENT_TYPE, n.ct)), wide);
    HeadedTidy(TypeOnly(n.ct), n.lines, wide);
  }

  lemma BoundaryLine(alt: string)
    ensures |Line(Field(CONTENT_TYPE, MultiType(ALTERNATIVE, alt, [])))| == 48 + |alt|
  {
    var p := Quoted("boundary", alt);
    assert [p] + [] == [p];
    FieldLine(CONTENT_TYPE, ALTERNATIVE, p);
    assert |RenderParam(p)| == 13 + |alt|;
    assert |CONTENT_TYPE| == 12 && |ALTERNATIVE| == 21;
  }

  function HeaderLines(files: seq<FilePart>): set<string> {
    set i, l | 0 <= i < |files| && l in Lines(PartFields(files[i].head)) :: l
  }

  lemma FieldsTidy(fields: seq<Field>, wide: set<string>)
    requires AllWellFormed(fields) && (forall l :: l in Lines(fields) ==> l in wide)
    ensures AllTidy(Lines(fields), wide)
  {
    forall i | 0 <= i < |fields| ensures Tidy(Lines(fields)[i], wide) {
      assert WellFormed(fields[i]) && Lines(fields)[i] == Line(fields[i]);
    }
  }

  lemma FileTidy(file: FilePart, wide: set<string>)
    requires GoodHead(file.head) && (forall l :: l in Lines(PartFields(file.head)) ==> l in wide)
    ensures AllTidy(FileLines(file), wide)
  {
    PartFieldsAreWellFormed(file.head);
    FieldsTidy(PartFields(file.head), wide);
    Base64.BodyLines(file.data);
    HeadedTidy(PartFields(file.head), Base64.Chunks(Base64.Encode(file.data)), wide);
  }

  lemma MixNodeTidy(body: Node, mix: string, files: seq<FilePart>, wide: set<string>)
    requires IsLevel(mix, 'm') && |mix| <= 16 && AllGoodHeads(files) && HeaderLines(files) <= wide
    requires AllTidy(body.lines, wide) && AllTidy(AsPart(body), wide)
    ensures AllTidy(MixNode(body, mix, files).lines, wide)
  {
    var parts := WithFiles(AsPart(body), files);
    forall i | 0 <= i < |files| ensures AllTidy(FileLines(files[i]), wide) {
      assert forall l :: l in Lines(PartFields(files[i].head)) ==> l in HeaderLines(files);
      FileTidy(files[i], wide);
    }
    forall i | 0 <= i < |parts| ensures AllTidy(parts[i], wide) {
      assert i > 0 ==> parts[i] == FileLines(files[i - 1]);
    }
    EncloseTidy(mix, parts, wide);
  }

  /** The header lines of the message and of its files: the only ones that may be long. */
  function WideLines(p: ForwardParts, hash: Boundary.Hasher): set<string> {
    (set l | l in Lines(ForwardFields(p, ForwardNode(p, hash).ct)) :: l) + HeaderLines(PartsOf(p.original.attachments))
  }

  lemma ForwardNodeTidy(p: ForwardParts, hash: Boundary.Hasher)
    ensures AllTidy(ForwardNode(p, hash).lines, WideLines(p, hash))
  {
    var alt, mix := AltBound(p, hash), MixBound(p, hash);
    BoundsFitForward(p, hash);
    ForwardTakesZero(p, hash);
    assert |alt| == |mix| == 16;
    PartsAreGood(p.original.attachments);
    AltNodeTidy(TextPart(p), HtmlPart(p), alt, WideLines(p, hash));
    MixNodeTidy(AltNode(TextPart(p), HtmlPart(p), alt), mix, PartsOf(p.original.attachments), WideLines(p, hash));
  }

  lemma ForwardTypeIsSafe(p: ForwardParts, hash: Boundary.Hasher)
    requires ForwardAccepted(p)
    ensures var ct := ForwardNode(p, hash).ct;
            NoLineBreak(ct) && Carries(ForwardFields(p, ct), ct)
  {
    BoundsFitForward(p, hash);
    AltTypeIsSafe(TextPart(p), HtmlPart(p), AltBound(p, hash));
    MixedIsMulti();
    MultiTypeRead(MIXED, MixBound(p, hash), []);
    ForwardAddressesAreAddresses(p);
    AddressedCarries(ForwardAddresses(p), ForwardNode(p, hash).ct);
  }

  /** Every line of an accepted forward, headers and attachments included, is free of CR and LF, and
      only header lines are over 76 characters. */
  lemma ForwardLinesAreTidy(p: ForwardParts, hash: Boundary.Hasher)
    requires ForwardAccepted(p)
    ensures AllTidy(ForwardWireLines(p, hash), WideLines(p, hash))
    ensures LineEnds.NoBareBreak(Flat(ForwardWireLines(p, hash)))
  {
    var n := ForwardNode(p, hash);
    ForwardTypeIsSafe(p, hash);
    ForwardNodeTidy(p, hash);
    TidyMessage(ForwardFields(p, n.ct), n.lines, WideLines(p, hash));
  }

  lemma TidyMessage(fields: seq<Field>, content: seq<string>, wide: set<string>)
    requires AllWellFormed(fields) && (forall l :: l in Lines(fields) ==> l in wide) && AllTidy(content, wide)
    ensures AllTidy(Headed(fields, content), wide) && LineEnds.NoBareBreak(Flat(Headed(fields, content)))
  {
    FieldsTidy(fields, wide);
    HeadedTidy(fields, content, wide);
    LineEnds.FlatHasNoBare(Headed(fields, content));
  }

  lemma TidyIsAtomic(lines: seq<string>, wide: set<string>)
    requires AllTidy(lines, wide)
    ensures AllAtomic(lines)
  {
    forall i | 0 <= i < |lines| ensures Atomic(lines[i]) {
      assert Tidy(lines[i], wide);
      SplitNoBreak(lines[i]);
    }
  }

  // ---- The theorem ---------------------------------------------------------------------------

  lemma ForwardContentReads(p: ForwardParts, hash: Boundary.Hasher)
    requires ForwardAccepted(p)
    ensures var n := ForwardNode(p, hash);
            ReadEntity(Headed(ForwardFields(p, n.ct), n.lines + [""])) == ForwardTree(p)
  {
    var fields := ForwardFields(p, ForwardNode(p, hash).ct);
    var files := PartsOf(p.original.attachments);
    ForwardTypeIsSafe(p, hash);
    BoundsFitForward(p, hash);
    PartsAreGood(p.original.attachments);
    if files == [] {
      AltLevelRead(fields, TextPart(p), HtmlPart(p), AltBound(p, hash), MixBound(p, hash), [""]);
    } else {
      MixLevelRead(fields, TextPart(p), HtmlPart(p), AltBound(p, hash), MixBound(p, hash), files, [""]);
    }
  }

  lemma ForwardSplits(p: ForwardParts, hash: Boundary.Hasher)
    requires ForwardAccepted(p)
    ensures var n := ForwardNode(p, hash);
            Split(Flat(ForwardWireLines(p, hash))) == Headed(ForwardFields(p, n.ct), n.lines + [""])
  {
    var n := ForwardNode(p, hash);
    ForwardTypeIsSafe(p, hash);
    ForwardNodeTidy(p, hash);
    TidyIsAtomic(n.lines, WideLines(p, hash));
    FlatRead(ForwardFields(p, n.ct), n.lines);
  }

  /** Every accepted forward, whatever it quotes and carries, is read back as the documented tree: its
      own address headers and no threading ones, both parts decoding to their CRLF-folded sources, and
      every attachment in order under its cleaned name with every byte of it. */
  lemma ForwardReadsBack(p: ForwardParts, hash: Boundary.Hasher)
    requires ForwardAccepted(p)
    ensures BuildOf(p, hash).Ok?
    ensures ReadMessage(BuildOf(p, hash).value) == Some(Message(ForwardFields(p, ForwardNode(p, hash).ct), ForwardTree(p)))
  {
    var n := ForwardNode(p, hash);
    ForwardTypeIsSafe(p, hash);
    ForwardSplits(p, hash);
    ForwardContentReads(p, hash);
    WireRead(Flat(ForwardWireLines(p, hash)), ForwardFields(p, n.ct), n.lines + [""]);
  }
}
