/** `build_forward_rfc822` and the methods it is made of, each proved against what it has to write. */
module ForwardBuilder {
  import opened Wrappers
  import opened Text
  import opened HeaderFields
  import opened Attachments
  import opened MimeReader
  import opened MimeTree
  import opened Reply
  import opened ReplyBuilder
  import opened Forward
  import opened Seqs
  import Base64
  import Boundary
  import CharsetMeta
  import Delimiters
  import Html
  import PartWriter
  import QuotedPrintable
  import Utf8

  // ---- The quoted parts ----------------------------------------------------------------------

  lemma RowsStep(rows: seq<(string, string)>, row: (string, string), write: ((string, string)) -> string)
    ensures Rows(rows + [row], write) == Rows(rows, write) + write(row)
  {
    assert (rows + [row])[..|rows|] == rows;
  }

  method PushRow(out: string, ghost rows: seq<(string, string)>, name: string, value: string)
    returns (more: string, ghost all: seq<(string, string)>)
    requires out == Rows(rows, TextRow)
    ensures all == rows + [(name, value)] && more == Rows(all, TextRow)
  {
    RowsStep(rows, (name, value), TextRow);
    more, all := out + TextRow((name, value)), rows + [(name, value)];
  }

  /** The quoted headers as text. */
  method RowsText(o: ForwardedOriginal) returns (out: string)
    ensures out == Rows(QuotedRows(o), TextRow)
  {
    ghost var rows;
    out, rows := PushRow("", [], "From", o.from);
    out, rows := PushRow(out, rows, "Date", o.date);
    out, rows := PushRow(out, rows, "Subject", o.subject);
    out, rows := PushRow(out, rows, "To", o.to);
    if !IsBlank(o.cc) {
      out, rows := PushRow(out, rows, "Cc", o.cc);
    }
    assert rows == QuotedRows(o);
  }

  method TextPartText(p: ForwardParts) returns (out: string)
    ensures out == TextPart(p)
  {
    var rows := RowsText(p.original);
    out := "";
    if !IsBlank(p.note) {
      out := p.note + "\n\n";
    }
    out := out + BANNER;
    out := out + "\n";
    out := out + rows;
    out := out + "\n";
    out := out + p.original.text;
  }

  /** The quoted headers as markup: five labels, an empty `Cc` skipped. */
  method RowsHtml(o: ForwardedOriginal) returns (out: string)
    ensures out == Rows(QuotedRows(o), HtmlRow)
  {
    var labels := [("From", o.from), ("Date", o.date), ("Subject", o.subject), ("To", o.to), ("Cc", o.cc)];
    assert labels[..4] == QuotedRows(o)[..4];
    out := "";
    for i := 0 to |labels|
      invariant i <= 4 ==> out == Rows(labels[..i], HtmlRow)
      invariant i == 5 ==> out == Rows(QuotedRows(o), HtmlRow)
    {
      OneLonger(labels, i);
      if i == 4 && IsBlank(labels[i].1) {
        assert QuotedRows(o) == labels[..4];
        continue;
      }
      out := out + HtmlRow(labels[i]);
      if i == 4 {
        assert QuotedRows(o) == labels[..5];
      }
    }
  }

  method HtmlPartText(p: ForwardParts) returns (out: string)
    ensures out == HtmlPart(p)
  {
    var note, originalHtml;
    if p.noteHtml.Some? {
      note := p.noteHtml.value;
    } else {
      note := Html.ParagraphsHtml(p.note);
    }
    if p.original.html.Some? {
      originalHtml := CharsetMeta.StripCharsetMeta(p.original.html.value);
    } else {
      originalHtml := Html.ParagraphsHtml(p.original.text);
    }
    var rows := RowsHtml(p.original);
    out := "<html><body>\n";
    out := out + note;
    out := out + OPENING;
    out := out + BANNER;
    out := out + "<br>\n";
    out := out + rows;
    out := out + "</p>\n";
    out := out + originalHtml;
    out := out + "\n</div>\n";
    out := out + Html.Pixel(p.pixelUrl);
    out := out + "</body></html>\n";
  }

  // ---- The section ---------------------------------------------------------------------------

  /** One encoded part behind its delimiter line. */
  method QpPartText(alt: string, mime: string, ghost text: string, encoded: string) returns (out: string)
    requires encoded == QpOf(text)
    ensures out == Flat(Opened(Dash(alt), [QpLines(mime, text)]))
  {
    ghost var done;
    out, done := PartWriter.Push("", [], "--" + alt);
    out, done := PartWriter.Push(out, done, Line(Field(CONTENT_TYPE, TextType(mime))));
    out, done := PartWriter.Push(out, done, Line(QP_FIELD));
    out, done := PartWriter.Push(out, done, "");
    FlatSplit(encoded);
    FlatAppend(done, Split(encoded));
    out := out + (encoded + CRLF);
    assert done == [Dash(alt), Line(Field(CONTENT_TYPE, TextType(mime))), Line(QP_FIELD), ""];
    TwoHeaders(Dash(alt), Field(CONTENT_TYPE, TextType(mime)), QP_FIELD, Split(encoded));
    OpenedOne(Dash(alt), QpLines(mime, text));
  }

  lemma TwoHeaders(dash: string, a: Field, b: Field, content: seq<string>)
    ensures [dash, Line(a), Line(b), ""] + content == [dash] + Headed([a, b], content)
  {
    assert Lines([a, b]) == [Line(a), Line(b)];
  }

  /** `alternative_section`. */
  method AlternativeSection(alt: string, ghost text: string, ghost html: string, encodedText: string, encodedHtml: string)
    returns (out: string)
    requires encodedText == QpOf(text) && encodedHtml == QpOf(html)
    ensures out == Flat(AltNode(text, html, alt).lines)
  {
    var first := QpPartText(alt, "text/plain", text, encodedText);
    var second := QpPartText(alt, "text/html", html, encodedHtml);
    out := first + second;
    ghost var a, b := [QpLines("text/plain", text)], [QpLines("text/html", html)];
    OpenedAppend(Dash(alt), a, b);
    assert a + b == QpParts(text, html);
    FlatAppend(Opened(Dash(alt), a), Opened(Dash(alt), b));
    out := Close(out, alt, QpParts(text, html));
  }

  /** Every attachment pushed as a part, in order, inline or not. */
  method PushAll(content: string, boundary: string, atts: seq<MailAttachment>, encoded: seq<string>) returns (out: string)
    requires encoded == Encoded(atts)
    ensures out == content + Flat(Opened(Dash(boundary), FilesLines(PartsOf(atts))))
  {
    var files := "";
    for i := 0 to |atts|
      invariant files == Flat(Opened(Dash(boundary), FilesLines(PartsOf(atts[..i]))))
    {
      AllNext(atts, i);
      files := PushFile(files, boundary, atts[i], encoded[i], PartsOf(atts[..i]));
    }
    assert atts[..|atts|] == atts;
    out := content + files;
  }

  lemma AllNext(atts: seq<MailAttachment>, i: nat)
    requires i < |atts|
    ensures PartsOf(atts[..i + 1]) == PartsOf(atts[..i]) + [PartOf(atts[i])]
  {
    var parts := PartsOf(atts[..i + 1]);
    assert parts[..i] == PartsOf(atts[..i]);
    assert parts[i] == PartOf(atts[..i + 1][i]);
    LastOff(parts);
  }

  lemma LastOff(parts: seq<FilePart>)
    requires parts != []
    ensures parts == parts[..|parts| - 1] + [parts[|parts| - 1]]
  {
  }

  /** The mixed level: the section as its first part, the attachments behind it. */
  method MixedText(mix: string, ghost body: Node, ct: string, section: string, atts: seq<MailAttachment>, encoded: seq<string>)
    returns (out: string)
    requires ct == body.ct && section == Flat(body.lines) && encoded == Encoded(atts)
    ensures out == Flat(Enclose(Dash(mix), WithFiles(AsPart(body), PartsOf(atts))))
  {
    ghost var first := [AsPart(body)];
    ghost var rest := FilesLines(PartsOf(atts));
    out := FirstPart(mix, ct, section, body.lines);
    out := PushAll(out, mix, atts, encoded);
    OpenedAppend(Dash(mix), first, rest);
    FlatAppend(Opened(Dash(mix), first), Opened(Dash(mix), rest));
    out := Close(out, mix, first + rest);
  }

  // ---- The builder ---------------------------------------------------------------------------

  method ForwardAddressText(p: ForwardParts) returns (out: string)
    ensures out == Flat(Lines(ForwardAddresses(p)))
  {
    ghost var done;
    ghost var fields := [Field(TO, p.to)];
    out, done := PartWriter.Push("", [], Line(Field(TO, p.to)));
    assert done == Lines(fields);
    out, done := PushOptional(out, done, CC, Stated(p.cc));
    PartWriter.LinesAppend(fields, Optional(CC, Stated(p.cc)));
    fields := fields + Optional(CC, Stated(p.cc));
    out, done := PushOptional(out, done, BCC, Stated(p.bcc));
    PartWriter.LinesAppend(fields, Optional(BCC, Stated(p.bcc)));
    fields := fields + Optional(BCC, Stated(p.bcc));
    out, done := PartWriter.Push(out, done, Line(Field(SUBJECT, p.subject)));
    PartWriter.LinesAppend(fields, [Field(SUBJECT, p.subject)]);
    assert Lines([Field(SUBJECT, p.subject)]) == [Line(Field(SUBJECT, p.subject))];
  }

  lemma JoinForward(p: ForwardParts, ct: string, lines: seq<string>)
    ensures Flat(Lines(ForwardAddresses(p))) + Flat(Headed(TypeFields(ct), lines)) == Flat(Headed(ForwardFields(p, ct), lines))
  {
    var a, t := ForwardAddresses(p), TypeFields(ct);
    PartWriter.LinesAppend(a, t);
    FlatAppend(Lines(a), Headed(t, lines));
    assert Lines(a) + Headed(t, lines) == Headed(a + t, lines);
  }

  /** Everything below the address headers. */
  method ForwardContent(p: ForwardParts, text: string, html: string, hash: Boundary.Hasher) returns (out: string)
    requires text == TextPart(p) && html == HtmlPart(p)
    ensures var n := ForwardNode(p, hash);
            out == Flat(Headed(TypeFields(n.ct), n.lines))
  {
    var encodedText := QuotedPrintable.QpEncode(Utf8.Encode(NormalizeForward(text)));
    var encodedHtml := QuotedPrintable.QpEncode(Utf8.Encode(NormalizeForward(html)));
    var encoded := EncodeAll(p.original.attachments);
    var probe := [encodedText, encodedHtml] + encoded;
    assert probe == ForwardProbe(p);
    var alt := Boundary.BoundaryWithPrefix(BOUNDARY_ALT, probe, hash);
    var mix := Boundary.BoundaryWithPrefix(BOUNDARY_MIX, probe, hash);
    ghost var body := AltNode(text, html, alt);
    var section := AlternativeSection(alt, text, html, encodedText, encodedHtml);
    if p.original.attachments == [] {
      out := TopText(MultiType(ALTERNATIVE, alt, []), section, body.lines);
    } else {
      var content := MixedText(mix, body, MultiType(ALTERNATIVE, alt, []), section, p.original.attachments, encoded);
      out := TopText(MultiType(MIXED, mix, []), content, MixNode(body, mix, PartsOf(p.original.attachments)).lines);
    }
  }

  /** `build_forward_rfc822`. */
  method BuildForward(p: ForwardParts, hash: Boundary.Hasher) returns (r: Result<seq<Utf8.byte>, WriteError>)
    ensures r == BuildOf(p, hash)
  {
    var fault := FindFault(ForwardGuarded(p));
    if fault.Some? {
      return Err(Invalid(fault.value + " header must not contain CR/LF"));
    }
    if IsBlank(p.to) {
      return Err(Invalid("forward has no recipient"));
    }
    var text := TextPartText(p);
    var html := HtmlPartText(p);
    var out := ForwardAddressText(p);
    var content := ForwardContent(p, text, html, hash);
    JoinForward(p, ForwardNode(p, hash).ct, ForwardNode(p, hash).lines);
    r := Ok(Utf8.Encode(out + content));
  }

  // ---- Delimiters ----------------------------------------------------------------------------

  lemma AltNodeLookAlikes(text: string, html: string, alt: string, mix: string)
    requires FitsForward(text, html, alt, mix)
    ensures Delimiters.LookAlikes(AltNode(text, html, alt).lines, Dash(alt)) == Delimiters.Emitted(Dash(alt), 2)
    ensures Delimiters.LookAlikes(AltNode(text, html, alt).lines, Dash(mix)) == []
  {
    QpPartsHasNo(text, html, alt);
    QpPartsHasNo(text, html, mix);
    Delimiters.LevelLookAlikes(Dash(alt), QpParts(text, html));
    EncloseHasNo(mix, 'm', alt, 'a', QpParts(text, html));
    Delimiters.NoLookAlikes(AltNode(text, html, alt).lines, Dash(mix));
  }

  lemma MixNodeLookAlikes(text: string, html: string, alt: string, mix: string, files: seq<FilePart>)
    requires FitsForward(text, html, alt, mix) && AllGoodHeads(files) && files != []
    ensures var n := MixNode(AltNode(text, html, alt), mix, files);
            && Delimiters.LookAlikes(n.lines, Dash(alt)) == Delimiters.Emitted(Dash(alt), 2)
            && Delimiters.LookAlikes(n.lines, Dash(mix)) == Delimiters.Emitted(Dash(mix), 1 + |files|)
  {
    var body := AltNode(text, html, alt);
    AltNodeLookAlikes(text, html, alt, mix);
    AltPartFacts(text, html, alt, mix);
    AltTypeIsSafe(text, html, alt);
    Delimiters.PartLookAlikes(body, alt);
    Delimiters.FilesHaveNo(files, alt);
    Delimiters.NestedLookAlikes(mix, 'm', alt, 'a', AsPart(body), FilesLines(files));
    WithFilesHasNo(AsPart(body), files, mix);
    Delimiters.LevelLookAlikes(Dash(mix), WithFiles(AsPart(body), files));
  }

  lemma ForwardWhole(p: ForwardParts, hash: Boundary.Hasher, boundary: string)
    requires ForwardAccepted(p)
    ensures Delimiters.LookAlikes(Split(Flat(ForwardWireLines(p, hash))), Dash(boundary))
            == Delimiters.LookAlikes(ForwardNode(p, hash).lines, Dash(boundary))
  {
    var n := ForwardNode(p, hash);
    ForwardTypeIsSafe(p, hash);
    ForwardSplits(p, hash);
    Delimiters.HeadedLookAlikes(ForwardFields(p, n.ct), n.lines + [""], boundary);
    Delimiters.LastEmptyLine(n.lines, boundary);
  }

  /** In the whole forward, headers included, the lines that begin like a delimiter are the ones
      emitted: two parts and the close inside, the section, the files and the close outside. */
  lemma ForwardDelimiters(p: ForwardParts, hash: Boundary.Hasher)
    requires ForwardAccepted(p)
    ensures var lines := Split(Flat(ForwardWireLines(p, hash)));
            var n := |p.original.attachments|;
            && Delimiters.LookAlikes(lines, Dash(BOUNDARY_ALT + "0")) == Delimiters.Emitted(Dash(BOUNDARY_ALT + "0"), 2)
            && Delimiters.LookAlikes(lines, Dash(BOUNDARY_MIX + "0"))
               == if n == 0 then [] else Delimiters.Emitted(Dash(BOUNDARY_MIX + "0"), 1 + n)
  {
    var alt, mix := AltBound(p, hash), MixBound(p, hash);
    ForwardTakesZero(p, hash);
    BoundsFitForward(p, hash);
    ForwardWhole(p, hash, alt);
    ForwardWhole(p, hash, mix);
    PartsAreGood(p.original.attachments);
    AltNodeLookAlikes(TextPart(p), HtmlPart(p), alt, mix);
    if p.original.attachments != [] {
      MixNodeLookAlikes(TextPart(p), HtmlPart(p), alt, mix, PartsOf(p.original.attachments));
    }
  }
}
