/** `attachment_part`: one file as a MIME part, pushed piece by piece, proved to be exactly the lines
    its cleaned head and its encoded data call for. Both builders write their files with it. */
module PartWriter {
  import opened Wrappers
  import opened Text
  import opened HeaderFields
  import opened Attachments
  import opened MimeReader
  import opened MimeTree
  import Base64
  import Utf8

  type byte = Utf8.byte

  /** The header line a value and its parameters make, with its CRLF, behind what is there already. */
  lemma PushParams(name: string, main: string, a: seq<Param>, b: seq<Param>)
    ensures Line(Field(name, Render(main, a + b))) == Line(Field(name, Render(main, a))) + RenderParams(b)
  {
    RenderParamsAppend(a, b);
    Regroup(name + ": ", main, RenderParams(a), RenderParams(b));
  }

  lemma Regroup(x: string, main: string, y: string, z: string)
    ensures x + (main + (y + z)) == x + (main + y) + z
  {
  }

  lemma OneParam(p: Param)
    ensures RenderParams([p]) == RenderParam(p)
  {
    assert [p][1..] == [];
    assert RenderParam(p) + "" == RenderParam(p);
  }

  lemma NoParams(name: string, main: string)
    ensures Line(Field(name, Render(main, []))) == name + ": " + main
  {
    assert main + "" == main;
  }

  /** `Content-Type:`, its parameters pushed one after another. */
  method TypeLine(h: PartHead) returns (out: string)
    ensures out == Line(TypeField(h))
  {
    var a, b, c := NameParam(h.name), CharsetParam(h.mime), MethodParam(h.method_);
    out := CONTENT_TYPE + ": " + h.mime;
    NoParams(CONTENT_TYPE, h.mime);
    PushParams(CONTENT_TYPE, h.mime, [], a);
    assert [] + a == a;
    if IsPrintableAscii(h.name) {
      OneParam(Quoted("name", h.name));
      out := out + RenderParam(Quoted("name", h.name));
    }
    assert out == Line(Field(CONTENT_TYPE, Render(h.mime, a)));
    PushParams(CONTENT_TYPE, h.mime, a, b);
    if StartsWith(h.mime, "text/") {
      OneParam(Quoted("charset", "utf-8"));
      out := out + RenderParam(Quoted("charset", "utf-8"));
    }
    assert out == Line(Field(CONTENT_TYPE, Render(h.mime, a + b)));
    PushParams(CONTENT_TYPE, h.mime, a + b, c);
    if h.method_.Some? {
      OneParam(Bare("method", h.method_.value));
      out := out + RenderParam(Bare("method", h.method_.value));
    }
  }

  /** `Content-Disposition:`, the extended name in front of the plain one when there is need of it. */
  method DispositionLineOf(h: PartHead) returns (out: string)
    ensures out == Line(DispositionField(h))
  {
    var main := Disposition(h.isInline);
    out := DISPOSITION + ": " + main;
    NoParams(DISPOSITION, main);
    if IsPrintableAscii(h.name) {
      var p := Quoted("filename", h.name);
      PushParams(DISPOSITION, main, [], [p]);
      OneParam(p);
      assert [] + [p] == [p];
      out := out + RenderParam(p);
    } else {
      var p, q := Bare("filename*", Rfc2231.CHARSET + Rfc2231.Encode(h.name)), Quoted("filename", AsciiProjection(h.name));
      PushParams(DISPOSITION, main, [], [p]);
      PushParams(DISPOSITION, main, [p], [q]);
      OneParam(p);
      OneParam(q);
      assert [] + [p] == [p];
      out := out + RenderParam(p) + RenderParam(q);
    }
  }

  /** The names and types settled on, in the order the source settles them. */
  method SettleHead(att: MailAttachment) returns (h: PartHead)
    ensures h == HeadOf(att)
  {
    var mime := MimeToken(att.mime);
    var cleaned := QuotedParam(att.filename);
    var filename := if IsBlank(cleaned) then "attachment" else cleaned;
    if IsMessageType(mime) {
      if !EndsWith(ToAsciiLower(filename), ".eml") {
        filename := if filename == "attachment" then "forwarded.eml" else filename + ".eml";
      }
      mime := "application/octet-stream";
    }
    filename := TruncateFilename(filename, MAX_FILENAME);
    h := PartHead(mime, filename, MethodOf(att), att.isInline, TokenOf(att));
  }

  lemma PartLines(boundary: string, h: PartHead, chunks: seq<string>)
    ensures [Dash(boundary)] + Headed(PartFields(h), chunks)
            == [Dash(boundary), Line(TypeField(h)), Line(BASE64_FIELD), Line(DispositionField(h))]
               + Lines(IdFields(h.token)) + [""] + chunks
  {
    var a, b, c := TypeField(h), BASE64_FIELD, DispositionField(h);
    LinesAppend([a, b, c], IdFields(h.token));
    ThreeLines(a, b, c);
    BehindDash(Dash(boundary), [Line(a), Line(b), Line(c)], Lines(IdFields(h.token)), [""], chunks);
  }

  lemma ThreeLines(a: Field, b: Field, c: Field)
    ensures Lines([a, b, c]) == [Line(a), Line(b), Line(c)]
  {
  }

  lemma BehindDash(dash: string, three: seq<string>, ids: seq<string>, empty: seq<string>, chunks: seq<string>)
    requires |three| == 3
    ensures [dash] + (three + ids + empty + chunks) == [dash, three[0], three[1], three[2]] + ids + empty + chunks
  {
    assert [dash] + three == [dash, three[0], three[1], three[2]];
  }

  lemma LinesAppend(a: seq<Field>, b: seq<Field>)
    ensures Lines(a + b) == Lines(a) + Lines(b)
  {
  }

  /** `out.push_str("{line}\r\n")`, with the lines pushed so far kept beside the text. */
  method Push(out: string, ghost lines: seq<string>, line: string) returns (more: string, ghost all: seq<string>)
    requires out == Flat(lines)
    ensures all == lines + [line] && more == Flat(all)
  {
    PushLine(lines, line);
    more, all := out + line + CRLF, lines + [line];
  }

  method IdLine(out: string, ghost lines: seq<string>, token: Option<string>) returns (more: string, ghost all: seq<string>)
    requires out == Flat(lines)
    ensures all == lines + Lines(IdFields(token)) && more == Flat(all)
  {
    more, all := out, lines;
    if token.Some? {
      more, all := Push(more, all, Line(Field(CONTENT_ID, "<" + token.value + ">")));
    }
  }

  method PartText(boundary: string, h: PartHead, ghost data: seq<byte>, encoded: string) returns (out: string)
    requires encoded == Base64.Body(data)
    ensures out == Flat([Dash(boundary)] + FileLines(FilePart(h, data)))
  {
    ghost var lines;
    out, lines := Push("", [], "--" + boundary);
    var typeLine := TypeLine(h);
    out, lines := Push(out, lines, typeLine);
    out, lines := Push(out, lines, Line(BASE64_FIELD));
    var dispositionLine := DispositionLineOf(h);
    out, lines := Push(out, lines, dispositionLine);
    assert lines == [Dash(boundary), typeLine, Line(BASE64_FIELD), dispositionLine];
    out, lines := IdLine(out, lines, h.token);
    out, lines := Push(out, lines, "");
    ghost var chunks := Base64.Chunks(Base64.Encode(data));
    FlatAppend(lines, chunks);
    out := out + encoded;
    PartLines(boundary, h, chunks);
  }

  method AttachmentPart(boundary: string, att: MailAttachment, encoded: string) returns (out: string)
    requires encoded == Base64.Body(att.data)
    ensures out == Flat([Dash(boundary)] + FileLines(PartOf(att)))
  {
    var h := SettleHead(att);
    out := PartText(boundary, h, att.data, encoded);
  }
}
