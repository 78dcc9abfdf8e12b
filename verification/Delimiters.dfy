/** Which lines of a whole message look like a delimiter of a given level: only the ones the builder
    emitted at that level, although names, types, Content-IDs and address headers are never probed. */
module Delimiters {
  import opened Wrappers
  import opened Text
  import opened HeaderFields
  import opened MimeReader
  import opened MimeTree
  import opened Reply
  import opened ReplyBuilder
  import opened Seqs
  import Boundary

  /** The lines a recipient would take for a delimiter. */
  function LookAlikes(lines: seq<string>, dash: string): seq<string> {
    if lines == [] then []
    else (if StartsWith(lines[0], dash) then [lines[0]] else []) + LookAlikes(lines[1..], dash)
  }

  function Copies(line: string, n: nat): seq<string> {
    if n == 0 then [] else [line] + Copies(line, n - 1)
  }

  /** The delimiters of a level with `n` parts. */
  function Emitted(dash: string, n: nat): seq<string> {
    Copies(dash, n) + [dash + "--"]
  }

  lemma {:induction false} AppendLookAlikes(a: seq<string>, b: seq<string>, dash: string)
    ensures LookAlikes(a + b, dash) == LookAlikes(a, dash) + LookAlikes(b, dash)
  {
    if a == [] {
      NilLeft(a, b);
    } else {
      TailOf(a, b);
      AppendLookAlikes(a[1..], b, dash);
    }
  }

  lemma {:induction false} NoLookAlikes(lines: seq<string>, dash: string)
    requires NoDelimiter(lines, dash)
    ensures LookAlikes(lines, dash) == []
  {
    if lines != [] {
      NoLookAlikes(lines[1..], dash);
    }
  }

  lemma OneLine(line: string, rest: seq<string>, dash: string)
    ensures LookAlikes([line] + rest, dash)
            == (if StartsWith(line, dash) then [line] else []) + LookAlikes(rest, dash)
  {
    assert ([line] + rest)[1..] == rest;
  }

  lemma {:induction false} LevelLookAlikes(dash: string, parts: seq<seq<string>>)
    requires NoDelimiters(parts, dash)
    ensures LookAlikes(Enclose(dash, parts), dash) == Emitted(dash, |parts|)
  {
    if parts == [] {
      OneLine(dash + "--", [], dash);
    } else {
      var rest := Enclose(dash, parts[1..]);
      LevelLookAlikes(dash, parts[1..]);
      NoLookAlikes(parts[0], dash);
      AppendLookAlikes(parts[0], rest, dash);
      OneLine(dash, parts[0] + rest, dash);
      assert Enclose(dash, parts) == [dash] + (parts[0] + rest);
      assert [] + LookAlikes(rest, dash) == LookAlikes(rest, dash);
    }
  }

  /** Seen from another level, a level shows only what its first part shows. */
  lemma NestedLookAlikes(outer: string, y: char, inner: string, x: char, first: seq<string>, rest: seq<seq<string>>)
    requires IsLevel(outer, y) && IsLevel(inner, x) && x != y
    requires NoDelimiters(rest, Dash(inner))
    ensures LookAlikes(Enclose(Dash(outer), [first] + rest), Dash(inner)) == LookAlikes(first, Dash(inner))
  {
    var d := Dash(inner);
    var tail := Enclose(Dash(outer), rest);
    LevelsDiffer(outer, y, inner, x, "");
    assert Dash(outer) + "" == Dash(outer);
    EncloseHasNo(inner, x, outer, y, rest);
    NoLookAlikes(tail, d);
    AppendLookAlikes(first, tail, d);
    OneLine(Dash(outer), first + tail, d);
    assert ([first] + rest)[1..] == rest;
    assert Enclose(Dash(outer), [first] + rest) == [Dash(outer)] + (first + tail);
    assert LookAlikes(first, d) + [] == LookAlikes(first, d);
    assert [] + LookAlikes(first, d) == LookAlikes(first, d);
  }

  /** Header lines never look like a delimiter of any level. */
  lemma HeadedLookAlikes(fields: seq<Field>, content: seq<string>, boundary: string)
    requires AllWellFormed(fields)
    ensures LookAlikes(Headed(fields, content), Dash(boundary)) == LookAlikes(content, Dash(boundary))
  {
    assert NoDelimiter([], Dash(boundary));
    HeadedHasNo(fields, [], boundary);
    NoLookAlikes(Headed(fields, []), Dash(boundary));
    AppendLookAlikes(Headed(fields, []), content, Dash(boundary));
    assert Headed(fields, []) + content == Headed(fields, content);
    assert [] + LookAlikes(content, Dash(boundary)) == LookAlikes(content, Dash(boundary));
  }

  // ---- The levels of a reply -----------------------------------------------------------------

  /** What each level of the documented tree emits: nothing where the level does not exist. */
  function Expected(boundary: string, n: nat): seq<string> {
    if n == 0 then [] else Emitted(Dash(boundary), n)
  }

  function AltCount(html: Option<string>): nat {
    if html.Some? then 2 else 0
  }

  function FileLevelCount(files: seq<FilePart>): nat {
    if files == [] then 0 else 1 + |files|
  }

  lemma BodyLookAlikes(text: string, html: Option<string>, alt: string)
    requires IsLevel(alt, 'a') && CleanIn(text, html, alt)
    ensures LookAlikes(BodyNode(text, html, alt).lines, Dash(alt)) == Expected(alt, AltCount(html))
  {
    if html.None? {
      TextHasNo(text, alt);
      NoLookAlikes(Split(text), Dash(alt));
    } else {
      AltPartsHasNo(text, html.value, alt);
      LevelLookAlikes(Dash(alt), AltParts(text, html.value));
    }
  }

  lemma PartLookAlikes(n: Node, boundary: string)
    requires NoLineBreak(n.ct)
    ensures LookAlikes(AsPart(n), Dash(boundary)) == LookAlikes(n.lines, Dash(boundary))
  {
    TypeOnlyCarries(n.ct);
    HeadedLookAlikes(TypeOnly(n.ct), n.lines, boundary);
  }

  lemma FilesHaveNo(files: seq<FilePart>, boundary: string)
    requires AllGoodHeads(files)
    ensures NoDelimiters(FilesLines(files), Dash(boundary))
  {
    forall i | 0 <= i < |files| ensures NoDelimiter(FilesLines(files)[i], Dash(boundary)) {
      FileHasNo(files[i], boundary);
    }
  }

  lemma InnerAlt(text: string, html: Option<string>, b: Bounds, inlined: seq<FilePart>)
    requires GoodBounds(b, text, html) && AllGoodHeads(inlined)
    ensures LookAlikes(InnerNode(BodyNode(text, html, b.alt), b.rel, inlined).lines, Dash(b.alt))
            == Expected(b.alt, AltCount(html))
  {
    var body := BodyNode(text, html, b.alt);
    BodyLookAlikes(text, html, b.alt);
    if inlined != [] {
      BodyTypeIsSafe(text, html, b.alt);
      PartLookAlikes(body, b.alt);
      FilesHaveNo(inlined, b.alt);
      NestedLookAlikes(b.rel, 'r', b.alt, 'a', AsPart(body), FilesLines(inlined));
    }
  }

  lemma InnerRel(text: string, html: Option<string>, b: Bounds, inlined: seq<FilePart>)
    requires GoodBounds(b, text, html) && AllGoodHeads(inlined)
    ensures LookAlikes(InnerNode(BodyNode(text, html, b.alt), b.rel, inlined).lines, Dash(b.rel))
            == Expected(b.rel, FileLevelCount(inlined))
  {
    var body := BodyNode(text, html, b.alt);
    BodyPartHasNo(text, html, b.alt, b.rel, 'r');
    if inlined == [] {
      BodyTypeIsSafe(text, html, b.alt);
      PartLookAlikes(body, b.rel);
      NoLookAlikes(AsPart(body), Dash(b.rel));
    } else {
      WithFilesHasNo(AsPart(body), inlined, b.rel);
      LevelLookAlikes(Dash(b.rel), WithFiles(AsPart(body), inlined));
    }
  }

  lemma TopInner(text: string, html: Option<string>, b: Bounds, inlined: seq<FilePart>, files: seq<FilePart>, inner: string, x: char)
    requires GoodBounds(b, text, html) && AllGoodHeads(inlined) && AllGoodHeads(files)
    requires IsLevel(inner, x) && x != 'm'
    ensures LookAlikes(TopNode(text, html, b, inlined, files).lines, Dash(inner))
            == LookAlikes(InnerNode(BodyNode(text, html, b.alt), b.rel, inlined).lines, Dash(inner))
  {
    var n := InnerNode(BodyNode(text, html, b.alt), b.rel, inlined);
    if files != [] {
      InnerTypeIsSafe(text, html, b, inlined);
      PartLookAlikes(n, inner);
      FilesHaveNo(files, inner);
      NestedLookAlikes(b.mix, 'm', inner, x, AsPart(n), FilesLines(files));
    }
  }

  lemma TopMix(text: string, html: Option<string>, b: Bounds, inlined: seq<FilePart>, files: seq<FilePart>)
    requires GoodBounds(b, text, html) && AllGoodHeads(inlined) && AllGoodHeads(files)
    ensures LookAlikes(TopNode(text, html, b, inlined, files).lines, Dash(b.mix))
            == Expected(b.mix, FileLevelCount(files))
  {
    var n := InnerNode(BodyNode(text, html, b.alt), b.rel, inlined);
    InnerPartHasNo(text, html, b, inlined);
    if files == [] {
      InnerTypeIsSafe(text, html, b, inlined);
      PartLookAlikes(n, b.mix);
      NoLookAlikes(AsPart(n), Dash(b.mix));
    } else {
      WithFilesHasNo(AsPart(n), files, b.mix);
      LevelLookAlikes(Dash(b.mix), WithFiles(AsPart(n), files));
    }
  }

  lemma LastEmptyLine(lines: seq<string>, boundary: string)
    ensures LookAlikes(lines + [""], Dash(boundary)) == LookAlikes(lines, Dash(boundary))
  {
    AppendLookAlikes(lines, [""], Dash(boundary));
    OneLine("", [], Dash(boundary));
    assert [""] + [] == [""];
    assert LookAlikes(lines, Dash(boundary)) + ([] + []) == LookAlikes(lines, Dash(boundary));
  }

  lemma WholeMessage(p: ReplyParts, hash: Boundary.Hasher, boundary: string)
    requires Accepted(p)
    ensures LookAlikes(Split(Wire(p, hash)), Dash(boundary)) == LookAlikes(ContentNode(p, hash).lines, Dash(boundary))
  {
    var n := ContentNode(p, hash);
    WireSplits(p, hash);
    HeadedLookAlikes(MessageFields(p, n.ct), n.lines + if OpenEnded(p) then [] else [""], boundary);
    LastEmptyLine(n.lines, boundary);
    assert n.lines + [] == n.lines;
  }

  /** In the whole message, headers included, the lines that begin like a delimiter of a level are the
      ones emitted there: one per part and the closing one, and none where the level does not exist. */
  lemma AttachedReplyDelimiters(p: ReplyParts, hash: Boundary.Hasher)
    requires Accepted(p) && p.attachments != []
    ensures var b := BoundsFor(Probe(TextOf(p), HtmlOf(p), Encoded(p.attachments)), hash);
            var lines := Split(Wire(p, hash));
            && LookAlikes(lines, Dash(b.alt)) == Expected(b.alt, AltCount(HtmlOf(p)))
            && LookAlikes(lines, Dash(b.rel)) == Expected(b.rel, FileLevelCount(Selected(p.attachments, true)))
            && LookAlikes(lines, Dash(b.mix)) == Expected(b.mix, FileLevelCount(Selected(p.attachments, false)))
  {
    var text, html := TextOf(p), HtmlOf(p);
    var b := BoundsFor(Probe(text, html, Encoded(p.attachments)), hash);
    var inlined, files := Selected(p.attachments, true), Selected(p.attachments, false);
    BoundsFit(text, html, Encoded(p.attachments), hash);
    SelectedGood(p.attachments, true);
    SelectedGood(p.attachments, false);
    WholeMessage(p, hash, b.alt);
    WholeMessage(p, hash, b.rel);
    WholeMessage(p, hash, b.mix);
    TopInner(text, html, b, inlined, files, b.alt, 'a');
    TopInner(text, html, b, inlined, files, b.rel, 'r');
    InnerAlt(text, html, b, inlined);
    InnerRel(text, html, b, inlined);
    TopMix(text, html, b, inlined, files);
  }

  lemma PlainReplyDelimiters(p: ReplyParts, hash: Boundary.Hasher)
    requires Accepted(p) && p.attachments == []
    ensures var alt := Boundary.Boundary(BOUNDARY_ALT, Probe(TextOf(p), HtmlOf(p), []), hash);
            LookAlikes(Split(Wire(p, hash)), Dash(alt)) == Expected(alt, AltCount(HtmlOf(p)))
  {
    var alt := Boundary.Boundary(BOUNDARY_ALT, Probe(TextOf(p), HtmlOf(p), []), hash);
    AltPrefix();
    BoundaryFits(BOUNDARY_ALT, 'a', TextOf(p), HtmlOf(p), [], hash);
    WholeMessage(p, hash, alt);
    BodyLookAlikes(TextOf(p), HtmlOf(p), alt);
  }
}
