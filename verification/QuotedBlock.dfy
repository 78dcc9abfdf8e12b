/** The block a forward quotes: one line per header of the original, whatever the headers hold, and the
    original's text below them as it was. */
module QuotedBlock {
  import opened Text
  import opened Seqs
  import opened LineEnds
  import opened Wrappers
  import opened Forward
  import CharsetMeta
  import Escaping
  import Html

  /** The forwarded block without the note above it. */
  function Block(o: ForwardedOriginal): string {
    BANNER + ("\n" + (Rows(QuotedRows(o), TextRow) + ("\n" + o.text)))
  }

  function RowLine(row: (string, string)): string {
    row.0 + (": " + StripNewlines(row.1))
  }

  function RowLines(rows: seq<(string, string)>): (r: seq<string>)
    ensures |r| == |rows|
    ensures forall i :: 0 <= i < |r| ==> r[i] == RowLine(rows[i])
  {
    seq(|rows|, i requires 0 <= i < |rows| => RowLine(rows[i]))
  }

  lemma {:induction false} OneLine(l: string, rest: string, cr: bool)
    requires NoLineBreak(l)
    ensures LinesOf(l + ("\n" + rest), cr) == [l] + LinesOf(rest, cr)
  {
    var s := l + ("\n" + rest);
    CrlfHead(s);
    if l == "" {
      NilLeft(l, "\n" + rest);
      assert s[1..] == rest;
    } else {
      TailOf(l, "\n" + rest);
      OneLine(l[1..], rest, cr);
      Uncons(l);
    }
  }

  lemma RowIsOneLine(row: (string, string), rest: string, cr: bool)
    requires NoLineBreak(row.0)
    ensures LinesOf(TextRow(row) + rest, cr) == [RowLine(row)] + LinesOf(rest, cr)
  {
    var v := StripNewlines(row.1);
    RowShape(row.0, v, rest);
    assert NoLineBreak(": ");
    OneLine(RowLine(row), rest, cr);
  }

  lemma RowShape(name: string, v: string, rest: string)
    ensures (name + ": " + v + "\n") + rest == (name + (": " + v)) + ("\n" + rest)
  {
  }

  predicate PlainLabels(rows: seq<(string, string)>) {
    forall i :: 0 <= i < |rows| ==> NoLineBreak(rows[i].0)
  }

  lemma {:induction false} RowsAreLines(rows: seq<(string, string)>, rest: string, cr: bool)
    requires PlainLabels(rows)
    ensures LinesOf(Rows(rows, TextRow) + rest, cr) == RowLines(rows) + LinesOf(rest, cr)
    decreases |rows|
  {
    if rows == [] {
      NilLeft(Rows(rows, TextRow), rest);
      NilLeft(RowLines(rows), LinesOf(rest, cr));
    } else {
      var n := |rows| - 1;
      var last := TextRow(rows[n]);
      Assoc(Rows(rows[..n], TextRow), last, rest);
      RowsAreLines(rows[..n], last + rest, cr);
      RowIsOneLine(rows[n], rest, cr);
      LastLine(rows, LinesOf(rest, cr));
    }
  }

  lemma LastLine(rows: seq<(string, string)>, rest: seq<string>)
    requires rows != []
    ensures RowLines(rows) + rest == RowLines(rows[..|rows| - 1]) + ([RowLine(rows[|rows| - 1])] + rest)
  {
    var n := |rows| - 1;
    assert RowLines(rows) == RowLines(rows[..n]) + [RowLine(rows[n])];
  }

  lemma FourLabels()
    ensures NoLineBreak("From") && NoLineBreak("Date") && NoLineBreak("Subject") && NoLineBreak("To")
  {
  }

  lemma CcLabel()
    ensures NoLineBreak("Cc")
  {
  }

  lemma BannerIsOneLine()
    ensures NoLineBreak(BANNER)
  {
  }

  lemma PlainAppend(a: seq<(string, string)>, b: seq<(string, string)>)
    requires PlainLabels(a) && PlainLabels(b)
    ensures PlainLabels(a + b)
  {
  }

  lemma LabelsArePlain(o: ForwardedOriginal)
    ensures PlainLabels(QuotedRows(o))
  {
    FourLabels();
    CcLabel();
    var four, cc := QuotedRows(o)[..4], QuotedRows(o)[4..];
    assert four == [("From", o.from), ("Date", o.date), ("Subject", o.subject), ("To", o.to)];
    PlainAppend(four, cc);
    assert QuotedRows(o) == four + cc;
  }

  /** What stands behind a label: the value without its line breaks. */
  function Labelled(label_: string, value: string): string {
    label_ + StripNewlines(value)
  }

  /** The lines a block quotes its headers in: who sent it, when, about what, to whom, and who was copied,
      if anybody was. */
  function HeaderLines(o: ForwardedOriginal): seq<string> {
    [Labelled("From: ", o.from), Labelled("Date: ", o.date), Labelled("Subject: ", o.subject), Labelled("To: ", o.to)]
    + if IsBlank(o.cc) then [] else [Labelled("Cc: ", o.cc)]
  }

  lemma RowIsLabelled(name: string, label_: string, value: string)
    requires label_ == name + ": "
    ensures RowLine((name, value)) == Labelled(label_, value)
  {
  }

  lemma RowsAreLabelled(o: ForwardedOriginal)
    ensures RowLines(QuotedRows(o)) == HeaderLines(o)
  {
    RowIsLabelled("From", "From: ", o.from);
    RowIsLabelled("Date", "Date: ", o.date);
    RowIsLabelled("Subject", "Subject: ", o.subject);
    RowIsLabelled("To", "To: ", o.to);
    RowIsLabelled("Cc", "Cc: ", o.cc);
    RowLinesJoin([("From", o.from), ("Date", o.date), ("Subject", o.subject), ("To", o.to)],
                 if IsBlank(o.cc) then [] else [("Cc", o.cc)]);
    FourLines(("From", o.from), ("Date", o.date), ("Subject", o.subject), ("To", o.to));
    assert RowLines([("Cc", o.cc)]) == [RowLine(("Cc", o.cc))];
  }

  lemma RowLinesJoin(a: seq<(string, string)>, b: seq<(string, string)>)
    ensures RowLines(a + b) == RowLines(a) + RowLines(b)
  {
  }

  lemma FourLines(a: (string, string), b: (string, string), c: (string, string), d: (string, string))
    ensures RowLines([a, b, c, d]) == [RowLine(a), RowLine(b), RowLine(c), RowLine(d)]
  {
  }

  /** However the original's headers were crafted, the block is the banner, one line per quoted header,
      an empty line, and the lines of the original's text: no header can add a line of its own. */
  lemma BlockLines(o: ForwardedOriginal, cr: bool)
    ensures LinesOf(Block(o), cr) == [BANNER] + (HeaderLines(o) + ([""] + LinesOf(o.text, cr)))
  {
    RowsAreLabelled(o);
    LabelsArePlain(o);
    BannerIsOneLine();
    OneLine(BANNER, Rows(QuotedRows(o), TextRow) + ("\n" + o.text), cr);
    RowsAreLines(QuotedRows(o), "\n" + o.text, cr);
    OneLine("", o.text, cr);
    NilLeft("", "\n" + o.text);
  }

  lemma Bracketed(note: string, banner: string, rows: string, text: string)
    ensures note + banner + "\n" + rows + "\n" + text == note + (banner + ("\n" + (rows + ("\n" + text))))
  {
  }

  /** A line feed cuts, unless it only completes a CRLF. */
  lemma {:induction false} LinesJoin(a: string, rest: string, cr: bool)
    requires a == "" || a[|a| - 1] != '\r'
    ensures LinesOf(a + ("\n" + rest), cr) == LinesOf(a, cr) + LinesOf(rest, cr)
    decreases |a|
  {
    if a == "" {
      OneLine(a, rest, cr);
    } else if StartsWith(a, CRLF) {
      CrlfHead(a);
      AfterTwo(a, "\n" + rest);
      LinesJoin(a[2..], rest, cr);
      Assoc([""], LinesOf(a[2..], cr), LinesOf(rest, cr));
    } else {
      CrlfHead(a);
      CrlfHead(a + ("\n" + rest));
      TailOf(a, "\n" + rest);
      LinesJoin(a[1..], rest, cr);
      assert |a| > 1 ==> (a + ("\n" + rest))[1] == a[1];
      FirstGrows(a[0], LinesOf(a[1..], cr), LinesOf(rest, cr));
    }
  }

  lemma AfterTwo(a: string, b: string)
    requires StartsWith(a, CRLF)
    ensures StartsWith(a + b, CRLF) && (a + b)[2..] == a[2..] + b
  {
    assert (a + b)[..2] == a[..2];
  }

  lemma FirstGrows(c: char, a: seq<string>, b: seq<string>)
    requires a != []
    ensures [[c] + (a + b)[0]] + (a + b)[1..] == ([[c] + a[0]] + a[1..]) + b
    ensures [""] + (a + b) == ([""] + a) + b
  {
    assert (a + b)[1..] == a[1..] + b;
  }

  /** The note as the reader sees it above the block: its lines, the last one ended by a blank line. */
  function NoteLines(note: string, cr: bool): seq<string> {
    if IsBlank(note) then [] else LinesOf(note + "\n", cr)
  }

  lemma BlankLineAfterNote(note: string, cr: bool)
    requires !IsBlank(note) && note[|note| - 1] != '\r'
    ensures NoteLines(note, cr) == LinesOf(note, cr) + [""]
  {
    LinesJoin(note, "", cr);
    NilRight("\n");
  }

  /** What a reader sees of the text part: the lines of the note and a blank line, when there is a note,
      and then the block, line for line, whatever the original's headers hold. */
  lemma TextPartLines(p: ForwardParts, cr: bool)
    ensures LinesOf(TextPart(p), cr)
            == NoteLines(p.note, cr)
               + (["---------- Forwarded message ---------"] + (HeaderLines(p.original) + ([""] + LinesOf(p.original.text, cr))))
    ensures !IsBlank(p.note) && p.note[|p.note| - 1] != '\r' ==> NoteLines(p.note, cr) == LinesOf(p.note, cr) + [""]
  {
    var block := Block(p.original);
    Bracketed(NoteText(p), BANNER, Rows(QuotedRows(p.original), TextRow), p.original.text);
    BlockLines(p.original, cr);
    if IsBlank(p.note) {
      NilLeft(NoteText(p), block);
      NilLeft(NoteLines(p.note, cr), LinesOf(block, cr));
    } else {
      NoteAhead(p.note, block);
      LinesJoin(p.note + "\n", block, cr);
      if p.note[|p.note| - 1] != '\r' {
        BlankLineAfterNote(p.note, cr);
      }
    }
  }

  lemma NoteAhead(note: string, block: string)
    ensures (note + "\n\n") + block == (note + "\n") + ("\n" + block)
  {
  }

  // ---- The block in the html part ------------------------------------------------------------

  /** One quoted header of the html part. */
  function Bold(label_: string, value: string): string {
    label_ + Html.Escape(StripNewlines(value)) + "<br>\n"
  }

  lemma BoldRow(name: string, label_: string, value: string)
    requires label_ == "<b>" + name + ":</b> "
    ensures HtmlRow((name, value)) == Bold(label_, value)
  {
  }

  lemma OneMoreRow(rows: seq<(string, string)>, row: (string, string), write: ((string, string)) -> string)
    ensures Rows(rows + [row], write) == Rows(rows, write) + write(row)
  {
    assert (rows + [row])[..|rows|] == rows;
  }

  lemma FourRows(a: (string, string), b: (string, string), c: (string, string), d: (string, string),
                 write: ((string, string)) -> string)
    ensures Rows([a, b, c, d], write) == write(a) + write(b) + write(c) + write(d)
  {
    OneRow(a, write);
    OneMoreRow([a], b, write);
    OneMoreRow([a] + [b], c, write);
    OneMoreRow([a] + [b] + [c], d, write);
    OneByOne(a, b, c, d);
  }

  lemma OneRow(a: (string, string), write: ((string, string)) -> string)
    ensures Rows([a], write) == write(a)
  {
    assert [a][..0] == [];
    NilLeft("", write(a));
  }

  lemma OneByOne(a: (string, string), b: (string, string), c: (string, string), d: (string, string))
    ensures [a] + [b] + [c] + [d] == [a, b, c, d]
  {
  }

  /** The html part: the note, the same headers in the same order behind bold labels, the original's own
      html without its charset tags, or its text as paragraphs, and the pixel last. */
  lemma HtmlPartIs(p: ForwardParts)
    ensures var o := p.original;
            var rows := Bold("<b>From:</b> ", o.from) + Bold("<b>Date:</b> ", o.date) + Bold("<b>Subject:</b> ", o.subject)
                        + Bold("<b>To:</b> ", o.to) + (if IsBlank(o.cc) then "" else Bold("<b>Cc:</b> ", o.cc));
            HtmlPart(p)
            == "<html><body>\n" + (if p.noteHtml.Some? then p.noteHtml.value else Html.TextAsHtml(p.note))
               + "<div class=\"passband_forward\">\n<hr>\n<p>" + "---------- Forwarded message ---------" + "<br>\n" + rows
               + "</p>\n" + (if o.html.Some? then CharsetMeta.Strip(o.html.value) else Html.TextAsHtml(o.text)) + "\n</div>\n"
               + (if p.pixelUrl.Some? then "<img src=\"" + Html.Escape(p.pixelUrl.value) + "\" width=\"1\" height=\"1\" alt=\"\">\n"
                  else "")
               + "</body></html>\n"
  {
    HtmlRowsAre(p.original);
  }

  lemma HtmlRowsAre(o: ForwardedOriginal)
    ensures Rows(QuotedRows(o), HtmlRow)
            == Bold("<b>From:</b> ", o.from) + Bold("<b>Date:</b> ", o.date) + Bold("<b>Subject:</b> ", o.subject)
               + Bold("<b>To:</b> ", o.to) + (if IsBlank(o.cc) then "" else Bold("<b>Cc:</b> ", o.cc))
  {
    var four := [("From", o.from), ("Date", o.date), ("Subject", o.subject), ("To", o.to)];
    FourRows(("From", o.from), ("Date", o.date), ("Subject", o.subject), ("To", o.to), HtmlRow);
    OneMoreRow(four, ("Cc", o.cc), HtmlRow);
    BoldRow("From", "<b>From:</b> ", o.from);
    BoldRow("Date", "<b>Date:</b> ", o.date);
    BoldRow("Subject", "<b>Subject:</b> ", o.subject);
    BoldRow("To", "<b>To:</b> ", o.to);
    BoldRow("Cc", "<b>Cc:</b> ", o.cc);
    NilRight(four);
    NilRight(Rows(four, HtmlRow));
  }

  /** In the html part a quoted header is text: unescaping shows it without its line breaks, and it can
      neither open a tag nor close one. */
  lemma HtmlRowIsText(row: (string, string))
    ensures Escaping.Unescape(Html.Escape(StripNewlines(row.1))) == StripNewlines(row.1)
    ensures '<' !in Html.Escape(StripNewlines(row.1)) && '>' !in Html.Escape(StripNewlines(row.1))
  {
    Escaping.EscapeRoundTrip(StripNewlines(row.1));
  }
}
