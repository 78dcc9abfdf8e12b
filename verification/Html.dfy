/** The little HTML the builders write themselves: escaping, plain text as paragraphs, the wrapper that
    carries the tracking pixel, and the `cid:` references that survive it. */
module Html {
  import opened Wrappers
  import opened Text
  import opened Seqs

  function ReplaceChar(s: string, c: char, with: string): string {
    if s == "" then ""
    else if s[0] == c then with + ReplaceChar(s[1..], c, with)
    else [s[0]] + ReplaceChar(s[1..], c, with)
  }

  /** `escape_html`: five replacements in turn, the ampersand first. */
  function Escape(s: string): string {
    ReplaceChar(ReplaceChar(ReplaceChar(ReplaceChar(ReplaceChar(s, '&', "&amp;"),
      '<', "&lt;"), '>', "&gt;"), '"', "&quot;"), '\'', "&#39;")
  }

  /** `split("\n\n")`. */
  function Paragraphs(s: string): (r: seq<string>)
    ensures |r| >= 1
  {
    if s == "" then [""]
    else if StartsWith(s, "\n\n") then [""] + Paragraphs(s[2..])
    else
      var rest := Paragraphs(s[1..]);
      [[s[0]] + rest[0]] + rest[1..]
  }

  function TrimNewlines(s: string): string {
    if s != "" && s[0] == '\n' then TrimNewlines(s[1..])
    else TrimEndNewlines(s)
  }

  function TrimEndNewlines(s: string): string {
    if s != "" && s[|s| - 1] == '\n' then TrimEndNewlines(s[..|s| - 1]) else s
  }

  /** `str::lines`: no line for what follows a final line feed, no CR left before one. */
  function LinesOf(s: string): seq<string>
    decreases |s|
  {
    if s == "" then []
    else
      var k := FirstLf(s);
      var l := s[..k];
      var clean := if k < |s| && l != "" && l[k - 1] == '\r' then l[..k - 1] else l;
      [clean] + if k < |s| then LinesOf(s[k + 1..]) else []
  }

  function FirstLf(s: string): (k: nat)
    ensures k <= |s|
  {
    if s == "" || s[0] == '\n' then 0 else 1 + FirstLf(s[1..])
  }

  function EscapedJoin(lines: seq<string>): string {
    if lines == [] then ""
    else if |lines| == 1 then Escape(lines[0])
    else Escape(lines[0]) + "<br>" + EscapedJoin(lines[1..])
  }

  function ParagraphHtml(para: string): string {
    var p := TrimNewlines(para);
    if IsBlank(p) then "" else "<p>" + EscapedJoin(LinesOf(p)) + "</p>\n"
  }

  function ParagraphsHtmlOf(paras: seq<string>): string {
    if paras == [] then "" else ParagraphsHtmlOf(paras[..|paras| - 1]) + ParagraphHtml(paras[|paras| - 1])
  }

  /** Plain text as minimal HTML. */
  function TextAsHtml(body: string): string {
    ParagraphsHtmlOf(Paragraphs(CrlfToLf(body)))
  }

  /** `paragraphs_html`: one paragraph after another, blank ones skipped. */
  method ParagraphsHtml(body: string) returns (out: string)
    ensures out == TextAsHtml(body)
  {
    var paras := Paragraphs(CrlfToLf(body));
    out := "";
    for i := 0 to |paras|
      invariant out == ParagraphsHtmlOf(paras[..i])
    {
      OneLonger(paras, i);
      var para := TrimNewlines(paras[i]);
      if IsBlank(para) {
        continue;
      }
      out := out + ("<p>" + EscapedJoin(LinesOf(para)) + "</p>\n");
    }
    assert paras[..|paras|] == paras;
  }

  function Pixel(url: Option<string>): string {
    match url
    case Some(u) => "<img src=\"" + Escape(u) + "\" width=\"1\" height=\"1\" alt=\"\">\n"
    case None => ""
  }

  /** The HTML alternative, `None` when the message stays plain text. */
  function Alternative(body: string, bodyHtml: Option<string>, pixel: Option<string>): Option<string> {
    if bodyHtml.None? && pixel.None? then None
    else
      var inner := if bodyHtml.Some? then bodyHtml.value else TextAsHtml(body);
      Some("<html><body>\n" + inner + (Pixel(pixel) + "</body></html>\n"))
  }

  // ---- What normalisation leaves alone -------------------------------------------------------

  lemma {:induction false} CrlfToLfPrefix(p: string, s: string)
    requires NoLineBreak(p)
    ensures CrlfToLf(p + s) == p + CrlfToLf(s)
  {
    if p == "" {
      NilLeft(p, s);
    } else {
      CrlfToLfPrefix(p[1..], s);
      TailOf(p, s);
      CrlfHead(p + s);
      Recons(p, CrlfToLf(s));
    }
  }

  lemma {:induction false} LfToCrlfPrefix(p: string, s: string)
    requires '\n' !in p
    ensures LfToCrlf(p + s) == p + LfToCrlf(s)
  {
    if p == "" {
      NilLeft(p, s);
    } else {
      LfToCrlfPrefix(p[1..], s);
      TailOf(p, s);
      Recons(p, LfToCrlf(s));
    }
  }

  lemma PrefixContained(p: string, s: string)
    requires StartsWith(s, p)
    ensures Contains(s, p)
  {
    assert s[0..0 + |p|] == p;
    assert OccursAt(s, p, 0);
  }

  lemma {:induction false} CrlfToLfKeeps(s: string, p: string, i: nat)
    requires p != "" && NoLineBreak(p) && OccursAt(s, p, i)
    ensures Contains(CrlfToLf(s), p)
    decreases |s|
  {
    if i == 0 {
      assert s == p + s[|p|..];
      CrlfToLfPrefix(p, s[|p|..]);
      PrefixContained(p, CrlfToLf(s));
    } else {
      CrlfHead(s);
      var skip := if StartsWith(s, CRLF) then 2 else 1;
      assert s[i] == s[i..i + |p|][0] == p[0];
      assert s[skip..][i - skip..i - skip + |p|] == p;
      CrlfToLfKeeps(s[skip..], p, i - skip);
      var head := if skip == 2 then "\n" else [s[0]];
      ContainsWider(head, CrlfToLf(s[skip..]), "", p);
      assert CrlfToLf(s) == head + CrlfToLf(s[skip..]) + "";
    }
  }

  lemma {:induction false} LfToCrlfKeeps(s: string, p: string, i: nat)
    requires p != "" && NoLineBreak(p) && OccursAt(s, p, i)
    ensures Contains(LfToCrlf(s), p)
    decreases |s|
  {
    if i == 0 {
      assert s == p + s[|p|..];
      LfToCrlfPrefix(p, s[|p|..]);
      PrefixContained(p, LfToCrlf(s));
    } else {
      assert s[1..][i - 1..i - 1 + |p|] == p;
      LfToCrlfKeeps(s[1..], p, i - 1);
      var head := if s[0] == '\n' then CRLF else [s[0]];
      ContainsWider(head, LfToCrlf(s[1..]), "", p);
      assert LfToCrlf(s) == head + LfToCrlf(s[1..]) + "";
    }
  }

  /** What a line holds without crossing its end, the normalised text still holds. */
  lemma NormalizeKeeps(s: string, p: string)
    requires p != "" && NoLineBreak(p) && Contains(s, p)
    ensures Contains(NormalizeReply(s), p)
  {
    var i :| 0 <= i <= |s| && OccursAt(s, p, i);
    CrlfToLfKeeps(s, p, i);
    var t := CrlfToLf(s);
    var j :| 0 <= j <= |t| && OccursAt(t, p, j);
    LfToCrlfKeeps(t, p, j);
  }
}
