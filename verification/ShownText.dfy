/** Plain text in an html part: a reader that knows the three tags the paragraphs are made of sees the
    text, paragraph by paragraph and line by line, and meets no other tag whatever the text holds. */
module ShownText {
  import opened Wrappers
  import opened Text
  import opened Seqs
  import Escaping
  import Html

  /** The three tags, and what each shows as. */
  function TagAt(html: string): Option<(nat, string)> {
    if StartsWith(html, "<p>") then Some((3, ""))
    else if StartsWith(html, "<br>") then Some((4, "\n"))
    else if StartsWith(html, "</p>") then Some((4, ""))
    else None
  }

  lemma TagFits(html: string)
    ensures TagAt(html).Some? ==> 3 <= TagAt(html).value.0 <= |html|
  {
  }

  /** What is seen, `None` when some other tag or a stray `>` is met. */
  function Shown(html: string): Option<string>
    decreases |html|
  {
    if html == "" then Some("")
    else if html[0] == '<' || html[0] == '>' then
      TagFits(html);
      match TagAt(html)
      case None => None
      case Some(tag) =>
        match Shown(html[tag.0..])
        case None => None
        case Some(rest) => Some(tag.1 + rest)
    else
      match Shown(html[Escaping.Named(html).1..])
      case None => None
      case Some(rest) => Some([Escaping.Named(html).0] + rest)
  }

  /** `seen` ahead of whatever `rest` shows as. */
  function Ahead(seen: string, rest: Option<string>): Option<string> {
    match rest
    case None => None
    case Some(s) => Some(seen + s)
  }

  lemma AheadTwice(a: string, b: string, rest: Option<string>)
    ensures Ahead(a, Ahead(b, rest)) == Ahead(a + b, rest)
  {
    if rest.Some? {
      Assoc(a, b, rest.value);
    }
  }

  lemma AheadNone(rest: Option<string>)
    ensures Ahead("", rest) == rest
  {
    if rest.Some? {
      NilLeft("", rest.value);
    }
  }

  // ---- The pieces ----------------------------------------------------------------------------

  lemma TagShown(tag: string, rest: string)
    requires tag in {"<p>", "<br>", "</p>"}
    ensures Shown(tag + rest) == Ahead(if tag == "<br>" then "\n" else "", Shown(rest))
  {
    var html := tag + rest;
    assert html[..|tag|] == tag && html[|tag|..] == rest;
    if tag == "<br>" {
      assert html[1] == 'b';
      Escaping.PrefixHead(html, "<p>", 1);
    } else if tag == "</p>" {
      assert html[1] == '/';
      Escaping.PrefixHead(html, "<p>", 1);
      Escaping.PrefixHead(html, "<br>", 1);
    }
  }

  lemma CharShown(c: char, rest: string)
    ensures Shown(Escaping.Entity(c) + rest) == Ahead([c], Shown(rest))
  {
    var e := Escaping.Entity(c);
    var html := e + rest;
    Escaping.EntityNamed(c, rest);
    Escaping.EntityIsInert(c);
    assert html[0] == e[0] && e[0] in e;
    assert html[|e|..] == rest;
  }

  lemma {:induction false} OnePassShown(s: string, rest: string)
    ensures Shown(Escaping.OnePass(s) + rest) == Ahead(s, Shown(rest))
  {
    if s == "" {
      NilLeft(Escaping.OnePass(s), rest);
      AheadNone(Shown(rest));
    } else {
      var e, more := Escaping.Entity(s[0]), Escaping.OnePass(s[1..]);
      Assoc(e, more, rest);
      CharShown(s[0], more + rest);
      OnePassShown(s[1..], rest);
      AheadTwice([s[0]], s[1..], Shown(rest));
      Uncons(s);
    }
  }

  /** Escaped text shows as the text. */
  lemma EscapedShown(s: string, rest: string)
    ensures Shown(Html.Escape(s) + rest) == Ahead(s, Shown(rest))
  {
    Escaping.EscapeIsOnePass(s);
    OnePassShown(s, rest);
  }

  // ---- Paragraphs ----------------------------------------------------------------------------

  /** Lines with a line feed between them. */
  function Lines(lines: seq<string>): string {
    if lines == [] then ""
    else if |lines| == 1 then lines[0]
    else lines[0] + ("\n" + Lines(lines[1..]))
  }

  lemma {:induction false} LinesShown(lines: seq<string>, rest: string)
    ensures Shown(Html.EscapedJoin(lines) + rest) == Ahead(Lines(lines), Shown(rest))
  {
    if lines == [] {
      NilLeft(Html.EscapedJoin(lines), rest);
      AheadNone(Shown(rest));
    } else if |lines| == 1 {
      EscapedShown(lines[0], rest);
    } else {
      var first, more := Html.Escape(lines[0]), Html.EscapedJoin(lines[1..]);
      assert first + "<br>" + more + rest == first + ("<br>" + (more + rest));
      EscapedShown(lines[0], "<br>" + (more + rest));
      TagShown("<br>", more + rest);
      LinesShown(lines[1..], rest);
      AheadTwice("\n", Lines(lines[1..]), Shown(rest));
      AheadTwice(lines[0], "\n" + Lines(lines[1..]), Shown(rest));
    }
  }

  lemma FeedShown(rest: string)
    ensures Shown("\n" + rest) == Ahead("\n", Shown(rest))
  {
    Escaping.PlainNamed('\n', rest);
    assert ("\n" + rest)[1..] == rest;
  }

  /** What a paragraph shows as: nothing if it is blank, its lines and a line feed if it is not. */
  function ParagraphText(para: string): string {
    var p := Html.TrimNewlines(para);
    if IsBlank(p) then "" else Lines(Html.LinesOf(p)) + "\n"
  }

  lemma ParagraphShown(para: string, rest: string)
    ensures Shown(Html.ParagraphHtml(para) + rest) == Ahead(ParagraphText(para), Shown(rest))
  {
    var p := Html.TrimNewlines(para);
    if IsBlank(p) {
      NilLeft("", rest);
      AheadNone(Shown(rest));
    } else {
      var lines := Html.LinesOf(p);
      var inner := Html.EscapedJoin(lines);
      assert ("<p>" + inner + "</p>\n") + rest == "<p>" + (inner + ("</p>" + ("\n" + rest)));
      TagShown("<p>", inner + ("</p>" + ("\n" + rest)));
      LinesShown(lines, "</p>" + ("\n" + rest));
      TagShown("</p>", "\n" + rest);
      FeedShown(rest);
      AheadNone(Ahead("\n", Shown(rest)));
      AheadTwice(Lines(lines), "\n", Shown(rest));
      AheadNone(Shown(inner + ("</p>" + ("\n" + rest))));
    }
  }

  function ParagraphTexts(paras: seq<string>): string {
    if paras == [] then "" else ParagraphTexts(paras[..|paras| - 1]) + ParagraphText(paras[|paras| - 1])
  }

  lemma {:induction false} ParagraphsShown(paras: seq<string>, rest: string)
    ensures Shown(Html.ParagraphsHtmlOf(paras) + rest) == Ahead(ParagraphTexts(paras), Shown(rest))
    decreases |paras|
  {
    if paras == [] {
      NilLeft("", rest);
      AheadNone(Shown(rest));
    } else {
      var n := |paras| - 1;
      var before, last := Html.ParagraphsHtmlOf(paras[..n]), Html.ParagraphHtml(paras[n]);
      Assoc(before, last, rest);
      ParagraphsShown(paras[..n], last + rest);
      ParagraphShown(paras[n], rest);
      AheadTwice(ParagraphTexts(paras[..n]), ParagraphText(paras[n]), Shown(rest));
    }
  }

  /** Whatever a plain text holds, its html form shows the paragraphs that are not blank, line by line and
      character by character, and no tag of the text's own. */
  lemma TextIsShown(body: string)
    ensures Shown(Html.TextAsHtml(body)) == Some(ParagraphTexts(Html.Paragraphs(CrlfToLf(body))))
  {
    var paras := Html.Paragraphs(CrlfToLf(body));
    ParagraphsShown(paras, "");
    NilRight(Html.ParagraphsHtmlOf(paras));
    NilRight(ParagraphTexts(paras));
  }

  // ---- What paragraphs and lines are ---------------------------------------------------------

  function Joined(paras: seq<string>): string
    requires paras != []
  {
    if |paras| == 1 then paras[0] else paras[0] + ("\n\n" + Joined(paras[1..]))
  }

  lemma TwoFeeds(s: string)
    requires |s| > 1 && s[0] == '\n' && s[1] == '\n'
    ensures StartsWith(s, "\n\n") && s == "\n\n" + s[2..]
  {
  }

  /** The paragraphs are cut at the first two line feeds in a row, every time: put together again they are
      the text, none holds two in a row, and none but the last ends in one. */
  lemma {:induction false} ParagraphsAre(s: string)
    ensures Joined(Html.Paragraphs(s)) == s
    ensures forall i :: 0 <= i < |Html.Paragraphs(s)| ==> !Contains(Html.Paragraphs(s)[i], "\n\n")
    ensures forall i :: 0 <= i < |Html.Paragraphs(s)| - 1 ==>
              var p := Html.Paragraphs(s)[i]; p == "" || p[|p| - 1] != '\n'
    decreases |s|
  {
    var paras := Html.Paragraphs(s);
    if s == "" {
      NoFeeds("");
    } else if StartsWith(s, "\n\n") {
      ParagraphsAre(s[2..]);
      NoFeeds("");
      assert paras[1..] == Html.Paragraphs(s[2..]);
      assert s == "" + ("\n\n" + s[2..]);
    } else {
      var rest := Html.Paragraphs(s[1..]);
      ParagraphsAre(s[1..]);
      assert paras[1..] == rest[1..];
      Uncons(s);
      JoinedLonger(s[0], rest);
      FirstStays(s, rest);
    }
  }

  lemma NoFeeds(s: string)
    requires |s| < 2
    ensures !Contains(s, "\n\n")
  {
  }

  lemma JoinedLonger(c: char, rest: seq<string>)
    requires rest != []
    ensures Joined([[c] + rest[0]] + rest[1..]) == [c] + Joined(rest)
  {
    var all := [[c] + rest[0]] + rest[1..];
    assert all[1..] == rest[1..];
  }

  /** The first paragraph is where the text begins. */
  lemma JoinedHead(paras: seq<string>)
    requires paras != []
    ensures StartsWith(Joined(paras), paras[0])
    ensures |paras| > 1 ==> StartsWith(Joined(paras), paras[0] + "\n\n")
  {
    if |paras| > 1 {
      Assoc(paras[0], "\n\n", Joined(paras[1..]));
      PrefixOf(paras[0], "\n\n" + Joined(paras[1..]));
      PrefixOf(paras[0] + "\n\n", Joined(paras[1..]));
    } else {
      NilRight(paras[0]);
      PrefixOf(paras[0], "");
    }
  }

  lemma PrefixOf(p: string, rest: string)
    ensures StartsWith(p + rest, p)
  {
  }

  lemma FirstStays(s: string, rest: seq<string>)
    requires s != "" && !StartsWith(s, "\n\n") && rest != [] && Joined(rest) == s[1..]
    requires !Contains(rest[0], "\n\n") && (|rest| > 1 ==> rest[0] == "" || rest[0][|rest[0]| - 1] != '\n')
    ensures !Contains([s[0]] + rest[0], "\n\n")
    ensures |rest| > 1 ==> ([s[0]] + rest[0])[|rest[0]|] != '\n'
  {
    var p := [s[0]] + rest[0];
    JoinedHead(rest);
    if Contains(p, "\n\n") {
      var i :| 0 <= i <= |p| && OccursAt(p, "\n\n", i);
      assert p[i..i + 2][0] == p[i] && p[i..i + 2][1] == p[i + 1];
      if i == 0 {
        assert rest[0][0] == s[1..][..|rest[0]|][0] == s[1];
        TwoFeeds(s);
        assert false;
      } else {
        assert rest[0][i - 1..i + 1] == p[i..i + 2];
        assert OccursAt(rest[0], "\n\n", i - 1);
        assert false;
      }
    }
    if |rest| > 1 && rest[0] == "" && s[0] == '\n' {
      assert s[1..][..2] == "\n\n";
      TwoFeeds(s);
      assert false;
    }
  }

  /** The line feeds around a paragraph come off, and nothing else. */
  lemma {:induction false} TrimmedIs(s: string) returns (before: string, behind: string)
    ensures s == before + Html.TrimNewlines(s) + behind
    ensures (forall c <- before :: c == '\n') && forall c <- behind :: c == '\n'
    ensures var r := Html.TrimNewlines(s); r != "" ==> r[0] != '\n' && r[|r| - 1] != '\n'
    decreases |s|
  {
    if s != "" && s[0] == '\n' {
      before, behind := TrimmedIs(s[1..]);
      before := ['\n'] + before;
      Uncons(s);
    } else {
      before := "";
      behind := TrimmedEnd(s);
    }
  }

  lemma {:induction false} TrimmedEnd(s: string) returns (behind: string)
    ensures s == Html.TrimEndNewlines(s) + behind && forall c <- behind :: c == '\n'
    ensures var r := Html.TrimEndNewlines(s); r != "" ==> r[|r| - 1] != '\n' && r[0] == s[0]
    decreases |s|
  {
    behind := "";
    if s != "" && s[|s| - 1] == '\n' {
      behind := TrimmedEnd(s[..|s| - 1]);
      behind := behind + ['\n'];
    }
  }

  lemma FirstFeed(l: string, rest: string)
    requires '\n' !in l
    ensures Html.FirstLf(l) == |l| && Html.FirstLf(l + ("\n" + rest)) == |l|
  {
    if l == "" {
      NilLeft(l, "\n" + rest);
    } else {
      TailOf(l, "\n" + rest);
      FirstFeed(l[1..], rest);
    }
  }

  lemma LastLine(l: string)
    requires '\n' !in l
    ensures Html.LinesOf(l) == if l == "" then [] else [l]
  {
    FirstFeed(l, "");
    assert l[..|l|] == l;
  }

  /** A line ends at its line feed, without a carriage return before it; what follows the last one is a
      line if there is anything (`LastLine`). */
  lemma LinesAre(l: string, rest: string)
    requires '\n' !in l
    ensures Html.LinesOf(l + ("\n" + rest))
            == [if l != "" && l[|l| - 1] == '\r' then l[..|l| - 1] else l] + Html.LinesOf(rest)
  {
    var s := l + ("\n" + rest);
    FirstFeed(l, rest);
    CutAt(l, rest);
  }

  lemma CutAt(l: string, rest: string)
    ensures var s := l + ("\n" + rest);
            |l| < |s| && s[..|l|] == l && s[|l| + 1..] == rest
  {
  }
}
