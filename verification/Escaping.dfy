/** `escape_html`: five replacements in turn come to one pass, nothing markup-like is left, and a reader
    gets the text back. */
module Escaping {
  import opened Text
  import opened Html
  import opened Seqs

  predicate IsMarkup(c: char) {
    c in {'&', '<', '>', '"', '\''}
  }

  function Entity(c: char): (r: string)
    ensures r != ""
    ensures IsMarkup(c) ==> r[0] == '&'
    ensures !IsMarkup(c) ==> r == [c]
  {
    if c == '&' then "&amp;"
    else if c == '<' then "&lt;"
    else if c == '>' then "&gt;"
    else if c == '"' then "&quot;"
    else if c == '\'' then "&#39;"
    else [c]
  }

  function OnePass(s: string): string {
    if s == "" then "" else Entity(s[0]) + OnePass(s[1..])
  }

  lemma {:induction false} ReplaceAppend(a: string, b: string, c: char, with: string)
    ensures ReplaceChar(a + b, c, with) == ReplaceChar(a, c, with) + ReplaceChar(b, c, with)
  {
    if a == "" {
      NilLeft(a, b);
    } else {
      TailOf(a, b);
      ReplaceAppend(a[1..], b, c, with);
    }
  }

  lemma {:induction false} ReplaceNone(s: string, c: char, with: string)
    requires c !in s
    ensures ReplaceChar(s, c, with) == s
  {
    if s != "" {
      ReplaceNone(s[1..], c, with);
      Uncons(s);
    }
  }

  lemma ReplaceOne(c: char, with: string)
    ensures ReplaceChar([c], c, with) == with
  {
    assert [c][1..] == "";
    assert with + "" == with;
  }

  lemma EscapeAppend(a: string, b: string)
    ensures Escape(a + b) == Escape(a) + Escape(b)
  {
    ReplaceAppend(a, b, '&', "&amp;");
    var a1, b1 := ReplaceChar(a, '&', "&amp;"), ReplaceChar(b, '&', "&amp;");
    ReplaceAppend(a1, b1, '<', "&lt;");
    var a2, b2 := ReplaceChar(a1, '<', "&lt;"), ReplaceChar(b1, '<', "&lt;");
    ReplaceAppend(a2, b2, '>', "&gt;");
    var a3, b3 := ReplaceChar(a2, '>', "&gt;"), ReplaceChar(b2, '>', "&gt;");
    ReplaceAppend(a3, b3, '"', "&quot;");
    ReplaceAppend(ReplaceChar(a3, '"', "&quot;"), ReplaceChar(b3, '"', "&quot;"), '\'', "&#39;");
  }

  /** A later replacement never touches what an earlier one wrote. */
  lemma Untouched(s: string)
    requires '<' !in s && '>' !in s && '"' !in s && '\'' !in s
    ensures ReplaceChar(s, '<', "&lt;") == s && ReplaceChar(s, '>', "&gt;") == s
    ensures ReplaceChar(s, '"', "&quot;") == s && ReplaceChar(s, '\'', "&#39;") == s
  {
    ReplaceNone(s, '<', "&lt;");
    ReplaceNone(s, '>', "&gt;");
    ReplaceNone(s, '"', "&quot;");
    ReplaceNone(s, '\'', "&#39;");
  }

  lemma EntityIsInert(c: char)
    ensures forall d :: d in {'<', '>', '"', '\''} ==> d !in Entity(c)
  {
  }

  lemma EscapeOne(c: char)
    ensures Escape([c]) == Entity(c)
  {
    EntityIsInert(c);
    Untouched(Entity(c));
    ReplaceOne(c, Entity(c));
    if c != '&' { ReplaceNone([c], '&', "&amp;"); }
    if c != '<' { ReplaceNone([c], '<', "&lt;"); }
    if c != '>' { ReplaceNone([c], '>', "&gt;"); }
    if c != '"' { ReplaceNone([c], '"', "&quot;"); }
    if c != '\'' { ReplaceNone([c], '\'', "&#39;"); }
  }

  lemma {:induction false} EscapeIsOnePass(s: string)
    ensures Escape(s) == OnePass(s)
  {
    if s == "" {
      assert Escape("") == "";
    } else {
      EscapeIsOnePass(s[1..]);
      Uncons(s);
      EscapeAppend([s[0]], s[1..]);
      EscapeOne(s[0]);
    }
  }

  lemma {:induction false} OnePassIsInert(s: string)
    ensures forall i :: 0 <= i < |OnePass(s)| ==> OnePass(s)[i] !in {'<', '>', '"', '\''}
  {
    if s != "" {
      OnePassIsInert(s[1..]);
      EntityIsInert(s[0]);
    }
  }

  // ---- The reader ----------------------------------------------------------------------------

  /** The character an entity at the start of `s` names, and the entity's length. */
  function Named(s: string): (r: (char, nat))
    requires s != ""
    ensures 1 <= r.1 <= |s|
  {
    if StartsWith(s, "&amp;") then ('&', 5)
    else if StartsWith(s, "&lt;") then ('<', 4)
    else if StartsWith(s, "&gt;") then ('>', 4)
    else if StartsWith(s, "&quot;") then ('"', 6)
    else if StartsWith(s, "&#39;") then ('\'', 5)
    else (s[0], 1)
  }

  function Unescape(s: string): string {
    if s == "" then "" else [Named(s).0] + Unescape(s[Named(s).1..])
  }

  lemma PrefixHead(s: string, p: string, i: nat)
    requires i < |p| && i < |s| && s[i] != p[i]
    ensures !StartsWith(s, p)
  {
  }

  lemma PrefixHolds(p: string, rest: string)
    ensures StartsWith(p + rest, p)
  {
  }

  lemma PlainNamed(c: char, rest: string)
    requires !IsMarkup(c)
    ensures Named([c] + rest) == (c, 1)
  {
    var s := [c] + rest;
    PrefixHead(s, "&amp;", 0);
    PrefixHead(s, "&lt;", 0);
    PrefixHead(s, "&gt;", 0);
    PrefixHead(s, "&quot;", 0);
    PrefixHead(s, "&#39;", 0);
  }

  lemma MarkupNamed(c: char, rest: string)
    requires IsMarkup(c)
    ensures Named(Entity(c) + rest) == (c, |Entity(c)|)
  {
    var s := Entity(c) + rest;
    PrefixHolds(Entity(c), rest);
    assert s[1] == Entity(c)[1];
    if c != '&' { PrefixHead(s, "&amp;", 1); }
    if c != '&' && c != '<' { PrefixHead(s, "&lt;", 1); }
    if c == '"' || c == '\'' { PrefixHead(s, "&gt;", 1); }
    if c == '\'' { PrefixHead(s, "&quot;", 1); }
  }

  lemma EntityNamed(c: char, rest: string)
    ensures Named(Entity(c) + rest) == (c, |Entity(c)|)
  {
    if IsMarkup(c) { MarkupNamed(c, rest); } else { PlainNamed(c, rest); }
  }

  lemma {:induction false} OnePassRead(s: string)
    ensures Unescape(OnePass(s)) == s
  {
    if s != "" {
      var e, rest := Entity(s[0]), OnePass(s[1..]);
      EntityNamed(s[0], rest);
      OnePassRead(s[1..]);
      assert (e + rest)[|e|..] == rest;
      Uncons(s);
    }
  }

  /** Escaped text holds no `<`, `>` or quote, so it can open no tag and close no attribute, and a
      reader shows exactly the text it was. */
  lemma EscapeRoundTrip(s: string)
    ensures forall i :: 0 <= i < |Escape(s)| ==> Escape(s)[i] !in {'<', '>', '"', '\''}
    ensures Unescape(Escape(s)) == s
  {
    EscapeIsOnePass(s);
    OnePassIsInert(s);
    OnePassRead(s);
  }
}
