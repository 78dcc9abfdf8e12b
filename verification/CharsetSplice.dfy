/** What `strip_charset_meta` does not do: dropping a tag can join the text around it into a new one.
    A witness, and exactly when it cannot happen, when one pass is enough and when a second changes nothing. */
module CharsetSplice {
  import opened Wrappers
  import opened Text
  import opened CharsetMeta
  import opened TagScanner
  import opened Seqs

  // ---- The witness ---------------------------------------------------------------------------

  /** ` name=v>`, the value unquoted. */
  function ShortRest(name: string, v: char): string {
    " " + (name + ("=" + ([v] + ">")))
  }

  function ShortTag(name: string, v: char): string {
    META + ShortRest(name, v)
  }

  predicate PlainChar(v: char) {
    'a' <= v <= 'z'
  }

  lemma UnquotedTaken(v: char)
    requires PlainChar(v)
    ensures ReadValue([v] + ">") == ([v], ">")
  {
    var s := [v] + ">";
    assert SkipWhitespace(s) == s;
    assert s[1..] == ">";
    assert UnquotedLength(s) == 1;
    assert s[..1] == [v];
  }

  lemma ShortNamed(name: string, v: char)
    requires name != "" && (forall i :: 0 <= i < |name| ==> PlainChar(name[i])) && PlainChar(v)
    ensures var t := name + ("=" + ([v] + ">"));
            !IsSeparator(t[0]) && t[0] != '>' && ReadAttribute(t) == ([Attribute(name, [v])], ">")
  {
    var tail := "=" + ([v] + ">");
    var t := name + tail;
    assert t[0] == name[0];
    NameTaken(name, tail);
    assert t[|name|..] == tail && t[..|name|] == name;
    assert SkipWhitespace(tail) == tail;
    assert tail[1..] == [v] + ">";
    UnquotedTaken(v);
  }

  lemma TagOfOne(t: string, a: Attribute)
    requires t != "" && !IsSeparator(t[0]) && t[0] != '>' && ReadAttribute(t) == ([a], ">")
    ensures AttributesFrom(" " + t) == [a]
  {
    SpaceSkipped(t);
    AttributesStep(" " + t, t, [a], ">");
    StopsAtClose(">");
  }

  lemma AfterMeta(rest: string)
    requires rest != "" && rest[0] == ' '
    ensures TagAttributes(META + rest) == AttributesFrom(rest)
  {
    PastSolid(META, rest);
    assert (META + rest)[5..] == rest;
  }

  lemma ShortTagAttributes(name: string, v: char)
    requires name != "" && (forall i :: 0 <= i < |name| ==> PlainChar(name[i])) && PlainChar(v)
    ensures TagAttributes(ShortTag(name, v)) == [Attribute(name, [v])]
  {
    ShortNamed(name, v);
    TagOfOne(name + ("=" + ([v] + ">")), Attribute(name, [v]));
    AfterMeta(ShortRest(name, v));
  }

  lemma ShortTagEnds(name: string, v: char)
    requires name != "" && (forall i :: 0 <= i < |name| ==> PlainChar(name[i])) && PlainChar(v)
    ensures ToAsciiLower(ShortTag(name, v)) == ShortTag(name, v) && IsTag(ShortTag(name, v))
  {
    var tag := ShortTag(name, v);
    var head := META + (" " + (name + ("=" + [v])));
    assert tag == head + ">";
    ScanPlain(head, ">", NUL);
    assert forall i :: 0 <= i < |tag| ==> AsciiLower(tag[i]) == tag[i];
    assert ToAsciiLower(tag) == tag;
    assert tag[..5] == META;
  }

  function CharsetTag(v: char): string {
    ShortTag("charset", v)
  }

  lemma CharsetTagIsDropped(v: char)
    requires PlainChar(v)
    ensures IsTag(CharsetTag(v)) && Kept(CharsetTag(v), Drops) == ""
  {
    var tag := CharsetTag(v);
    ShortTagEnds("charset", v);
    ShortTagAttributes("charset", v);
    assert DeclaresCharset(TagAttributes(tag)[0]);
    assert tag[5] == ' ';
    assert MetaDeclaresCharset(tag);
  }

  lemma Splices(before: string, tag: string, after: string, joined: string, drops: string -> bool)
    requires NoMeta(before) && IsTag(tag) && Kept(tag, drops) == "" && NoMeta(after) && before + after == joined
    ensures StripWith(before + (tag + after), drops) == joined
  {
    StripTagged(before, tag, after, drops);
    NoMetaKept(after, drops);
    EmptyBetween(before, after);
  }

  lemma NoMetaKept(text: string, drops: string -> bool)
    requires NoMeta(text)
    ensures StripWith(text, drops) == text
  {
  }

  lemma EmptyBetween(a: string, b: string)
    ensures a + "" + b == a + b
  {
  }

  lemma MetaHalves(rest: string)
    ensures "<me" + ("ta" + rest) == META + rest
  {
  }

  lemma RestLacksAngle(v: char)
    requires PlainChar(v)
    ensures '<' !in "ta" + ShortRest("charset", v)
  {
  }

  lemma InnerDropped(tag: string, after: string, joined: string)
    requires IsTag(tag) && Kept(tag, Drops) == "" && NoMeta(after) && "<me" + after == joined
    ensures Strip("<me" + (tag + after)) == joined
  {
    ShortHasNoMeta();
    Splices("<me", tag, after, joined, Drops);
  }

  lemma LoneTagDropped(tag: string)
    requires IsTag(tag) && Kept(tag, Drops) == ""
    ensures Strip(tag) == ""
  {
    ShortHasNoMeta();
    Splices("", tag, "", "", Drops);
    EmptyAround(tag);
  }

  lemma OuterHalf(v: char)
    requires PlainChar(v)
    ensures NoMeta("ta" + ShortRest("charset", v))
    ensures "<me" + ("ta" + ShortRest("charset", v)) == CharsetTag(v)
  {
    RestLacksAngle(v);
    NoAngleNoMeta("ta" + ShortRest("charset", v));
    MetaHalves(ShortRest("charset", v));
  }

  /** Taking the inner tag out of `<me<meta charset=x>ta charset=y>` leaves a charset-declaring tag that
      a second pass would take out too, whatever the two charsets are. */
  lemma SplicedTagSurvives(x: char, y: char)
    requires PlainChar(x) && PlainChar(y)
    ensures Strip("<me" + (CharsetTag(x) + ("ta" + ShortRest("charset", y)))) == CharsetTag(y)
    ensures Strip(CharsetTag(y)) == ""
  {
    CharsetTagIsDropped(x);
    CharsetTagIsDropped(y);
    OuterHalf(y);
    InnerDropped(CharsetTag(x), "ta" + ShortRest("charset", y), CharsetTag(y));
    LoneTagDropped(CharsetTag(y));
  }

  lemma EmptyAround(s: string)
    ensures "" + (s + "") == s
  {
  }

  lemma ShortHasNoMeta()
    ensures NoMeta("<me") && NoMeta("")
  {
    ShorterHasNoMeta(ToAsciiLower("<me"));
    ShorterHasNoMeta(ToAsciiLower(""));
  }

  lemma {:induction false} ShorterHasNoMeta(s: string)
    requires |s| < 5
    ensures FirstOf(s, META) == None
  {
    if s != "" {
      ShorterHasNoMeta(s[1..]);
    }
  }

  lemma {:induction false} LacksAngle(s: string)
    requires '<' !in s
    ensures FirstOf(s, META) == None
  {
    MetaHead(s);
    if s != "" {
      LacksAngle(s[1..]);
    }
  }

  lemma NoAngleNoMeta(text: string)
    requires '<' !in text
    ensures NoMeta(text)
  {
    LacksAngle(ToAsciiLower(text));
  }

  // ---- When it cannot happen -----------------------------------------------------------------

  /** A lowercased text that could be the start of a `<meta` cut short. */
  predicate OpenAtEnd(l: string) {
    var n := |l|;
    || (n >= 1 && l[n - 1] == '<')
    || (n >= 2 && l[n - 2] == '<' && l[n - 1] == 'm')
    || (n >= 3 && l[n - 3] == '<' && l[n - 2] == 'm' && l[n - 1] == 'e')
    || (n >= 4 && l[n - 4] == '<' && l[n - 3] == 'm' && l[n - 2] == 'e' && l[n - 1] == 't')
  }

  predicate EndsOpen(text: string) {
    OpenAtEnd(ToAsciiLower(text))
  }

  /** No dropped tag stands right behind such text. */
  predicate CleanJoins(d: Doc, drops: string -> bool) {
    d.Tagged? ==> (drops(ToAsciiLower(d.tag)) ==> !EndsOpen(d.text)) && CleanJoins(d.more, drops)
  }

  /** The document as it reads once the dropped tags are gone, `pre` standing in front of it. */
  function Merged(pre: string, d: Doc, drops: string -> bool): Doc
    decreases d
  {
    match d
    case Tail(t) => Tail(pre + t)
    case Unterminated(t, o) => Unterminated(pre + t, o)
    case Tagged(t, tag, more) =>
      if drops(ToAsciiLower(tag)) then Merged(pre + t, more, drops)
      else Tagged(pre + t, tag, Merged("", more, drops))
  }

  lemma StraddleIsOpen(a: string, b: string)
    requires a != "" && |a| < 5 && StartsWith(a + b, META)
    ensures OpenAtEnd(a)
  {
    MetaHead(a + b);
    assert forall i :: 0 <= i < |a| ==> (a + b)[i] == a[i];
  }

  lemma {:induction false} JoinHasNoMeta(a: string, b: string)
    requires FirstOf(a, META) == None && FirstOf(b, META) == None && !OpenAtEnd(a)
    ensures FirstOf(a + b, META) == None
  {
    if a == "" {
      NilLeft(a, b);
    } else {
      TailOf(a, b);
      JoinHasNoMeta(a[1..], b);
      assert |a| >= 5 ==> (a + b)[..5] == a[..5];
      assert !StartsWith(a + b, META) by {
        if StartsWith(a + b, META) && |a| < 5 {
          StraddleIsOpen(a, b);
        }
      }
    }
  }

  lemma JoinNotOpen(a: string, b: string)
    requires !OpenAtEnd(a) && !OpenAtEnd(b)
    ensures !OpenAtEnd(a + b)
  {
    var s, n := a + b, |a|;
    assert forall i :: 0 <= i < n ==> s[i] == a[i];
    assert forall i :: 0 <= i < |b| ==> s[n + i] == b[i];
    if |b| == 0 {
      assert s == a;
    } else if |b| < 4 {
      assert s[|s| - 1] == b[|b| - 1];
      assert |b| >= 2 ==> s[|s| - 2] == b[|b| - 2];
      assert |b| >= 3 ==> s[|s| - 3] == b[|b| - 3];
    } else {
      assert s[|s| - 1] == b[|b| - 1] && s[|s| - 2] == b[|b| - 2] && s[|s| - 3] == b[|b| - 3] && s[|s| - 4] == b[|b| - 4];
    }
  }

  lemma JoinTexts(pre: string, t: string)
    requires NoMeta(pre) && NoMeta(t) && !EndsOpen(pre)
    ensures NoMeta(pre + t)
    ensures !EndsOpen(t) ==> !EndsOpen(pre + t)
  {
    LowerAppend(pre, t);
    JoinHasNoMeta(ToAsciiLower(pre), ToAsciiLower(t));
    if !EndsOpen(t) {
      JoinNotOpen(ToAsciiLower(pre), ToAsciiLower(t));
    }
  }

  predicate NothingDropped(d: Doc, drops: string -> bool) {
    d.Tagged? ==> !drops(ToAsciiLower(d.tag)) && NothingDropped(d.more, drops)
  }

  lemma Rebracketed(a: string, b: string, c: string, d: string)
    ensures a + (b + "" + d) == (a + b) + d
    ensures a + (b + c + d) == (a + b) + c + ("" + d)
  {
  }

  lemma {:induction false} MergedReads(pre: string, d: Doc, drops: string -> bool)
    ensures Source(Merged(pre, d, drops)) == pre + Without(d, drops)
    ensures NothingDropped(Merged(pre, d, drops), drops)
    decreases d
  {
    match d {
      case Tail(_) =>
      case Unterminated(t, o) =>
        assert pre + (t + o) == (pre + t) + o;
      case Tagged(t, tag, more) =>
        Rebracketed(pre, t, tag, Without(more, drops));
        if drops(ToAsciiLower(tag)) {
          MergedReads(pre + t, more, drops);
        } else {
          MergedReads("", more, drops);
        }
    }
  }

  lemma {:induction false} NothingToStrip(d: Doc, drops: string -> bool)
    requires NothingDropped(d, drops)
    ensures Without(d, drops) == Source(d)
  {
    if d.Tagged? {
      NothingToStrip(d.more, drops);
    }
  }

  // ---- When it cannot happen, exactly --------------------------------------------------------

  /** Wherever dropped tags leave texts side by side, the joined text spells no `<meta`. */
  predicate NoSplice(pre: string, d: Doc, drops: string -> bool)
    decreases d
  {
    && NoMeta(pre + d.text)
    && (d.Tagged? ==> NoSplice(if drops(ToAsciiLower(d.tag)) then pre + d.text else "", d.more, drops))
  }

  lemma {:induction false} PrefixHasNoMeta(a: string, b: string)
    requires FirstOf(a + b, META) == None
    ensures FirstOf(a, META) == None
  {
    MetaHead(a);
    MetaHead(a + b);
    assert forall i :: 0 <= i < |a| ==> (a + b)[i] == a[i];
    if a != "" {
      TailOf(a, b);
      PrefixHasNoMeta(a[1..], b);
    }
  }

  lemma ShorterText(a: string, b: string)
    requires NoMeta(a + b)
    ensures NoMeta(a)
  {
    LowerAppend(a, b);
    PrefixHasNoMeta(ToAsciiLower(a), ToAsciiLower(b));
  }

  /** The text a merged document starts with goes on from the text that was carried into it. */
  lemma {:induction false} MergedStarts(pre: string, d: Doc, drops: string -> bool)
    requires ValidDoc(Merged(pre, d, drops))
    ensures NoMeta(pre + d.text)
    decreases d
  {
    if d.Tagged? && drops(ToAsciiLower(d.tag)) {
      MergedStarts(pre + d.text, d.more, drops);
      ShorterText(pre + d.text, d.more.text);
    }
  }

  lemma {:induction false} MergedIsValid(pre: string, d: Doc, drops: string -> bool)
    requires ValidDoc(d)
    ensures ValidDoc(Merged(pre, d, drops)) <==> NoSplice(pre, d, drops)
    decreases d
  {
    if d.Tagged? {
      MergedIsValid(if drops(ToAsciiLower(d.tag)) then pre + d.text else "", d.more, drops);
    }
    if ValidDoc(Merged(pre, d, drops)) {
      MergedStarts(pre, d, drops);
    }
  }

  // ---- A document is read in one way only ----------------------------------------------------

  function Behind(d: Doc): string {
    match d
    case Tail(_) => ""
    case Unterminated(_, o) => o
    case Tagged(_, tag, more) => tag + Source(more)
  }

  lemma SourceIs(d: Doc)
    ensures Source(d) == d.text + Behind(d)
  {
    match d {
      case Tail(t) => NilRight(t);
      case Unterminated(_, _) =>
      case Tagged(t, tag, more) => Assoc(t, tag, Source(more));
    }
  }

  /** Where the first `<meta` stands and whether it ends is read off the source. */
  lemma FirstIs(d: Doc)
    requires ValidDoc(d)
    ensures FirstOf(ToAsciiLower(Source(d)), META) == if d.Tail? then None else Some(|d.text|)
    ensures !d.Tail? ==> TagEnd(ToAsciiLower(Behind(d))) == if d.Tagged? then Some(|d.tag|) else None
  {
    SourceIs(d);
    match d {
      case Tail(t) =>
        NilRight(t);
      case Unterminated(t, o) =>
        TagAfterText(t, o);
      case Tagged(t, tag, more) =>
        TagBeforeRest(tag, Source(more));
        TagAfterText(t, tag + Source(more));
    }
  }

  lemma SameHalves(a: string, b: string, c: string, d: string)
    requires a + b == c + d && |a| == |c|
    ensures a == c && b == d
  {
    assert a == (a + b)[..|a|] && b == (a + b)[|a|..];
    assert c == (c + d)[..|c|] && d == (c + d)[|c|..];
  }

  /** Text and tags of a document are determined by its source. */
  lemma {:induction false} OneReading(a: Doc, b: Doc)
    requires ValidDoc(a) && ValidDoc(b) && Source(a) == Source(b)
    ensures a == b
    decreases a
  {
    FirstIs(a);
    FirstIs(b);
    SourceIs(a);
    SourceIs(b);
    if a.Tail? {
      NilRight(a.text);
      NilRight(b.text);
    } else {
      SameHalves(a.text, Behind(a), b.text, Behind(b));
      if a.Tagged? {
        SameHalves(a.tag, Source(a.more), b.tag, Source(b.more));
        OneReading(a.more, b.more);
      }
    }
  }

  // ---- One pass ------------------------------------------------------------------------------

  /** The output, read as a document, is the input's with the declaring tags gone and the texts around
      them joined, exactly when no such join spells a `<meta`. */
  lemma OutputIsMerged(d: Doc, e: Doc)
    requires ValidDoc(d) && ValidDoc(e) && Source(e) == Strip(Source(d))
    ensures e == Merged("", d, Drops) <==> NoSplice("", d, Drops)
  {
    MergedIsValid("", d, Drops);
    MergedReads("", d, Drops);
    StripIsWithout(d, Drops);
    NilLeft("", Without(d, Drops));
    if NoSplice("", d, Drops) {
      OneReading(e, Merged("", d, Drops));
    }
  }

  lemma {:induction false} DroppedShortens(d: Doc, drops: string -> bool)
    requires ValidDoc(d)
    ensures |Without(d, drops)| <= |Source(d)|
    ensures |Without(d, drops)| == |Source(d)| ==> NothingDropped(d, drops)
    decreases d
  {
    if d.Tagged? {
      DroppedShortens(d.more, drops);
      TagIsSome(d.tag);
    }
  }

  lemma TagIsSome(tag: string)
    requires IsTag(tag)
    ensures tag != ""
  {
    assert |ToAsciiLower(tag)| >= |META| == 5;
  }

  /** A second pass changes nothing exactly when no tag left by the first declares a charset. */
  lemma SecondPass(html: string, e: Doc)
    requires ValidDoc(e) && Source(e) == Strip(html)
    ensures Strip(Strip(html)) == Strip(html) <==> NothingDropped(e, Drops)
  {
    StripIsWithout(e, Drops);
    DroppedShortens(e, Drops);
    if NothingDropped(e, Drops) {
      NothingToStrip(e, Drops);
    }
  }

  /** Where no join spells a `<meta`, one pass is enough: no tag of the output declares a charset, and
      a second pass changes nothing. */
  lemma OnePassIsEnough(d: Doc, e: Doc)
    requires ValidDoc(d) && ValidDoc(e) && Source(e) == Strip(Source(d)) && NoSplice("", d, Drops)
    ensures NothingDropped(e, Drops) && Strip(Strip(Source(d))) == Strip(Source(d))
  {
    OutputIsMerged(d, e);
    MergedReads("", d, Drops);
    SecondPass(Source(d), e);
  }

  /** No dropped tag right behind a cut-short `<meta` is one way to be sure of it. */
  lemma {:induction false} CleanJoinsDoNotSplice(pre: string, d: Doc, drops: string -> bool)
    requires ValidDoc(d) && CleanJoins(d, drops) && NoMeta(pre) && !EndsOpen(pre)
    ensures NoSplice(pre, d, drops)
    decreases d
  {
    JoinTexts(pre, d.text);
    if d.Tagged? {
      if drops(ToAsciiLower(d.tag)) {
        CleanJoinsDoNotSplice(pre + d.text, d.more, drops);
      } else {
        ShortHasNoMeta();
        CleanJoinsDoNotSplice("", d.more, drops);
      }
    }
  }
}
