/** `strip_charset_meta`: the one edit made to forwarded markup. The scanner, the attribute reader and
    the loop, against a description of a document as text and `<meta` tags. */
module CharsetMeta {
  import opened Wrappers
  import opened Text
  import opened Seqs

  const META: string := "<meta"
  const NUL: char := '\0'

  predicate IsAsciiWhitespace(c: char) {
    c == ' ' || c == '\t' || c == '\n' || c as int == 12 || c == '\r'
  }

  function Shift(r: Option<nat>, by_: nat): Option<nat> {
    match r
    case Some(n) => Some(n + by_)
    case None => None
  }

  lemma ShiftTwice(r: Option<nat>, i: nat, j: nat)
    ensures Shift(Shift(r, i), j) == Shift(r, i + j)
  {
  }

  /** `find`. */
  function FirstOf(s: string, p: string): (r: Option<nat>)
    ensures r.Some? ==> r.value <= |s| && StartsWith(s[r.value..], p)
  {
    if StartsWith(s, p) then Some(0)
    else if s == "" then None
    else Shift(FirstOf(s[1..], p), 1)
  }

  // ---- Where a tag ends ----------------------------------------------------------------------

  predicate IsQuote(c: char) {
    c == '"' || c == '\''
  }

  /** How far the tag still runs, with `quote` the open quote and `prev` the last byte that was neither
      white space nor inside a value. A quote opens a value only right after `=`. */
  function ScanTag(s: string, quote: Option<char>, prev: char): (r: Option<nat>)
    ensures r.Some? ==> 1 <= r.value <= |s| && s[r.value - 1] == '>'
  {
    if s == "" then None
    else if quote.Some? then
      if s[0] == quote.value then Shift(ScanTag(s[1..], None, NUL), 1)
      else Shift(ScanTag(s[1..], quote, prev), 1)
    else if IsQuote(s[0]) && prev == '=' then Shift(ScanTag(s[1..], Some(s[0]), prev), 1)
    else if s[0] == '>' then Some(1)
    else Shift(ScanTag(s[1..], None, if IsAsciiWhitespace(s[0]) then prev else s[0]), 1)
  }

  /** The index just past the `>` that closes the tag opening at 0. */
  function TagEnd(tag: string): Option<nat> {
    ScanTag(tag, None, NUL)
  }

  /** The quote and the last solid character after one more character. */
  function Scanned(c: char, quote: Option<char>, prev: char): (Option<char>, char) {
    if quote.Some? then if c == quote.value then (None, NUL) else (quote, prev)
    else if IsQuote(c) && prev == '=' then (Some(c), prev)
    else (None, if IsAsciiWhitespace(c) then prev else c)
  }

  lemma ScanStep(s: string, quote: Option<char>, prev: char, i: nat)
    requires s != ""
    ensures var next := Scanned(s[0], quote, prev);
            Shift(ScanTag(s, quote, prev), i)
            == if quote.None? && s[0] == '>' then Some(i + 1) else Shift(ScanTag(s[1..], next.0, next.1), i + 1)
  {
  }

  /** `tag_end`, the loop. */
  method FindTagEnd(tag: string) returns (end: Option<nat>)
    ensures end == TagEnd(tag)
  {
    var quote: Option<char> := None;
    var prev := NUL;
    for i := 0 to |tag|
      invariant TagEnd(tag) == Shift(ScanTag(tag[i..], quote, prev), i)
    {
      var b := tag[i];
      OneFurther(tag, i);
      ScanStep(tag[i..], quote, prev, i);
      if quote.Some? {
        if b == quote.value {
          quote := None;
          prev := NUL;
        }
      } else if IsQuote(b) && prev == '=' {
        quote := Some(b);
      } else if b == '>' {
        return Some(i + 1);
      } else if !IsAsciiWhitespace(b) {
        prev := b;
      }
    }
    assert tag[|tag|..] == "";
    end := None;
  }

  /** A tag that ends is not changed by what follows it. */
  lemma {:induction false} ScanPrefix(s: string, rest: string, quote: Option<char>, prev: char)
    requires ScanTag(s, quote, prev).Some?
    ensures ScanTag(s + rest, quote, prev) == ScanTag(s, quote, prev)
  {
    TailOf(s, rest);
    if quote.Some? {
      if s[0] == quote.value {
        ScanPrefix(s[1..], rest, None, NUL);
      } else {
        ScanPrefix(s[1..], rest, quote, prev);
      }
    } else if IsQuote(s[0]) && prev == '=' {
      ScanPrefix(s[1..], rest, Some(s[0]), prev);
    } else if s[0] != '>' {
      ScanPrefix(s[1..], rest, None, if IsAsciiWhitespace(s[0]) then prev else s[0]);
    }
  }

  lemma {:induction false} ScanCut(s: string, quote: Option<char>, prev: char)
    requires ScanTag(s, quote, prev).Some?
    ensures var n := ScanTag(s, quote, prev).value; ScanTag(s[..n], quote, prev) == Some(n)
  {
    var n := ScanTag(s, quote, prev).value;
    var t := s[..n];
    assert t[0] == s[0];
    if n > 1 { assert t[1..] == s[1..][..n - 1]; }
    if quote.Some? {
      if s[0] == quote.value {
        ScanCut(s[1..], None, NUL);
      } else {
        ScanCut(s[1..], quote, prev);
      }
    } else if IsQuote(s[0]) && prev == '=' {
      ScanCut(s[1..], Some(s[0]), prev);
    } else if s[0] != '>' {
      ScanCut(s[1..], None, if IsAsciiWhitespace(s[0]) then prev else s[0]);
    }
  }

  // ---- Attributes ----------------------------------------------------------------------------

  datatype Attribute = Attribute(name: string, value: string)

  predicate IsSeparator(c: char) {
    IsAsciiWhitespace(c) || c == '/'
  }

  predicate EndsName(c: char) {
    IsAsciiWhitespace(c) || c == '=' || c == '>' || c == '/'
  }

  function SkipSeparators(s: string): (r: string)
    ensures |r| <= |s|
    ensures r != "" ==> !IsSeparator(r[0])
  {
    if s != "" && IsSeparator(s[0]) then SkipSeparators(s[1..]) else s
  }

  function SkipWhitespace(s: string): (r: string)
    ensures |r| <= |s|
    ensures r != "" ==> !IsAsciiWhitespace(r[0])
  {
    if s != "" && IsAsciiWhitespace(s[0]) then SkipWhitespace(s[1..]) else s
  }

  function NameLength(s: string): (n: nat)
    ensures n <= |s|
    ensures forall i :: 0 <= i < n ==> !EndsName(s[i])
    ensures n < |s| ==> EndsName(s[n])
  {
    if s == "" || EndsName(s[0]) then 0 else 1 + NameLength(s[1..])
  }

  function UnquotedLength(s: string): (n: nat)
    ensures n <= |s|
  {
    if s == "" || IsAsciiWhitespace(s[0]) || s[0] == '>' then 0 else 1 + UnquotedLength(s[1..])
  }

  function QuotedLength(s: string, quote: char): (n: nat)
    ensures n <= |s|
    ensures forall i :: 0 <= i < n ==> s[i] != quote
    ensures n < |s| ==> s[n] == quote
  {
    if s == "" || s[0] == quote then 0 else 1 + QuotedLength(s[1..], quote)
  }

  /** The value after an `=`, and what is left behind it. */
  function ReadValue(s: string): (r: (string, string))
    ensures |r.1| <= |s|
  {
    var v := SkipWhitespace(s);
    if v != "" && IsQuote(v[0]) then
      var body := v[1..];
      var n := QuotedLength(body, v[0]);
      (body[..n], if n < |body| then body[n + 1..] else "")
    else
      var n := UnquotedLength(v);
      (v[..n], v[n..])
  }

  /** The attribute `t` starts with, if it has a name, and what is left behind it. */
  function ReadAttribute(t: string): (r: (seq<Attribute>, string))
    requires t != "" && !IsSeparator(t[0]) && t[0] != '>'
    ensures |r.1| < |t|
  {
    var n := NameLength(t);
    var u := SkipWhitespace(t[n..]);
    if u != "" && u[0] == '=' then
      var (value, rest) := ReadValue(u[1..]);
      (if n > 0 then [Attribute(t[..n], value)] else [], rest)
    else
      ([Attribute(t[..n], "")], t[n..])
  }

  function AttributesFrom(s: string): seq<Attribute>
    decreases |s|
  {
    var t := SkipSeparators(s);
    if t == "" || t[0] == '>' then []
    else
      var (a, rest) := ReadAttribute(t);
      a + AttributesFrom(rest)
  }

  function FirstWhitespace(s: string): (r: Option<nat>)
    ensures r.Some? ==> r.value < |s|
  {
    if s == "" then None
    else if IsAsciiWhitespace(s[0]) then Some(0)
    else Shift(FirstWhitespace(s[1..]), 1)
  }

  /** The attributes of a tag, from its first white space on. */
  function TagAttributes(tag: string): seq<Attribute> {
    match FirstWhitespace(tag)
    case None => []
    case Some(i) => AttributesFrom(tag[i..])
  }

  predicate DeclaresCharset(a: Attribute) {
    a.name == "charset" || (a.name == "http-equiv" && Trim(a.value) == "content-type")
  }

  predicate MetaDeclaresCharset(tag: string) {
    exists i :: 0 <= i < |TagAttributes(tag)| && DeclaresCharset(TagAttributes(tag)[i])
  }

  // ---- Stripping -----------------------------------------------------------------------------

  /** `<metadata>` is not `<meta>`: the name has to end here. */
  predicate IsMetaName(lower: string) {
    |lower| <= 5 || IsWhitespace(lower[5]) || lower[5] == '/' || lower[5] == '>'
  }

  /** Whether a complete lowercased tag is dropped. */
  predicate Drops(lower: string) {
    IsMetaName(lower) && MetaDeclaresCharset(lower)
  }

  function Kept(tag: string, drops: string -> bool): string {
    if drops(ToAsciiLower(tag)) then "" else tag
  }

  /** The strip for any verdict on a lowercased tag. */
  function StripWith(html: string, drops: string -> bool): string
    decreases |html|
  {
    match FirstOf(ToAsciiLower(html), META)
    case None => html
    case Some(start) =>
      match TagEnd(ToAsciiLower(html[start..]))
      case None => html
      case Some(n) => html[..start] + Kept(html[start..][..n], drops) + StripWith(html[start..][n..], drops)
  }

  function Strip(html: string): string {
    StripWith(html, Drops)
  }

  lemma LowerSlice(s: string, i: nat, j: nat)
    requires i <= j <= |s|
    ensures ToAsciiLower(s)[i..j] == ToAsciiLower(s[i..j])
    ensures ToAsciiLower(s)[i..] == ToAsciiLower(s[i..])
  {
  }

  lemma MetaHead(s: string)
    ensures StartsWith(s, META) <==> |s| >= 5 && s[0] == '<' && s[1] == 'm' && s[2] == 'e' && s[3] == 't' && s[4] == 'a'
  {
    if |s| >= 5 {
      assert s[..5] == [s[0], s[1], s[2], s[3], s[4]];
      assert META == ['<', 'm', 'e', 't', 'a'];
    }
  }

  /** A terminated tag is longer than `<meta`: none of those five characters closes it. */
  lemma MetaTagIsLong(lower: string)
    requires StartsWith(lower, META) && TagEnd(lower).Some?
    ensures TagEnd(lower).value >= 6
  {
    MetaHead(lower);
    assert lower[TagEnd(lower).value - 1] == '>';
  }

  /** A complete `<meta` tag. */
  predicate IsTag(tag: string) {
    StartsWith(ToAsciiLower(tag), META) && TagEnd(ToAsciiLower(tag)) == Some(|tag|)
  }

  predicate NoMeta(text: string) {
    FirstOf(ToAsciiLower(text), META) == None
  }

  /** The tag that a markup starting with a terminated `<meta` starts with. */
  lemma CutTag(s: string)
    requires StartsWith(ToAsciiLower(s), META) && TagEnd(ToAsciiLower(s)).Some?
    ensures IsTag(s[..TagEnd(ToAsciiLower(s)).value])
  {
    var lower := ToAsciiLower(s);
    var n := TagEnd(lower).value;
    MetaTagIsLong(lower);
    ScanCut(lower, None, NUL);
    LowerSlice(s, 0, n);
    assert s[0..n] == s[..n] && lower[0..n] == lower[..n];
    assert lower[..n][..5] == lower[..5];
  }

  lemma {:induction false} TextBeforeFirst(s: string)
    requires FirstOf(s, META).Some?
    ensures FirstOf(s[..FirstOf(s, META).value], META) == None
  {
    var k := FirstOf(s, META).value;
    if k > 0 {
      TextBeforeFirst(s[1..]);
      var t := s[..k];
      assert t[1..] == s[1..][..k - 1];
      MetaHead(s);
      MetaHead(t);
    }
  }

  /** Where the first `<meta` stands, the markup splits into plain text and what starts there. */
  lemma FirstTag(html: string)
    requires FirstOf(ToAsciiLower(html), META).Some?
    ensures var start := FirstOf(ToAsciiLower(html), META).value;
            NoMeta(html[..start]) && StartsWith(ToAsciiLower(html[start..]), META)
  {
    var lower := ToAsciiLower(html);
    var start := FirstOf(lower, META).value;
    TextBeforeFirst(lower);
    LowerSlice(html, 0, start);
    LowerSlice(html, start, |html|);
    assert lower[0..start] == lower[..start] && html[0..start] == html[..start];
  }

  lemma LowerAppend(a: string, b: string)
    ensures ToAsciiLower(a + b) == ToAsciiLower(a) + ToAsciiLower(b)
  {
  }

  /** No `<meta` starts in the text and ends in the tag: it would need the tag's `<` inside it. */
  lemma {:induction false} FirstAfterText(text: string, tag: string)
    requires FirstOf(text, META) == None && StartsWith(tag, META)
    ensures FirstOf(text + tag, META) == Some(|text|)
  {
    var s := text + tag;
    if text == "" {
      assert s == tag;
    } else {
      assert s[1..] == text[1..] + tag;
      FirstAfterText(text[1..], tag);
      MetaHead(text);
      MetaHead(tag);
      MetaHead(s);
      assert s[|text|] == tag[0];
      assert forall i :: 0 <= i < |text| ==> s[i] == text[i];
    }
  }

  lemma StripUnfold(html: string, start: nat, n: nat, drops: string -> bool)
    requires FirstOf(ToAsciiLower(html), META) == Some(start) && TagEnd(ToAsciiLower(html[start..])) == Some(n)
    ensures StripWith(html, drops)
            == html[..start] + Kept(html[start..][..n], drops) + StripWith(html[start..][n..], drops)
  {
  }

  lemma TagAfterText(t: string, tail: string)
    requires NoMeta(t) && StartsWith(ToAsciiLower(tail), META)
    ensures FirstOf(ToAsciiLower(t + tail), META) == Some(|t|)
  {
    LowerAppend(t, tail);
    FirstAfterText(ToAsciiLower(t), ToAsciiLower(tail));
  }

  lemma TagBeforeRest(tag: string, rest: string)
    requires IsTag(tag)
    ensures StartsWith(ToAsciiLower(tag + rest), META) && TagEnd(ToAsciiLower(tag + rest)) == Some(|tag|)
  {
    var lt, lr := ToAsciiLower(tag), ToAsciiLower(rest);
    LowerAppend(tag, rest);
    assert (lt + lr)[..5] == lt[..5];
    ScanPrefix(lt, lr, None, NUL);
  }

  /** One step of the strip, whatever stands around the tag. */
  lemma StripTagged(t: string, tag: string, rest: string, drops: string -> bool)
    requires NoMeta(t) && IsTag(tag)
    ensures StripWith(t + (tag + rest), drops) == t + Kept(tag, drops) + StripWith(rest, drops)
  {
    var tail := tag + rest;
    var html := t + tail;
    TagBeforeRest(tag, rest);
    TagAfterText(t, tail);
    assert html[..|t|] == t && html[|t|..] == tail;
    StripUnfold(html, |t|, |tag|, drops);
    assert tail[..|tag|] == tag && tail[|tag|..] == rest;
  }

  lemma StripUnterminated(t: string, o: string, drops: string -> bool)
    requires NoMeta(t) && StartsWith(ToAsciiLower(o), META) && TagEnd(ToAsciiLower(o)) == None
    ensures StripWith(t + o, drops) == t + o
  {
    LowerAppend(t, o);
    FirstAfterText(ToAsciiLower(t), ToAsciiLower(o));
    assert (t + o)[|t|..] == o;
  }

  /** Where the scan stops and the rest is kept. */
  predicate Stops(s: string) {
    var start := FirstOf(ToAsciiLower(s), META);
    start.None? || TagEnd(ToAsciiLower(s[start.value..])).None?
  }

  /** The text up to the first tag and the tag, if it stays, are `piece`; behind the tag is `rest`. */
  predicate Cuts(s: string, piece: string, rest: string, drops: string -> bool) {
    var start := FirstOf(ToAsciiLower(s), META);
    && start.Some?
    && var tag := s[start.value..];
       var end := TagEnd(ToAsciiLower(tag));
       end.Some? && piece == s[..start.value] + Kept(tag[..end.value], drops) && rest == tag[end.value..]
  }

  lemma StopLeaves(s: string, drops: string -> bool)
    requires Stops(s)
    ensures StripWith(s, drops) == s
  {
  }

  lemma CutLeaves(s: string, piece: string, rest: string, drops: string -> bool)
    requires Cuts(s, piece, rest, drops)
    ensures StripWith(s, drops) == piece + StripWith(rest, drops)
  {
    var start := FirstOf(ToAsciiLower(s), META).value;
    StripUnfold(s, start, TagEnd(ToAsciiLower(s[start..])).value, drops);
  }

  /** One turn of the loop on what lies from the cursor on: nothing where the scan stops, otherwise
      what goes out and how far the cursor moves. */
  method NextPiece(html: string, lower: string) returns (r: Option<(string, nat)>)
    requires lower == ToAsciiLower(html)
    ensures r.None? ==> Stops(html)
    ensures r.Some? ==> 0 < r.value.1 <= |html| && Cuts(html, r.value.0, html[r.value.1..], Drops)
  {
    var start := FirstOf(lower, META);
    if start.None? {
      return None;
    }
    FirstTag(html);
    FromHere(html, start.value);
    var tag := html[start.value..];
    var end := FindTagEnd(lower[start.value..]);
    if end.None? {
      return None;
    }
    var piece := PieceKept(tag, lower[start.value..], end.value);
    DropTwice(html, start.value, end.value);
    r := Some((html[..start.value] + piece, start.value + end.value));
  }

  /** `strip_charset_meta`: one pass with a cursor over the lowercased copy. */
  method StripCharsetMeta(html: string) returns (out: string)
    ensures out == Strip(html)
  {
    var lower := ToAsciiLower(html);
    out := "";
    var cursor := 0;
    ghost var left := Strip(html);
    while true
      invariant 0 <= cursor <= |html|
      invariant left == StripWith(html[cursor..], Drops) && out + left == Strip(html)
      decreases |html| - cursor
    {
      var piece, next := NextFrom(html, lower, cursor);
      if piece.None? {
        StopLeaves(html[cursor..], Drops);
        out := out + html[cursor..];
        return;
      }
      CutLeaves(html[cursor..], piece.value, html[next..], Drops);
      Moved(out, left, piece.value, StripWith(html[next..], Drops));
      out := out + piece.value;
      cursor, left := next, StripWith(html[next..], Drops);
    }
  }

  lemma Moved(out: string, was: string, piece: string, left: string)
    requires was == piece + left
    ensures out + was == (out + piece) + left
  {
  }

  /** What goes out next, and where the cursor then stands. */
  method NextFrom(html: string, lower: string, from: nat) returns (piece: Option<string>, cursor: nat)
    requires from <= |html| && lower == ToAsciiLower(html)
    ensures from <= cursor <= |html|
    ensures piece.None? ==> Stops(html[from..])
    ensures piece.Some? ==> from < cursor && Cuts(html[from..], piece.value, html[cursor..], Drops)
  {
    FromHere(html, from);
    var r := NextPiece(html[from..], lower[from..]);
    piece, cursor := None, from;
    if r.Some? {
      DropTwice(html, from, r.value.1);
      piece, cursor := Some(r.value.0), from + r.value.1;
    }
  }

  lemma FromHere(html: string, cursor: nat)
    requires cursor <= |html|
    ensures ToAsciiLower(html)[cursor..] == ToAsciiLower(html[cursor..])
  {
    LowerSlice(html, cursor, |html|);
  }

  /** The decision about the complete tag of `n` characters that `s` starts with. */
  method PieceKept(s: string, lower: string, n: nat) returns (piece: string)
    requires lower == ToAsciiLower(s) && StartsWith(lower, META) && TagEnd(lower) == Some(n)
    ensures piece == Kept(s[..n], Drops)
  {
    LowerSlice(s, 0, n);
    assert s[0..n] == s[..n] && lower[0..n] == lower[..n];
    MetaTagIsLong(lower);
    var isMeta := IsMetaName(lower);
    assert isMeta == IsMetaName(lower[..n]);
    piece := s[..n];
    if isMeta && MetaDeclaresCharset(lower[..n]) {
      piece := "";
    }
  }

  // ---- A document as text and tags -----------------------------------------------------------

  /** A document seen as its `<meta` tags: text up to a tag, the tag, and the rest; or text and a tag
      that never ends; or text alone. */
  datatype Doc =
    | Tail(text: string)
    | Unterminated(text: string, open_: string)
    | Tagged(text: string, tag: string, more: Doc)

  function Source(d: Doc): string {
    match d
    case Tail(t) => t
    case Unterminated(t, o) => t + o
    case Tagged(t, tag, more) => t + tag + Source(more)
  }

  predicate ValidDoc(d: Doc) {
    NoMeta(d.text)
    && match d
       case Tail(_) => true
       case Unterminated(_, o) => StartsWith(ToAsciiLower(o), META) && TagEnd(ToAsciiLower(o)) == None
       case Tagged(_, tag, more) => IsTag(tag) && ValidDoc(more)
  }

  /** What the source promises: the dropped tags gone, everything else as it was. */
  function Without(d: Doc, drops: string -> bool): string {
    match d
    case Tail(t) => t
    case Unterminated(t, o) => t + o
    case Tagged(t, tag, more) => t + Kept(tag, drops) + Without(more, drops)
  }

  /** For every way of seeing a document as text and tags, stripping removes exactly the declaring
      tags and keeps every other character in order. */
  lemma {:induction false} StripIsWithout(d: Doc, drops: string -> bool)
    requires ValidDoc(d)
    ensures StripWith(Source(d), drops) == Without(d, drops)
  {
    match d {
      case Tail(_) =>
      case Unterminated(t, o) =>
        StripUnterminated(t, o, drops);
      case Tagged(t, tag, more) =>
        StripTagged(t, tag, Source(more), drops);
        StripIsWithout(more, drops);
        Assoc(t, tag, Source(more));
    }
  }

  lemma TaggedDocument(html: string, t: string, o: string, n: nat, more: Doc)
    requires html == t + o && n <= |o|
    requires NoMeta(t) && IsTag(o[..n]) && ValidDoc(more) && Source(more) == o[n..]
    ensures ValidDoc(Tagged(t, o[..n], more)) && Source(Tagged(t, o[..n], more)) == html
  {
    assert o == o[..n] + o[n..];
    assert t + o[..n] + o[n..] == t + o;
  }

  /** The first tag of a document and what it leaves on either side. */
  lemma FirstCut(html: string) returns (t: string, o: string, end: Option<nat>)
    requires FirstOf(ToAsciiLower(html), META).Some?
    ensures html == t + o && NoMeta(t) && StartsWith(ToAsciiLower(o), META) && end == TagEnd(ToAsciiLower(o))
    ensures end.Some? ==> 0 < end.value <= |o| && IsTag(o[..end.value])
  {
    FirstTag(html);
    var start := FirstOf(ToAsciiLower(html), META).value;
    t, o := html[..start], html[start..];
    end := TagEnd(ToAsciiLower(o));
    if end.Some? {
      CutTag(o);
    }
  }

  /** Every document can be seen that way. */
  lemma {:induction false} EveryDocument(html: string) returns (d: Doc)
    ensures ValidDoc(d) && Source(d) == html
    decreases |html|
  {
    if FirstOf(ToAsciiLower(html), META).None? {
      d := Tail(html);
    } else {
      var t, o, end := FirstCut(html);
      if end.None? {
        d := Unterminated(t, o);
      } else {
        var more := EveryDocument(o[end.value..]);
        TaggedDocument(html, t, o, end.value, more);
        d := Tagged(t, o[..end.value], more);
      }
    }
  }

  /** Every forwarded document, malformed or not: the output is its text and tags in order, less
      exactly the complete `<meta` tags that declare a charset. */
  lemma StripRemovesOnlyCharsetTags(html: string) returns (d: Doc)
    ensures ValidDoc(d) && Source(d) == html
    ensures Strip(html) == Without(d, Drops)
  {
    d := EveryDocument(html);
    StripIsWithout(d, Drops);
  }
}
