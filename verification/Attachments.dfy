/** One attachment: how its untrusted name, type and Content-ID are cleaned, the header fields it is
    written with, and which attachments go out inline. */
module Attachments {
  import opened Wrappers
  import opened Text
  import opened HeaderFields
  import Rfc2231
  import Utf8

  type byte = Utf8.byte

  datatype MailAttachment = MailAttachment(
    filename: string, mime: string, contentId: Option<string>, isInline: bool, method_: Option<string>, data: seq<byte>)

  const MAX_FILENAME := 80

  // ---- Cleaning ------------------------------------------------------------------------------

  function Filter(s: string, keep: char -> bool): (r: string)
    ensures |r| <= |s|
    ensures forall i :: 0 <= i < |r| ==> keep(r[i]) && r[i] in s
  {
    if s == "" then ""
    else if keep(s[0]) then [s[0]] + Filter(s[1..], keep)
    else Filter(s[1..], keep)
  }

  /** A character that may stand inside a quoted parameter. */
  predicate IsQuotable(c: char) {
    c !in {'\r', '\n', '"', '\\'}
  }

  predicate AllQuotable(s: string) {
    forall i :: 0 <= i < |s| ==> IsQuotable(s[i])
  }

  function QuotedParam(value: string): (r: string)
    ensures AllQuotable(r)
  {
    Filter(value, IsQuotable)
  }

  predicate IsMimeChar(c: char) {
    IsAsciiAlphanumeric(c) || c in {'/', '+', '-', '.', '_'}
  }

  predicate AllMimeChars(s: string) {
    forall i :: 0 <= i < |s| ==> IsMimeChar(s[i])
  }

  function MimeToken(value: string): (r: string)
    ensures r != "" && AllMimeChars(r)
  {
    var cleaned := Filter(value, IsMimeChar);
    if cleaned == "" then "application/octet-stream" else cleaned
  }

  predicate IsParamChar(c: char) {
    IsAsciiAlphanumeric(c) || c in {'-', '.', '_', '+'}
  }

  function ParamToken(value: string): (r: Option<string>)
    ensures r.Some? ==> r.value != "" && AllMimeChars(r.value)
  {
    var cleaned := Filter(Trim(value), IsParamChar);
    if cleaned == "" then None else Some(cleaned)
  }

  function TrimStartMatches(s: string, c: char): string {
    if s != "" && s[0] == c then TrimStartMatches(s[1..], c) else s
  }

  function TrimEndMatches(s: string, c: char): string {
    if s != "" && s[|s| - 1] == c then TrimEndMatches(s[..|s| - 1], c) else s
  }

  predicate IsTokenChar(c: char) {
    !IsControl(c) && !IsWhitespace(c) && c != '<' && c != '>'
  }

  function ContentIdToken(value: string): (r: string)
    ensures forall i :: 0 <= i < |r| ==> IsTokenChar(r[i])
  {
    Filter(TrimEndMatches(TrimStartMatches(Trim(value), '<'), '>'), IsTokenChar)
  }

  predicate IsPrintableChar(c: char) {
    ' ' <= c <= '~'
  }

  predicate IsPrintableAscii(s: string) {
    forall i :: 0 <= i < |s| ==> IsPrintableChar(s[i])
  }

  function AsciiProjection(s: string): (r: string)
    ensures |r| == |s| && IsPrintableAscii(r)
    ensures AllQuotable(s) ==> AllQuotable(r)
    ensures IsPrintableAscii(s) ==> r == s
  {
    seq(|s|, i requires 0 <= i < |s| => if IsPrintableChar(s[i]) then s[i] else '_')
  }

  /** `rfind`. */
  function LastIndexOf(s: string, c: char): (r: Option<nat>)
    ensures r.Some? ==> r.value < |s| && s[r.value] == c && c !in s[r.value + 1..]
    ensures r.None? ==> c !in s
  {
    if s == "" then None
    else
      var n := |s| - 1;
      if s[n] == c then Some(n)
      else
        var r := LastIndexOf(s[..n], c);
        assert r.Some? ==> s[r.value + 1..] == s[..n][r.value + 1..] + [s[n]];
        r
  }

  /** The suffix a trimmed name keeps: from its last dot, if that is at most 16 characters. */
  function Extension(name: string): (r: string)
    ensures |r| <= 16 && EndsWith(name, r)
  {
    match LastIndexOf(name, '.')
    case Some(i) => if |name| - i <= 16 then name[i..] else ""
    case None => ""
  }

  function TruncateFilename(name: string, max: nat): string {
    if |name| <= max then name
    else
      var ext := Extension(name);
      var room := if max > |ext| then max - |ext| else 0;
      var keep := if room > 1 then room else 1;
      name[..keep] + ext
  }

  /** A trimmed name fits, still starts like the name it was and keeps the extension; a name within
      the cap is untouched, and no new character appears. */
  lemma TruncatedName(name: string, max: nat)
    requires max > 16
    ensures var r := TruncateFilename(name, max);
            && |r| <= max
            && (|name| <= max ==> r == name)
            && (|name| > max ==> |r| == max && EndsWith(r, Extension(name))
                                 && StartsWith(name, r[..max - |Extension(name)|]))
            && (AllQuotable(name) ==> AllQuotable(r))
  {
    var r := TruncateFilename(name, max);
    var ext := Extension(name);
    if |name| > max {
      assert r[..max - |ext|] == name[..max - |ext|];
      assert r[|r| - |ext|..] == ext;
      assert ext == name[|name| - |ext|..];
      forall i | 0 <= i < |r| ensures r[i] in name {
        if i >= max - |ext| {
          assert r[i] == ext[i - (max - |ext|)];
        }
      }
    }
  }

  predicate IsMessageType(mime: string) {
    StartsWith(ToAsciiLower(mime), "message/")
  }

  function CleanName(att: MailAttachment): (r: string)
    ensures r != "" && AllQuotable(r)
  {
    var cleaned := QuotedParam(att.filename);
    if IsBlank(cleaned) then "attachment" else cleaned
  }

  /** The name before trimming: never empty, and `.eml` for a part that was a message. */
  function NamedAs(att: MailAttachment): (r: string)
    ensures r != "" && AllQuotable(r)
  {
    var name := CleanName(att);
    if !IsMessageType(MimeToken(att.mime)) then name
    else if EndsWith(ToAsciiLower(name), ".eml") then name
    else WithEml(name)
  }

  function WithEml(name: string): (r: string)
    requires AllQuotable(name)
    ensures r != "" && AllQuotable(r)
  {
    if name == "attachment" then "forwarded.eml" else name + ".eml"
  }

  /** The filename a recipient is meant to see. */
  function NameOf(att: MailAttachment): string {
    TruncateFilename(NamedAs(att), MAX_FILENAME)
  }

  /** The type the part is sent under. Base64 is forbidden on the `message` types, so those are relabelled. */
  function TypeOf(att: MailAttachment): (r: string)
    ensures AllMimeChars(r)
  {
    var mime := MimeToken(att.mime);
    if IsMessageType(mime) then "application/octet-stream" else mime
  }

  function MethodOf(att: MailAttachment): (r: Option<string>)
    ensures r.Some? ==> AllMimeChars(r.value)
  {
    match att.method_
    case None => None
    case Some(m) => ParamToken(m)
  }

  function TokenOf(att: MailAttachment): Option<string> {
    match att.contentId
    case None => None
    case Some(cid) =>
      var token := ContentIdToken(cid);
      if token == "" then None else Some(token)
  }

  // ---- The header fields ---------------------------------------------------------------------

  /** What an attachment's part states about it, once everything untrusted has been cleaned. */
  datatype PartHead = PartHead(mime: string, name: string, method_: Option<string>, isInline: bool, token: Option<string>)

  function HeadOf(att: MailAttachment): PartHead {
    PartHead(TypeOf(att), NameOf(att), MethodOf(att), att.isInline, TokenOf(att))
  }

  predicate IsId(token: string) {
    token != "" && forall i :: 0 <= i < |token| ==> IsTokenChar(token[i])
  }

  predicate GoodHead(h: PartHead) {
    && AllMimeChars(h.mime)
    && AllQuotable(h.name) && 1 <= |h.name| <= MAX_FILENAME
    && (h.method_.Some? ==> AllMimeChars(h.method_.value))
    && (h.token.Some? ==> IsId(h.token.value))
  }

  /** Whatever an attachment calls itself, its head is clean. */
  lemma HeadIsGood(att: MailAttachment)
    ensures GoodHead(HeadOf(att))
  {
    TruncatedName(NamedAs(att), MAX_FILENAME);
  }

  function NameParam(name: string): seq<Param> {
    if IsPrintableAscii(name) then [Quoted("name", name)] else []
  }

  function CharsetParam(mime: string): seq<Param> {
    if StartsWith(mime, "text/") then [Quoted("charset", "utf-8")] else []
  }

  function MethodParam(m: Option<string>): seq<Param> {
    match m
    case Some(v) => [Bare("method", v)]
    case None => []
  }

  function TypeParams(h: PartHead): seq<Param> {
    NameParam(h.name) + CharsetParam(h.mime) + MethodParam(h.method_)
  }

  function TypeField(h: PartHead): Field {
    Field(CONTENT_TYPE, Render(h.mime, TypeParams(h)))
  }

  const BASE64_FIELD := Field(TRANSFER_ENCODING, "base64")

  function Disposition(isInline: bool): string {
    if isInline then "inline" else "attachment"
  }

  function DispositionParams(name: string): seq<Param> {
    if IsPrintableAscii(name) then [Quoted("filename", name)]
    else [Bare("filename*", Rfc2231.CHARSET + Rfc2231.Encode(name)), Quoted("filename", AsciiProjection(name))]
  }

  function DispositionField(h: PartHead): Field {
    Field(DISPOSITION, Render(Disposition(h.isInline), DispositionParams(h.name)))
  }

  function IdFields(token: Option<string>): seq<Field> {
    match token
    case Some(t) => [Field(CONTENT_ID, "<" + t + ">")]
    case None => []
  }

  function PartFields(h: PartHead): seq<Field> {
    [TypeField(h), BASE64_FIELD, DispositionField(h)] + IdFields(h.token)
  }

  lemma QuotableIsSafe(s: string)
    requires AllQuotable(s)
    ensures '"' !in s && '\\' !in s && NoLineBreak(s)
  {
  }

  lemma MimeCharsArePlain(s: string)
    requires AllMimeChars(s)
    ensures Plain(s) && NoLineBreak(s)
  {
  }

  /** A parameter that is safe to write and to read back. */
  predicate GoodParam(p: Param) {
    SafeParam(p) && NoLineBreak(p.attr) && NoLineBreak(p.value)
  }

  predicate AllGood(ps: seq<Param>) {
    forall i :: 0 <= i < |ps| ==> GoodParam(ps[i])
  }

  lemma AllGoodIsSafe(ps: seq<Param>)
    requires AllGood(ps)
    ensures AllSafe(ps)
  {
  }

  lemma ConcatNoBreak(a: string, b: string)
    requires NoLineBreak(a) && NoLineBreak(b)
    ensures NoLineBreak(a + b)
  {
  }

  lemma {:induction false} ParamsHaveNoBreak(ps: seq<Param>)
    requires AllGood(ps)
    ensures NoLineBreak(RenderParams(ps))
  {
    if ps != [] {
      ParamsHaveNoBreak(ps[1..]);
      assert NoLineBreak(RenderParam(ps[0]));
      ConcatNoBreak(RenderParam(ps[0]), RenderParams(ps[1..]));
    }
  }

  lemma RenderedHasNoBreak(main: string, ps: seq<Param>)
    requires NoLineBreak(main) && AllGood(ps)
    ensures NoLineBreak(Render(main, ps))
  {
    ParamsHaveNoBreak(ps);
    ConcatNoBreak(main, RenderParams(ps));
  }

  lemma NameParamIsGood(name: string)
    requires AllQuotable(name)
    ensures AllGood(NameParam(name))
  {
    QuotableIsSafe(name);
  }

  lemma MethodParamIsGood(m: Option<string>)
    requires m.Some? ==> AllMimeChars(m.value)
    ensures AllGood(MethodParam(m))
  {
    if m.Some? {
      MimeCharsArePlain(m.value);
    }
  }

  lemma ConcatGood(a: seq<Param>, b: seq<Param>)
    requires AllGood(a) && AllGood(b)
    ensures AllGood(a + b)
  {
  }

  lemma CharsetParamIsGood(mime: string)
    ensures AllGood(CharsetParam(mime))
  {
  }

  lemma TypeParamsAreGood(h: PartHead)
    requires GoodHead(h)
    ensures AllGood(TypeParams(h)) && Plain(h.mime) && NoLineBreak(h.mime)
  {
    NameParamIsGood(h.name);
    MethodParamIsGood(h.method_);
    CharsetParamIsGood(h.mime);
    ConcatGood(NameParam(h.name), CharsetParam(h.mime));
    ConcatGood(NameParam(h.name) + CharsetParam(h.mime), MethodParam(h.method_));
    MimeCharsArePlain(h.mime);
  }

  lemma ExtendedParamIsGood(name: string)
    ensures GoodParam(Bare("filename*", Rfc2231.CHARSET + Rfc2231.Encode(name)))
  {
    Rfc2231.EncodedIsInert(Utf8.Encode(name));
    CharsetIsInert(Rfc2231.Encode(name));
  }

  lemma CharsetIsInert(encoded: string)
    requires Plain(encoded) && NoLineBreak(encoded)
    ensures GoodParam(Bare("filename*", Rfc2231.CHARSET + encoded))
  {
    assert Plain(Rfc2231.CHARSET) && NoLineBreak(Rfc2231.CHARSET);
    ConcatNoBreak(Rfc2231.CHARSET, encoded);
  }

  lemma FilenameParamIsGood(name: string)
    requires AllQuotable(name)
    ensures GoodParam(Quoted("filename", name))
  {
    QuotableIsSafe(name);
  }

  lemma DispositionParamsAreGood(name: string)
    requires AllQuotable(name)
    ensures AllGood(DispositionParams(name))
  {
    if IsPrintableAscii(name) {
      FilenameParamIsGood(name);
    } else {
      ExtendedParamIsGood(name);
      FilenameParamIsGood(AsciiProjection(name));
    }
  }

  lemma RenderedField(name: string, main: string, ps: seq<Param>)
    requires GoodName(name) && NoLineBreak(main) && AllGood(ps)
    ensures WellFormed(Field(name, Render(main, ps)))
  {
    RenderedHasNoBreak(main, ps);
  }

  lemma DispositionFieldIsWellFormed(h: PartHead)
    requires GoodHead(h)
    ensures WellFormed(DispositionField(h))
  {
    DispositionParamsAreGood(h.name);
    DispositionNameIsGood();
    RenderedField(DISPOSITION, Disposition(h.isInline), DispositionParams(h.name));
  }

  lemma TypeFieldIsWellFormed(h: PartHead)
    requires GoodHead(h)
    ensures WellFormed(TypeField(h))
  {
    TypeParamsAreGood(h);
    TypeNamesAreGood();
    RenderedField(CONTENT_TYPE, h.mime, TypeParams(h));
  }

  lemma IdFieldsAreWellFormed(token: Option<string>)
    requires token.Some? ==> IsId(token.value)
    ensures AllWellFormed(IdFields(token))
  {
    if token.Some? {
      assert NoLineBreak(token.value);
      TypeNamesAreGood();
    }
  }

  /** A clean head is written as exactly the header fields intended. */
  lemma PartFieldsAreWellFormed(h: PartHead)
    requires GoodHead(h)
    ensures AllWellFormed(PartFields(h))
  {
    TypeFieldIsWellFormed(h);
    DispositionFieldIsWellFormed(h);
    IdFieldsAreWellFormed(h.token);
    Base64FieldIsWellFormed();
    AllOfThem(PartFields(h), TypeField(h), BASE64_FIELD, DispositionField(h), IdFields(h.token));
  }

  lemma Base64FieldIsWellFormed()
    ensures WellFormed(BASE64_FIELD)
  {
    EncodingNameIsGood();
  }

  lemma AllOfThem(all: seq<Field>, a: Field, b: Field, c: Field, rest: seq<Field>)
    requires all == [a, b, c] + rest
    requires WellFormed(a) && WellFormed(b) && WellFormed(c) && AllWellFormed(rest)
    ensures AllWellFormed(all)
  {
  }

  // ---- Inline --------------------------------------------------------------------------------

  /** The attribute the markdown renderer writes for an inline image, closing quote included. */
  function Reference(token: string): string {
    "src=\"cid:" + token + "\""
  }

  predicate IsReferenced(att: MailAttachment, html: Option<string>) {
    TokenOf(att).Some? && html.Some? && Contains(html.value, Reference(TokenOf(att).value))
  }

  function Marked(atts: seq<MailAttachment>, html: Option<string>): (r: seq<MailAttachment>)
    ensures |r| == |atts|
    ensures forall i :: 0 <= i < |r| ==> r[i] == atts[i].(isInline := IsReferenced(atts[i], html))
  {
    seq(|atts|, i requires 0 <= i < |atts| => atts[i].(isInline := IsReferenced(atts[i], html)))
  }

  /** `mark_inline`: the flags set in place, nothing else touched. */
  method MarkInline(attachments: array<MailAttachment>, html: Option<string>)
    modifies attachments
    ensures attachments[..] == Marked(old(attachments[..]), html)
  {
    for i := 0 to attachments.Length
      invariant forall j :: 0 <= j < i ==>
                  attachments[j] == old(attachments[j]).(isInline := IsReferenced(old(attachments[j]), html))
      invariant forall j :: i <= j < attachments.Length ==> attachments[j] == old(attachments[j])
    {
      var att := attachments[i];
      var referenced := false;
      if att.contentId.Some? && html.Some? {
        var token := ContentIdToken(att.contentId.value);
        referenced := token != "" && Contains(html.value, Reference(token));
      }
      attachments[i] := att.(isInline := referenced);
    }
  }

  // ---- The length of the disposition line ----------------------------------------------------

  function DispositionLine(h: PartHead): string {
    Line(DispositionField(h))
  }

  lemma ExtendedLength(name: string)
    ensures |RenderParam(Bare("filename*", Rfc2231.CHARSET + Rfc2231.Encode(name)))| == 19 + Rfc2231.EncodedLength(name)
  {
    Rfc2231.LengthIs(name);
  }

  lemma QuotedNameLength(name: string)
    ensures |RenderParam(Quoted("filename", name))| == 13 + |name|
  {
  }

  lemma TwoParams(main: string, p: Param, q: Param)
    ensures |Render(main, [p, q])| == |main| + |RenderParam(p)| + |RenderParam(q)|
  {
    var ps := [p, q];
    assert ps[1..] == [q];
    assert ps[1..][1..] == [];
    assert RenderParams([q]) == RenderParam(q) + RenderParams([]);
  }

  /** The octets a non-ASCII name costs on its line: its encoded form and its ASCII projection. */
  lemma DispositionLength(h: PartHead)
    requires !IsPrintableAscii(h.name)
    ensures |DispositionLine(h)|
            == (if h.isInline then 59 else 63) + Rfc2231.EncodedLength(h.name) + |h.name|
  {
    var ps := DispositionParams(h.name);
    ExtendedLength(h.name);
    QuotedNameLength(AsciiProjection(h.name));
    TwoParams(Disposition(h.isInline), ps[0], ps[1]);
    assert |Disposition(h.isInline)| == if h.isInline then 6 else 10;
  }
}
