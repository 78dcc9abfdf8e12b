/** What cleaning does to an attachment that needs none, and that cleaning removes nothing else: the
    other half of the promise that whatever a file calls itself, its head is clean. */
module HonestFiles {
  import opened Wrappers
  import opened Text
  import opened Seqs
  import opened Attachments

  lemma {:induction false} FilterAll(s: string, keep: char -> bool)
    requires forall i :: 0 <= i < |s| ==> keep(s[i])
    ensures Filter(s, keep) == s
  {
    if s != "" {
      FilterAll(s[1..], keep);
      Uncons(s);
    }
  }

  lemma {:induction false} FilterAppend(a: string, b: string, keep: char -> bool)
    ensures Filter(a + b, keep) == Filter(a, keep) + Filter(b, keep)
  {
    if a == "" {
      NilLeft(a, b);
    } else {
      TailOf(a, b);
      FilterAppend(a[1..], b, keep);
      if keep(a[0]) {
        Assoc([a[0]], Filter(a[1..], keep), Filter(b, keep));
      }
    }
  }

  /** Cleaning drops the one character and leaves what stands on either side of it. */
  lemma FilterDrops(a: string, c: char, b: string, keep: char -> bool)
    ensures Filter(a + ([c] + b), keep) == Filter(a, keep) + (if keep(c) then [c] else []) + Filter(b, keep)
  {
    FilterAppend(a, [c] + b, keep);
    FilterAppend([c], b, keep);
    assert [c][1..] == "";
    Assoc(Filter(a, keep), if keep(c) then [c] else [], Filter(b, keep));
  }

  predicate Solid(s: string) {
    forall i :: 0 <= i < |s| ==> !IsWhitespace(s[i])
  }

  lemma SolidIsTrimmed(s: string)
    requires Solid(s)
    ensures Trim(s) == s
  {
  }

  lemma JoinSolid(a: string, b: string)
    requires Solid(a) && Solid(b)
    ensures Solid(a + b)
  {
  }

  lemma BracketsAreSolid()
    ensures Solid("<") && Solid(">")
  {
  }

  lemma IdIsSolid(id: string)
    requires IsId(id)
    ensures Solid(id) && id[0] != '<' && id[|id| - 1] != '>'
  {
  }

  /** An attachment whose name, type, method and Content-ID hold nothing that has to be cleaned. */
  predicate Honest(att: MailAttachment) {
    && AllQuotable(att.filename) && !IsBlank(att.filename) && |att.filename| <= MAX_FILENAME
    && AllMimeChars(att.mime) && att.mime != "" && !IsMessageType(att.mime)
    && (att.method_.Some? ==> att.method_.value != "" && forall i :: 0 <= i < |att.method_.value| ==> IsParamChar(att.method_.value[i]))
    && (att.contentId.Some? ==> IsId(att.contentId.value))
  }

  lemma ParamIsSolid(m: string)
    requires forall i :: 0 <= i < |m| ==> IsParamChar(m[i])
    ensures Solid(m)
  {
  }

  lemma HonestMethod(m: string)
    requires m != "" && forall i :: 0 <= i < |m| ==> IsParamChar(m[i])
    ensures ParamToken(m) == Some(m)
  {
    ParamIsSolid(m);
    SolidIsTrimmed(m);
    FilterAll(m, IsParamChar);
  }

  lemma HonestToken(id: string)
    requires IsId(id)
    ensures ContentIdToken(id) == id
  {
    IdIsSolid(id);
    TokenOfTrimmed(id, id);
  }

  /** A trimmed value from which the brackets come off to leave a clean token. */
  lemma TokenOfTrimmed(value: string, id: string)
    requires Solid(value) && IsId(id)
    requires TrimEndMatches(TrimStartMatches(value, '<'), '>') == id
    ensures ContentIdToken(value) == id
  {
    SolidIsTrimmed(value);
    FilterAll(id, IsTokenChar);
  }

  lemma HonestName(att: MailAttachment)
    requires AllQuotable(att.filename) && !IsBlank(att.filename) && |att.filename| <= MAX_FILENAME
    requires !IsMessageType(MimeToken(att.mime))
    ensures NameOf(att) == att.filename
  {
    FilterAll(att.filename, IsQuotable);
  }

  lemma HonestType(mime: string)
    requires AllMimeChars(mime) && mime != ""
    ensures MimeToken(mime) == mime
  {
    FilterAll(mime, IsMimeChar);
  }

  /** Such an attachment goes out under exactly the name, type, method and Content-ID it has. */
  lemma HonestHead(att: MailAttachment)
    requires Honest(att)
    ensures HeadOf(att) == PartHead(att.mime, att.filename, att.method_, att.isInline, att.contentId)
  {
    HonestType(att.mime);
    HonestName(att);
    HonestMethodOf(att);
    HonestTokenOf(att);
  }

  lemma HonestMethodOf(att: MailAttachment)
    requires Honest(att)
    ensures MethodOf(att) == att.method_
  {
    if att.method_.Some? {
      HonestMethod(att.method_.value);
    }
  }

  lemma HonestTokenOf(att: MailAttachment)
    requires Honest(att)
    ensures TokenOf(att) == att.contentId
  {
    if att.contentId.Some? {
      HonestToken(att.contentId.value);
    }
  }

  lemma OpeningTrimmed(rest: string)
    requires rest != "" && rest[0] != '<'
    ensures TrimStartMatches("<" + rest, '<') == rest
  {
    assert ("<" + rest)[1..] == rest;
  }

  lemma ClosingTrimmed(id: string)
    requires id != "" && id[|id| - 1] != '>'
    ensures TrimEndMatches(id + ">", '>') == id
  {
    assert (id + ">")[..|id|] == id;
  }

  /** A Content-ID in its angle brackets is taken without them. */
  lemma BracketedToken(id: string)
    requires IsId(id)
    ensures ContentIdToken("<" + (id + ">")) == id
  {
    IdIsSolid(id);
    BracketsAreSolid();
    JoinSolid(id, ">");
    JoinSolid("<", id + ">");
    assert (id + ">")[0] == id[0];
    OpeningTrimmed(id + ">");
    ClosingTrimmed(id);
    TokenOfTrimmed("<" + (id + ">"), id);
  }

  /** A file with no name left to clean is called `attachment`, and one with no type the universal one. */
  lemma NamelessFile(att: MailAttachment)
    requires IsBlank(QuotedParam(att.filename)) && Filter(att.mime, IsMimeChar) == ""
    ensures HeadOf(att).name == "attachment" && HeadOf(att).mime == "application/octet-stream"
  {
    assert "application/octet-stream"[0] != 'm';
    assert !IsMessageType("application/octet-stream") by {
      assert ToAsciiLower("application/octet-stream")[0] == 'a';
    }
  }

  /** What cleaning takes out: of a name, line breaks, quotes and backslashes; of a type, all but letters,
      digits and `/+-._`; of a Content-ID, controls, white space and angle brackets. */
  lemma CleaningTakes(c: char)
    ensures !IsQuotable(c) <==> c == '\r' || c == '\n' || c == '"' || c == '\\'
    ensures IsMimeChar(c) <==> 'a' <= c <= 'z' || 'A' <= c <= 'Z' || '0' <= c <= '9'
                               || c == '/' || c == '+' || c == '-' || c == '.' || c == '_'
    ensures !IsTokenChar(c) <==> IsControl(c) || IsWhitespace(c) || c == '<' || c == '>'
  {
  }

  /** A message part keeps its name with `.eml` on it, and is sent under a type base64 is allowed on. */
  lemma MessagePart(att: MailAttachment)
    requires IsMessageType(MimeToken(att.mime))
    ensures HeadOf(att).mime == "application/octet-stream"
    ensures EndsWith(ToAsciiLower(NamedAs(att)), ".eml")
    ensures StartsWith(NamedAs(att), CleanName(att)) || (CleanName(att) == "attachment" && NamedAs(att) == "forwarded.eml")
  {
    var name := CleanName(att);
    LowerEml(name);
    assert StartsWith(name + ".eml", name);
  }

  lemma LowerEml(name: string)
    ensures EndsWith(ToAsciiLower(name + ".eml"), ".eml") && EndsWith(ToAsciiLower("forwarded.eml"), ".eml")
  {
    var l := ToAsciiLower(name + ".eml");
    assert l[|l| - 4..] == ".eml";
    var f := ToAsciiLower("forwarded.eml");
    assert f[|f| - 4..] == ".eml";
  }
}
