/** What a recipient finds in a message that was accepted, in the standard's own terms: which value
    stands under which header, how often, and what the content is. */
module WhatArrives {
  import opened Wrappers
  import opened Text
  import opened Seqs
  import opened HeaderFields
  import opened Attachments
  import opened MimeReader
  import opened MimeTree
  import opened Reply
  import opened ReplyBuilder
  import opened Forward
  import opened SendAction
  import opened SendCompose
  import Boundary
  import Html
  import SendAudience
  import Utf8

  // ---- Looking under a name ------------------------------------------------------------------

  /** Everything that stands under a name, in order. */
  function Under(fields: seq<Field>, name: string): seq<string> {
    if fields == [] then []
    else (if fields[0].name == name then [fields[0].value] else []) + Under(fields[1..], name)
  }

  lemma {:induction false} UnderJoin(a: seq<Field>, b: seq<Field>, name: string)
    ensures Under(a + b, name) == Under(a, name) + Under(b, name)
  {
    if a == [] {
      NilLeft(a, b);
    } else {
      TailOf(a, b);
      UnderJoin(a[1..], b, name);
    }
  }

  /** What a reader looks up is the first of them. */
  lemma {:induction false} LookupIsFirst(fields: seq<Field>, name: string)
    ensures Lookup(fields, name) == if Under(fields, name) == [] then None else Some(Under(fields, name)[0])
  {
    if fields != [] {
      LookupIsFirst(fields[1..], name);
    }
  }

  function ListOf(value: Option<string>): seq<string> {
    if value.Some? then [value.value] else []
  }

  lemma UnderOne(f: Field, name: string)
    ensures Under([f], name) == if f.name == name then [f.value] else []
  {
    assert [f][1..] == [];
  }

  lemma UnderOptional(label_: string, value: Option<string>, name: string)
    ensures Under(Optional(label_, value), name) == if label_ == name then ListOf(value) else []
  {
    if value.Some? {
      UnderOne(Field(label_, value.value), name);
    }
  }

  lemma UnderFour(a: seq<Field>, b: seq<Field>, c: seq<Field>, d: seq<Field>, name: string)
    ensures Under(a + b + c + d, name) == Under(a, name) + Under(b, name) + Under(c, name) + Under(d, name)
  {
    UnderJoin(a, b, name);
    UnderJoin(a + b, c, name);
    UnderJoin(a + b + c, d, name);
  }

  // ---- The headers of a reply ----------------------------------------------------------------

  /** The values under a name in `AddressFields`, told apart by the name alone. */
  function Among(name: string, to: string, cc: Option<string>, bcc: Option<string>, subject: string): seq<string> {
    (if "To" == name then [to] else []) + (if "Cc" == name then ListOf(cc) else [])
    + (if "Bcc" == name then ListOf(bcc) else []) + (if "Subject" == name then [subject] else [])
  }

  lemma UnderAddresses(to: string, cc: Option<string>, bcc: Option<string>, subject: string, name: string)
    ensures Under([Field(TO, to)] + Optional(CC, Stated(cc)) + Optional(BCC, Stated(bcc)) + [Field(SUBJECT, subject)], name)
            == Among(name, to, Stated(cc), Stated(bcc), subject)
  {
    UnderFour([Field(TO, to)], Optional(CC, Stated(cc)), Optional(BCC, Stated(bcc)), [Field(SUBJECT, subject)], name);
    UnderOne(Field(TO, to), name);
    UnderOptional(CC, Stated(cc), name);
    UnderOptional(BCC, Stated(bcc), name);
    UnderOne(Field(SUBJECT, subject), name);
  }

  lemma NamesDiffer()
    ensures "To" != "Cc" && |"To"| == |"Cc"| == 2 && |"Bcc"| == 3 && |"Subject"| == 7 && |"In-Reply-To"| == 11
    ensures |"References"| == 10 && |"Content-Type"| == |"MIME-Version"| == 12 && "Content-Type" != "MIME-Version"
  {
    assert "To"[0] != "Cc"[0] && "Content-Type"[0] != "MIME-Version"[0];
  }

  lemma AddressValues(to: string, cc: Option<string>, bcc: Option<string>, subject: string)
    ensures Among("To", to, cc, bcc, subject) == [to]
    ensures Among("Cc", to, cc, bcc, subject) == ListOf(cc)
    ensures Among("Bcc", to, cc, bcc, subject) == ListOf(bcc)
    ensures Among("Subject", to, cc, bcc, subject) == [subject]
    ensures Among("In-Reply-To", to, cc, bcc, subject) == []
    ensures Among("References", to, cc, bcc, subject) == []
    ensures Among("MIME-Version", to, cc, bcc, subject) == []
  {
    NamesDiffer();
  }

  lemma UnderTypes(ct: string, name: string)
    requires |name| != 12
    ensures Under(TypeFields(ct), name) == []
    ensures Under(TypeFields(ct), "MIME-Version") == ["1.0"]
  {
    NamesDiffer();
    UnderTwo(Field("Content-Type", ct), Field("MIME-Version", "1.0"), name);
    UnderTwo(Field("Content-Type", ct), Field("MIME-Version", "1.0"), "MIME-Version");
  }

  lemma UnderTwo(a: Field, b: Field, name: string)
    ensures Under([a, b], name) == (if a.name == name then [a.value] else []) + (if b.name == name then [b.value] else [])
  {
    UnderOne(b, name);
    assert [a, b][1..] == [b];
  }

  /** The threading headers and the types, behind the addresses. */
  lemma UnderMessage(p: ReplyParts, ct: string, name: string)
    ensures Under(MessageFields(p, ct), name)
            == Among(name, p.to, Stated(p.cc), Stated(p.bcc), p.subject)
               + (if "In-Reply-To" == name then ListOf(NonEmpty(p.inReplyTo)) else [])
               + (if "References" == name then ListOf(NonEmpty(p.references)) else []) + Under(TypeFields(ct), name)
  {
    var four := [Field(TO, p.to)] + Optional(CC, Stated(p.cc)) + Optional(BCC, Stated(p.bcc)) + [Field(SUBJECT, p.subject)];
    var b, c := Optional(IN_REPLY_TO, NonEmpty(p.inReplyTo)), Optional(REFERENCES, NonEmpty(p.references));
    UnderAddresses(p.to, p.cc, p.bcc, p.subject, name);
    UnderOptional(IN_REPLY_TO, NonEmpty(p.inReplyTo), name);
    UnderOptional(REFERENCES, NonEmpty(p.references), name);
    assert MessageFields(p, ct) == four + b + c + TypeFields(ct);
    UnderFour(four, b, c, TypeFields(ct), name);
  }

  /** A list that is there and not blank, once; otherwise nothing. */
  function Copies(list: Option<string>): seq<string> {
    if list.Some? && !IsBlank(list.value) then [list.value] else []
  }

  /** A value that is there and not empty, once; otherwise nothing. */
  function Threads(id: Option<string>): seq<string> {
    if id.Some? && id.value != "" then [id.value] else []
  }

  predicate Headers(fields: seq<Field>, to: string, cc: Option<string>, bcc: Option<string>, subject: string,
                    inReplyTo: Option<string>, references: Option<string>)
  {
    && Under(fields, "To") == [to] && Under(fields, "Cc") == Copies(cc) && Under(fields, "Bcc") == Copies(bcc)
    && Under(fields, "Subject") == [subject]
    && Under(fields, "In-Reply-To") == Threads(inReplyTo) && Under(fields, "References") == Threads(references)
    && Under(fields, "MIME-Version") == ["1.0"]
  }

  lemma MessageHeaders(p: ReplyParts, ct: string)
    ensures Headers(MessageFields(p, ct), p.to, p.cc, p.bcc, p.subject, p.inReplyTo, p.references)
  {
    NamesDiffer();
    AddressValues(p.to, Stated(p.cc), Stated(p.bcc), p.subject);
    forall name | name in {"To", "Cc", "Bcc", "Subject", "In-Reply-To", "References"} ensures Under(TypeFields(ct), name) == [] {
      UnderTypes(ct, name);
    }
    UnderTypes(ct, "To");
    UnderMessage(p, ct, "To");
    UnderMessage(p, ct, "Cc");
    UnderMessage(p, ct, "Bcc");
    UnderMessage(p, ct, "Subject");
    UnderMessage(p, ct, "In-Reply-To");
    UnderMessage(p, ct, "References");
    UnderMessage(p, ct, "MIME-Version");
  }

  /** In every accepted reply, read back from its bytes, the recipient stands under `To`, the copies under
      `Cc`, the blind copies under `Bcc`, the subject and the threading ids under theirs, each once if it
      is there and not at all if it is not. */
  lemma ReplyHeaders(p: ReplyParts, hash: Boundary.Hasher)
    requires Accepted(p)
    ensures Build(p, hash).Ok? && ReadMessage(Build(p, hash).value).Some?
    ensures Headers(ReadMessage(Build(p, hash).value).value.fields, p.to, p.cc, p.bcc, p.subject, p.inReplyTo, p.references)
  {
    ReplyReadsBack(p, hash);
    MessageHeaders(p, ContentNode(p, hash).ct);
  }

  // ---- The headers of a forward --------------------------------------------------------------

  lemma ForwardMessageHeaders(p: ForwardParts, ct: string)
    ensures Headers(ForwardFields(p, ct), p.to, p.cc, p.bcc, p.subject, None, None)
  {
    NamesDiffer();
    AddressValues(p.to, Stated(p.cc), Stated(p.bcc), p.subject);
    forall name | name in {"To", "Cc", "Bcc", "Subject", "In-Reply-To", "References"} ensures Under(TypeFields(ct), name) == [] {
      UnderTypes(ct, name);
    }
    UnderTypes(ct, "To");
    UnderForward(p, ct, "To");
    UnderForward(p, ct, "Cc");
    UnderForward(p, ct, "Bcc");
    UnderForward(p, ct, "Subject");
    UnderForward(p, ct, "In-Reply-To");
    UnderForward(p, ct, "References");
    UnderForward(p, ct, "MIME-Version");
  }

  lemma UnderForward(p: ForwardParts, ct: string, name: string)
    ensures Under(ForwardFields(p, ct), name)
            == Among(name, p.to, Stated(p.cc), Stated(p.bcc), p.subject) + Under(TypeFields(ct), name)
  {
    UnderAddresses(p.to, p.cc, p.bcc, p.subject, name);
    UnderJoin(ForwardAddresses(p), TypeFields(ct), name);
  }

  /** The same for every accepted forward, which has no threading ids. */
  lemma ForwardHeaders(p: ForwardParts, hash: Boundary.Hasher)
    requires ForwardAccepted(p)
    ensures BuildOf(p, hash).Ok? && ReadMessage(BuildOf(p, hash).value).Some?
    ensures Headers(ReadMessage(BuildOf(p, hash).value).value.fields, p.to, p.cc, p.bcc, p.subject, None, None)
  {
    ForwardReadsBack(p, hash);
    ForwardMessageHeaders(p, ForwardNode(p, hash).ct);
  }

  // ---- The headers of a sent run -------------------------------------------------------------

  /** What a run sends as a reply or new message carries the recipients it chose, each list under its own
      name, and the parent's ids when it answers a parent whose headers were read. */
  lemma SentReplyHeaders(q: Request, w: World, html: Option<string>, pixel: Option<string>, files: seq<MailAttachment>,
                         hash: Boundary.Hasher)
    requires Action(q, w).answer.Sent? && q.forwardOf.None?
    ensures ChosenFor(q, w).Ok?
    ensures var c := ChosenFor(q, w).value;
            var built := Build(PartsOfReply(q, w, c, html, pixel, files), hash);
            var threaded := q.replyTo.Some? && w.headers.Some?;
            && built.Ok? && ReadMessage(built.value).Some?
            && Headers(ReadMessage(built.value).value.fields, c.to, Some(c.cc), Some(c.bcc), w.subject,
                       if threaded then w.inReplyTo else None, if threaded then w.references else None)
  {
    SentPath(q, w);
    SentReplyFits(q, w);
    var c := ChosenFor(q, w).value;
    ReplyFitsIsAccepted(q, w, c, html, pixel, files);
    var p := PartsOfReply(q, w, c, html, pixel, files);
    ReplyHeaders(p, hash);
    assert Copies(p.cc) == Copies(Some(c.cc)) && Copies(p.bcc) == Copies(Some(c.bcc));
  }

  lemma SentForwardHeaders(q: Request, w: World, html: Option<string>, pixel: Option<string>, original: ForwardedOriginal,
                           hash: Boundary.Hasher)
    requires Action(q, w).answer.Sent? && q.forwardOf.Some?
    ensures var built := BuildOf(PartsOfForward(q, w, html, pixel, original), hash);
            && built.Ok? && ReadMessage(built.value).Some?
            && Headers(ReadMessage(built.value).value.fields, q.to.GetOr(""), q.cc, q.bcc, w.subject, None, None)
  {
    SentPath(q, w);
    var kinds, staged :| ForwardRun(q, w, kinds, staged).answer.Sent?;
    SentForwardFits(q, w, kinds, staged);
    ForwardFitsIsAccepted(q, w, html, pixel, original);
    ForwardHeaders(PartsOfForward(q, w, html, pixel, original), hash);
    SameCopies(q.cc);
    SameCopies(q.bcc);
  }

  lemma SameCopies(list: Option<string>)
    ensures Copies(StatedCopies(list)) == Copies(list)
  {
  }

  /** The mail one member of a group gets: to that member alone. */
  lemma MemberHeaders(member: string, subject: string, body: string, html: Option<string>, pixel: Option<string>,
                      files: seq<MailAttachment>, hash: Boundary.Hasher)
    requires NoLineBreak(member) && NoLineBreak(subject) && !IsBlank(member)
    ensures var built := Build(PartsOfMember(member, subject, body, html, pixel, files), hash);
            && built.Ok? && ReadMessage(built.value).Some?
            && Headers(ReadMessage(built.value).value.fields, member, None, None, subject, None, None)
  {
    var p := PartsOfMember(member, subject, body, html, pixel, files);
    var g := Guarded(p);
    assert NoLineBreak("");
    NoFault(g);
    ReplyHeaders(p, hash);
  }

  // ---- The files -----------------------------------------------------------------------------

  /** The files with a flag, in tray order. */
  function Flagged(atts: seq<MailAttachment>, inlined: bool): seq<MailAttachment> {
    if atts == [] then []
    else Flagged(atts[..|atts| - 1], inlined)
         + if atts[|atts| - 1].isInline == inlined then [atts[|atts| - 1]] else []
  }

  predicate Increasing(at: seq<nat>) {
    forall i, j :: 0 <= i < j < |at| ==> at[i] < at[j]
  }

  /** They are exactly the positions that carry the flag, each once and in order. */
  lemma {:induction false} FlaggedPicks(atts: seq<MailAttachment>, inlined: bool) returns (at: seq<nat>)
    ensures Increasing(at) && |at| == |Flagged(atts, inlined)|
    ensures forall i :: 0 <= i < |at| ==> at[i] < |atts| && Flagged(atts, inlined)[i] == atts[at[i]]
    ensures forall j: nat :: j < |atts| ==> (j in at <==> atts[j].isInline == inlined)
  {
    at := [];
    if atts != [] {
      var n := |atts| - 1;
      at := FlaggedPicks(atts[..n], inlined);
      if atts[n].isInline == inlined {
        at := at + [n];
      }
    }
  }

  lemma PartsJoin(a: seq<MailAttachment>, b: seq<MailAttachment>)
    ensures PartsOf(a + b) == PartsOf(a) + PartsOf(b)
  {
  }

  lemma {:induction false} SelectedAreFlagged(atts: seq<MailAttachment>, inlined: bool)
    ensures Pick(PartsOf(atts), inlined) == PartsOf(Flagged(atts, inlined))
  {
    if atts != [] {
      var n := |atts| - 1;
      SelectedAreFlagged(atts[..n], inlined);
      LastPart(atts);
      PartsJoin(Flagged(atts[..n], inlined), [atts[n]]);
      NilRight(Flagged(atts[..n], inlined));
    }
  }

  lemma LastPart(atts: seq<MailAttachment>)
    requires atts != []
    ensures var n := |atts| - 1;
            PartsOf(atts)[..n] == PartsOf(atts[..n]) && PartsOf(atts)[n] == PartOf(atts[n]) && PartsOf([atts[n]]) == [PartOf(atts[n])]
  {
  }

  /** How a file is found: its cleaned type, name, method and Content-ID, `inline` or `attachment` as its
      flag says, and its bytes. */
  function Found(att: MailAttachment): Entity {
    var h := HeadOf(att);
    Leaf(h.mime, if StartsWith(h.mime, "text/") then Some("utf-8") else None, h.method_,
         Some(if att.isInline then "inline" else "attachment"), Some(h.name), h.token, Some(att.data))
  }

  function AllFound(atts: seq<MailAttachment>): (r: seq<Entity>)
    ensures |r| == |atts| && forall i :: 0 <= i < |r| ==> r[i] == Found(atts[i])
  {
    seq(|atts|, i requires 0 <= i < |atts| => Found(atts[i]))
  }

  lemma EntitiesAreFound(atts: seq<MailAttachment>)
    ensures FileEntities(PartsOf(atts)) == AllFound(atts)
  {
    forall i | 0 <= i < |atts| ensures FileEntities(PartsOf(atts))[i] == AllFound(atts)[i] {
    }
  }

  // ---- The content of a reply ----------------------------------------------------------------

  function TextLeaf(mime: string, bytes: seq<Utf8.byte>): Entity {
    Leaf(mime, Some("UTF-8"), None, None, None, None, Some(bytes))
  }

  /** The page a reply shows: the rendered html, or the text as paragraphs, and the pixel last. */
  function Page(body: string, html: Option<string>, pixel: Option<string>): string {
    "<html><body>\n" + (if html.Some? then html.value else Html.TextAsHtml(body))
    + ((if pixel.Some? then "<img src=\"" + Html.Escape(pixel.value) + "\" width=\"1\" height=\"1\" alt=\"\">\n" else "")
       + "</body></html>\n")
  }

  /** The text alone, or text and page as alternatives, the text first. */
  function Body(p: ReplyParts): Entity {
    var text := TextLeaf("text/plain", Utf8.Encode(NormalizeReply(p.body)));
    if p.bodyHtml.None? && p.pixelUrl.None? then text
    else
      Multi("multipart/alternative", None,
            [text, TextLeaf("text/html", Utf8.Encode(NormalizeReply(Page(p.body, p.bodyHtml, p.pixelUrl))))])
  }

  function Related(root: string, body: Entity, files: seq<Entity>): Entity {
    if files == [] then body else Multi("multipart/related", Some(root), [body] + files)
  }

  function Mixed(body: Entity, files: seq<Entity>): Entity {
    if files == [] then body else Multi("multipart/mixed", None, [body] + files)
  }

  lemma BodyIs(p: ReplyParts)
    ensures BodyEntity(TextOf(p), HtmlOf(p)) == Body(p)
    ensures HtmlOf(p).None? <==> p.bodyHtml.None? && p.pixelUrl.None?
  {
  }

  /** In every accepted reply: text, or text and page as alternatives; around it the inline files, if there
      are any; around that the others, if there are any; files in tray order. */
  lemma ReplyContent(p: ReplyParts, hash: Boundary.Hasher)
    requires Accepted(p)
    ensures Build(p, hash).Ok? && ReadMessage(Build(p, hash).value).Some?
    ensures ReadMessage(Build(p, hash).value).value.content
            == Mixed(Related(if p.bodyHtml.None? && p.pixelUrl.None? then "text/plain" else "multipart/alternative",
                             Body(p), AllFound(Flagged(p.attachments, true))),
                     AllFound(Flagged(p.attachments, false)))
  {
    ReplyReadsBack(p, hash);
    BodyIs(p);
    SelectedAreFlagged(p.attachments, true);
    SelectedAreFlagged(p.attachments, false);
    EntitiesAreFound(Flagged(p.attachments, true));
    EntitiesAreFound(Flagged(p.attachments, false));
  }

  /** In every accepted forward: its text and its page as alternatives, and around them every attachment of
      the original and of the sender, in order, whatever its flag. */
  lemma ForwardContent(p: ForwardParts, hash: Boundary.Hasher)
    requires ForwardAccepted(p)
    ensures BuildOf(p, hash).Ok? && ReadMessage(BuildOf(p, hash).value).Some?
    ensures ReadMessage(BuildOf(p, hash).value).value.content
            == Mixed(Multi("multipart/alternative", None,
                           [TextLeaf("text/plain", Utf8.Encode(NormalizeForward(TextPart(p)))),
                            TextLeaf("text/html", Utf8.Encode(NormalizeForward(HtmlPart(p))))]),
                     AllFound(p.original.attachments))
  {
    ForwardReadsBack(p, hash);
    EntitiesAreFound(p.original.attachments);
  }
}
