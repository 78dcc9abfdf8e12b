/** The promise behind inline images: what sits inside multipart/related is what the html points at,
    and the html that goes out still points at it. */
module InlineImages {
  import opened Wrappers
  import opened Text
  import opened Attachments
  import opened MimeReader
  import opened MimeTree
  import opened Reply
  import opened ReplyBuilder
  import Html

  lemma ReferenceIsOneLine(token: string)
    requires IsId(token)
    ensures Reference(token) != "" && NoLineBreak(Reference(token))
  {
    assert NoLineBreak(token);
    assert NoLineBreak("src=\"cid:") && NoLineBreak("\"");
  }

  predicate SentAs(att: MailAttachment, inlined: bool, f: FilePart) {
    att.isInline == inlined && f == PartOf(att)
  }

  predicate SentFrom(atts: seq<MailAttachment>, inlined: bool, f: FilePart) {
    exists i :: 0 <= i < |atts| && SentAs(atts[i], inlined, f)
  }

  lemma SelectedAre(atts: seq<MailAttachment>, inlined: bool, f: FilePart)
    ensures f in Selected(atts, inlined) <==> SentFrom(atts, inlined, f)
  {
    var files := PartsOf(atts);
    PickedAre(files, inlined, f);
    if SentFrom(atts, inlined, f) {
      var i :| 0 <= i < |atts| && SentAs(atts[i], inlined, f);
      assert files[i] == f;
    }
    if f in files && f.head.isInline == inlined {
      var i :| 0 <= i < |files| && files[i] == f;
      assert SentAs(atts[i], inlined, f);
    }
  }

  /** The html part a recipient gets, as text. */
  lemma ReferenceSurvives(p: ReplyParts, att: MailAttachment)
    requires IsReferenced(att, p.bodyHtml)
    ensures HtmlOf(p).Some? && Contains(HtmlOf(p).value, Reference(TokenOf(att).value))
  {
    var token := TokenOf(att).value;
    HeadIsGood(att);
    assert HeadOf(att).token == Some(token);
    ReferenceIsOneLine(token);
    ContainsWider("<html><body>\n", p.bodyHtml.value, Html.Pixel(p.pixelUrl) + "</body></html>\n", Reference(token));
    Html.NormalizeKeeps(Html.Alternative(p.body, p.bodyHtml, p.pixelUrl).value, Reference(token));
  }

  /** After `mark_inline`, the inline parts are exactly the files the rendered html refers to, and each
      reference still stands in the html part that is sent. */
  lemma InlineMeansReferenced(p: ReplyParts, tray: seq<MailAttachment>, f: FilePart)
    requires p.attachments == Marked(tray, p.bodyHtml)
    ensures f in Selected(p.attachments, true)
            <==> exists i :: 0 <= i < |tray| && IsReferenced(tray[i], p.bodyHtml) && SentAs(p.attachments[i], true, f)
    ensures forall i :: 0 <= i < |tray| && p.attachments[i].isInline ==>
              HtmlOf(p).Some? && Contains(HtmlOf(p).value, Reference(TokenOf(tray[i]).value))
  {
    SelectedAre(p.attachments, true, f);
    forall i | 0 <= i < |tray| && p.attachments[i].isInline
      ensures HtmlOf(p).Some? && Contains(HtmlOf(p).value, Reference(TokenOf(tray[i]).value))
    {
      ReferenceSurvives(p, tray[i]);
    }
    assert forall i :: 0 <= i < |tray| ==> p.attachments[i].isInline == IsReferenced(tray[i], p.bodyHtml);
  }
}
