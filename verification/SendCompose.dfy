/** What a send hands to the builders, and that the run refuses to compose exactly what they refuse. */
module SendCompose {
  import opened Wrappers
  import opened Text
  import opened HeaderFields
  import opened SendAction
  import Attachments
  import Boundary
  import Forward
  import MimeReader
  import Reply
  import ReplyBuilder
  import SendAudience

  /** A blank copy list is left out. */
  function Filtered(list: string): Option<string> {
    if IsBlank(list) then None else Some(list)
  }

  function StatedCopies(list: Option<string>): Option<string> {
    if list.Some? then Filtered(list.value) else None
  }

  function Threaded(q: Request, id: Option<string>, w: World): Option<string> {
    if q.replyTo.Some? && w.headers.Some? then id else None
  }

  /** The parts of a reply or new message; the html, the pixel and the files are whatever they are. */
  function PartsOfReply(q: Request, w: World, c: SendAudience.Chosen, html: Option<string>, pixel: Option<string>,
                        files: seq<Attachments.MailAttachment>)
    : Reply.ReplyParts
  {
    Reply.ReplyParts(c.to, Filtered(c.cc), Filtered(c.bcc), w.subject, q.body, Threaded(q, w.inReplyTo, w),
                     Threaded(q, w.references, w), html, pixel, files)
  }

  function PartsOfForward(q: Request, w: World, html: Option<string>, pixel: Option<string>, original: Forward.ForwardedOriginal)
    : Forward.ForwardParts
  {
    Forward.ForwardParts(q.to.GetOr(""), StatedCopies(q.cc), StatedCopies(q.bcc), w.subject, q.body, html, pixel, original)
  }

  /** `send_one`: what one member of a fan-out is sent. */
  function PartsOfMember(member: string, subject: string, body: string, html: Option<string>, pixel: Option<string>,
                         files: seq<Attachments.MailAttachment>)
    : Reply.ReplyParts
  {
    Reply.ReplyParts(member, None, None, subject, body, None, None, html, pixel, files)
  }

  lemma FilteredIsShown(list: string)
    ensures Filtered(list).GetOr("") == Shown(list)
  {
  }

  /** The run composes exactly when the reply builder accepts what it is handed. */
  lemma ReplyFitsIsAccepted(q: Request, w: World, c: SendAudience.Chosen, html: Option<string>, pixel: Option<string>,
                            files: seq<Attachments.MailAttachment>)
    ensures ReplyFits(q, w, c) <==> ReplyBuilder.Accepted(PartsOfReply(q, w, c, html, pixel, files))
  {
    var fields := ReplyBuilder.Guarded(PartsOfReply(q, w, c, html, pixel, files));
    var others := [Shown(c.cc), Shown(c.bcc), w.subject, Threading(q, w).0, Threading(q, w).1];
    ReplyBuilder.NoFault(fields);
    FilteredIsShown(c.cc);
    FilteredIsShown(c.bcc);
    SameValues(c.to, others, fields);
  }

  lemma SameValues(to: string, others: seq<string>, fields: seq<Field>)
    requires |fields| == |others| + 1 && fields[0].value == to
    requires forall i :: 0 <= i < |others| ==> fields[i + 1].value == others[i]
    ensures (forall i :: 0 <= i < |fields| ==> NoLineBreak(fields[i].value))
            <==> NoLineBreak(to) && forall i :: 0 <= i < |others| ==> NoLineBreak(others[i])
  {
    if NoLineBreak(to) && forall i :: 0 <= i < |others| ==> NoLineBreak(others[i]) {
      assert forall i :: 0 < i < |fields| ==> fields[i].value == others[i - 1];
    }
  }

  lemma ForwardFitsIsAccepted(q: Request, w: World, html: Option<string>, pixel: Option<string>,
                              original: Forward.ForwardedOriginal)
    ensures ForwardFits(q, w) <==> Forward.ForwardAccepted(PartsOfForward(q, w, html, pixel, original))
  {
    var fields := Forward.ForwardGuarded(PartsOfForward(q, w, html, pixel, original));
    var others := [Shown(q.cc.GetOr("")), Shown(q.bcc.GetOr("")), w.subject];
    ReplyBuilder.NoFault(fields);
    FilteredIsShown(q.cc.GetOr(""));
    FilteredIsShown(q.bcc.GetOr(""));
    SameValues(q.to.GetOr(""), others, fields);
  }

  lemma OnlyFitsIsSent(q: Request, w: World, fits: bool, resolve: Option<int>, outcome: Note)
    ensures ComposeAndFinish(q, w, fits, resolve, outcome).answer.Sent? ==> fits && w.took
  {
  }

  lemma GuardSends(kinds: seq<string>, override_: bool, next: Run)
    ensures Guard(kinds, override_, next).answer.Sent? ==> next.answer.Sent?
  {
  }

  lemma SentReplyFits(q: Request, w: World)
    requires ReplyRun(q, w).answer.Sent?
    ensures ChosenFor(q, w).Ok? && ReplyFits(q, w, ChosenFor(q, w).value)
  {
    var c := ChosenFor(q, w).value;
    OnlyFitsIsSent(q, w, ReplyFits(q, w, c), q.replyTo, ReplyOutcome(q, w, c));
  }

  lemma SentForwardFits(q: Request, w: World, kinds: seq<string>, staged: nat)
    requires ForwardRun(q, w, kinds, staged).answer.Sent?
    ensures ForwardFits(q, w)
  {
    var next := ComposeAndFinish(q, w, ForwardFits(q, w), None, ForwardOutcome(q, w));
    GuardSends(Joined(kinds, w.original.parsed.value), q.overrideGuard, next);
    OnlyFitsIsSent(q, w, ForwardFits(q, w), None, ForwardOutcome(q, w));
  }

  lemma SentPath(q: Request, w: World)
    requires Action(q, w).answer.Sent?
    ensures q.forwardOf.None? ==> ReplyRun(q, w).answer.Sent?
    ensures q.forwardOf.Some? ==> exists kinds, staged :: ForwardRun(q, w, kinds, staged).answer.Sent?
  {
    var kinds := Joined(w.bodyKinds, w.files.kinds);
    assert Cleared(q, w, kinds, w.files.size).answer.Sent?;
  }

  /** Whatever a run sends as a single reply or new message is read back as the documented tree, under
      the recipients it chose, whatever the html, the pixel and the files are. */
  lemma SentReplyReadsBack(q: Request, w: World, html: Option<string>, pixel: Option<string>,
                           files: seq<Attachments.MailAttachment>, hash: Boundary.Hasher)
    requires Action(q, w).answer.Sent? && q.forwardOf.None?
    ensures ChosenFor(q, w).Ok?
    ensures var p := PartsOfReply(q, w, ChosenFor(q, w).value, html, pixel, files);
            ReplyBuilder.Build(p, hash).Ok?
            && MimeReader.ReadMessage(ReplyBuilder.Build(p, hash).value)
               == Some(MimeReader.Message(ReplyBuilder.MessageFields(p, ReplyBuilder.ContentNode(p, hash).ct), ReplyBuilder.Tree(p)))
  {
    SentPath(q, w);
    SentReplyFits(q, w);
    var c := ChosenFor(q, w).value;
    ReplyFitsIsAccepted(q, w, c, html, pixel, files);
    ReplyBuilder.ReplyReadsBack(PartsOfReply(q, w, c, html, pixel, files), hash);
  }

  /** And whatever it sends as a forward, under the recipients that were stated. */
  lemma SentForwardReadsBack(q: Request, w: World, html: Option<string>, pixel: Option<string>,
                             original: Forward.ForwardedOriginal, hash: Boundary.Hasher)
    requires Action(q, w).answer.Sent? && q.forwardOf.Some?
    ensures var p := PartsOfForward(q, w, html, pixel, original);
            Forward.BuildOf(p, hash).Ok?
            && MimeReader.ReadMessage(Forward.BuildOf(p, hash).value)
               == Some(MimeReader.Message(Forward.ForwardFields(p, Forward.ForwardNode(p, hash).ct), Forward.ForwardTree(p)))
  {
    SentPath(q, w);
    var kinds, staged :| ForwardRun(q, w, kinds, staged).answer.Sent?;
    SentForwardFits(q, w, kinds, staged);
    ForwardFitsIsAccepted(q, w, html, pixel, original);
    Forward.ForwardReadsBack(PartsOfForward(q, w, html, pixel, original), hash);
  }
}
