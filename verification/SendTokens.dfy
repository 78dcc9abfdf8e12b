/** Unresolved group tokens, `#name`, in what is sent: the check looks at the stated `to` and `bcc`, and
    this is what it does and does not keep off the wire. */
module SendTokens {
  import opened Wrappers
  import opened Text
  import opened HeaderFields
  import opened Seqs
  import opened Addresses
  import opened Recipients
  import opened SendAction
  import opened SendCompose
  import Attachments
  import Boundary
  import Forward
  import MimeReader
  import Reply
  import ReplyBuilder
  import SendAudience

  /** Begins like a token and is no address. */
  predicate TokenPiece(piece: string) {
    StartsWith(Trim(piece), "#") && !Emittable(Trim(piece))
  }

  predicate Unresolved(list: string) {
    exists i :: 0 <= i < |Pieces(list)| && TokenPiece(Pieces(list)[i])
  }

  lemma CheckedHasNone(list: Option<string>)
    requires !HasGroupToken(list)
    ensures !Unresolved(list.GetOr(""))
  {
    if list.None? {
      BlankHasNone("");
    }
  }

  lemma {:induction false} OnePiece(s: string)
    requires ',' !in s
    ensures Pieces(s) == [s]
  {
    if s != "" {
      OnePiece(s[1..]);
      Uncons(s);
    }
  }

  lemma {:induction false} TrimmedAway(s: string)
    requires IsBlank(s)
    ensures TrimStart(s) == "" && Trim(s) == ""
  {
    if s != "" {
      assert s[0] in s && forall c <- s[1..] :: c in s;
      TrimmedAway(s[1..]);
    }
  }

  lemma BlankHasNone(s: string)
    requires IsBlank(s)
    ensures !Unresolved(s)
  {
    OnePiece(s);
    TrimmedAway(s);
    assert !StartsWith("", "#");
  }

  lemma ShownHasTheSame(list: string)
    ensures Unresolved(Shown(list)) <==> Unresolved(list)
  {
    BlankHasNone("");
    if IsBlank(list) {
      BlankHasNone(list);
    }
  }

  // ---- Lists of addresses --------------------------------------------------------------------

  lemma {:induction false} FirstPieceEnds(a: string, rest: string)
    requires ',' !in a
    ensures Pieces(a + ("," + rest)) == [a] + Pieces(rest)
  {
    if a == "" {
      NilLeft(a, "," + rest);
      assert ("," + rest)[1..] == rest;
    } else {
      TailOf(a, "," + rest);
      FirstPieceEnds(a[1..], rest);
      Uncons(a);
    }
  }

  function Indented(s: string): string {
    " " + s
  }

  lemma FirstPieceIndented(s: string)
    ensures Pieces(Indented(s)) == [Indented(Pieces(s)[0])] + Pieces(s)[1..]
  {
    assert (" " + s)[1..] == s;
  }

  lemma JoinedPieces(a: string, rest: string)
    requires ',' !in a
    ensures Pieces(a + (", " + rest)) == [a] + ([Indented(Pieces(rest)[0])] + Pieces(rest)[1..])
  {
    assert ", " + rest == "," + Indented(rest);
    FirstPieceEnds(a, Indented(rest));
    FirstPieceIndented(rest);
  }

  // How pieces are trimmed does not matter to how they come about.

  ghost predicate SkipsIndent(trim: string -> string) {
    forall s {:trigger Indented(s)} :: trim(Indented(s)) == trim(s)
  }

  /** The pieces are these words, with blanks around them. */
  predicate Spells(trim: string -> string, pieces: seq<string>, words: seq<string>) {
    |pieces| == |words| && forall i :: 0 <= i < |words| ==> trim(pieces[i]) == words[i]
  }

  predicate Words(trim: string -> string, list: seq<string>) {
    forall i :: 0 <= i < |list| ==> trim(list[i]) == list[i] && ',' !in list[i]
  }

  lemma OneMoreWord(trim: string -> string, a: string, b: string, pieces: seq<string>, words: seq<string>)
    requires pieces != [] && Spells(trim, pieces, words) && trim(a) == a && trim(b) == words[0]
    ensures Spells(trim, [a] + ([b] + pieces[1..]), [a] + words)
  {
  }

  lemma {:induction false} PiecesOfJoined(trim: string -> string, list: seq<string>)
    requires SkipsIndent(trim) && list != [] && Words(trim, list)
    ensures Spells(trim, Pieces(JoinComma(list)), list)
    decreases |list|
  {
    if |list| == 1 {
      OnePiece(list[0]);
    } else {
      var rest := JoinComma(list[1..]);
      var pieces := Pieces(rest);
      PiecesOfJoined(trim, list[1..]);
      JoinedPieces(list[0], rest);
      OneMoreWord(trim, list[0], Indented(pieces[0]), pieces, list[1..]);
      Uncons(list);
    }
  }

  lemma EmittableIsTrimmed(a: string)
    requires Emittable(a)
    ensures Trim(a) == a && ',' !in a && a != ""
  {
  }

  lemma TrimSkipsIndent()
    ensures SkipsIndent(Trim)
  {
    forall s ensures Trim(Indented(s)) == Trim(s) {
      assert (" " + s)[1..] == s;
    }
  }

  /** The pieces of a joined list are its addresses. */
  lemma PiecesAreAddresses(list: seq<string>)
    requires list != [] && AllEmittable(list)
    ensures Spells(Trim, Pieces(JoinComma(list)), list)
  {
    TrimSkipsIndent();
    forall i | 0 <= i < |list| ensures Trim(list[i]) == list[i] && ',' !in list[i] {
      EmittableIsTrimmed(list[i]);
    }
    PiecesOfJoined(Trim, list);
  }

  /** A list put together from addresses holds no token. */
  lemma JoinedHasNone(list: seq<string>)
    requires AllEmittable(list)
    ensures !Unresolved(JoinComma(list))
  {
    if list == [] {
      BlankHasNone("");
    } else {
      PiecesAreAddresses(list);
    }
  }

  // ---- An honest address may begin with `#` --------------------------------------------------

  /** A list of nothing but addresses is refused exactly when one of them begins with `#`. */
  lemma HonestListIsRefused(list: seq<string>)
    requires AllEmittable(list)
    ensures HasGroupToken(Some(JoinComma(list))) <==> exists i :: 0 <= i < |list| && list[i][0] == '#'
  {
    if list == [] {
      OnePiece("");
    } else {
      PiecesAreAddresses(list);
      BeginsAlike(Pieces(JoinComma(list)), list);
    }
  }

  lemma BeginsAlike(pieces: seq<string>, words: seq<string>)
    requires Spells(Trim, pieces, words) && forall i :: 0 <= i < |words| ==> words[i] != ""
    ensures (exists i :: 0 <= i < |pieces| && StartsWith(Trim(pieces[i]), "#"))
            <==> exists i :: 0 <= i < |words| && words[i][0] == '#'
  {
    forall i | 0 <= i < |words| ensures StartsWith(Trim(pieces[i]), "#") <==> words[i][0] == '#' {
      HashFirst(words[i]);
    }
  }

  lemma HashFirst(word: string)
    requires word != ""
    ensures StartsWith(word, "#") <==> word[0] == '#'
  {
    assert word[..1] == [word[0]];
  }

  /** And there are such addresses. */
  lemma HashAddressIsRefused(q: Request, w: World)
    requires q.to == Some("#a@b") || q.bcc == Some("#a@b")
    ensures Emittable("#a@b") && Action(q, w).answer.Refused?
  {
    var list := ["#a@b"];
    HashAddress();
    HonestListIsRefused(list);
    assert list[0][0] == '#';
    TokenIsRefused(q, w);
  }

  lemma HashAddress()
    ensures Emittable("#a@b")
  {
    assert IndexOf("#a@b", '@') == 2;
  }

  lemma TokenIsRefused(q: Request, w: World)
    requires HasGroupToken(q.to) || HasGroupToken(q.bcc)
    ensures Action(q, w).answer.Refused?
  {
    assert Early(q).Some?;
  }

  // ---- What goes out -------------------------------------------------------------------------

  /** Every recipient list of every mail an accepted request sends. */
  function WireLists(q: Request, w: World): seq<string> {
    match Action(q, w).answer
    case Refused(_) => []
    case Sending(_) => if w.group.Some? then w.group.value.members else []
    case Sent(_) =>
      if q.forwardOf.Some? then [q.to.GetOr(""), Shown(q.cc.GetOr("")), Shown(q.bcc.GetOr(""))]
      else
        match ChosenFor(q, w)
        case Ok(c) => [c.to, Shown(c.cc), Shown(c.bcc)]
        case Err(_) => []
  }

  /** A `to` that is copied from the store as it stands: the parent's stored sender, or the account. */
  function RawTo(q: Request, w: World): string {
    var derived := DerivedFor(q, w);
    if q.forwardOf.Some? || !IsBlank(q.to.GetOr("")) then ""
    else if derived.Some? && !IsBlank(derived.value.to) then ""
    else if q.replyTo.Some? && w.parentFrom.Some? then w.parentFrom.value
    else w.own.GetOr("")
  }

  lemma PassedTheCheck(q: Request, w: World)
    requires !Action(q, w).answer.Refused?
    ensures !Unresolved(q.to.GetOr("")) && !Unresolved(q.bcc.GetOr(""))
  {
    assert Early(q).None?;
    CheckedHasNone(q.to);
    CheckedHasNone(q.bcc);
  }

  /** Of what a reply or new message chose, only a stated `cc` and a `to` copied as it stands were never
      looked at nor put together from addresses. */
  lemma ChosenTokens(q: Request, w: World)
    requires ChosenFor(q, w).Ok? && q.forwardOf.None? && !Unresolved(q.to.GetOr(""))
    ensures var c := ChosenFor(q, w).value;
            && (Unresolved(c.to) <==> Unresolved(RawTo(q, w)))
            && (Unresolved(c.cc) <==> Unresolved(q.cc.GetOr("")))
            && !Unresolved(c.bcc)
  {
    var c := ChosenFor(q, w).value;
    BlankHasNone("");
    ExcludedHasNone(q.bcc.GetOr(""), [c.to, c.cc], w.lib);
    ExcludedHasNone(SendAudience.DerivedCc(DerivedFor(q, w)), [c.to], w.lib);
    if q.replyTo.Some? && w.headers.Some? {
      JoinedHasNone(Derive(w.headers.value, OwnOf(w.own.GetOr("")), q.replyAll, w.lib).to);
    }
  }

  lemma ExcludedHasNone(list: string, exclude: seq<string>, lib: Library)
    ensures !Unresolved(AddrsExcluding(list, exclude, lib))
  {
    JoinedHasNone(Excluding(ParseAddrList(list, lib), Lowered(AllListed(exclude, lib))));
  }

  lemma AmongThree(a: string, b: string, c: string)
    ensures (exists l <- [a, b, c] :: Unresolved(l)) <==> Unresolved(a) || Unresolved(b) || Unresolved(c)
  {
    assert [a, b, c][0] == a && [a, b, c][1] == b && [a, b, c][2] == c;
  }

  /** An accepted single send puts a token on the wire exactly when its stated `cc` holds one or its `to`
      is copied from the store with one; a fan-out exactly when a member's address is one, and its `cc`
      goes nowhere. */
  lemma TokensOnTheWire(q: Request, w: World)
    requires !Action(q, w).answer.Refused?
    ensures (exists l <- WireLists(q, w) :: Unresolved(l))
            <==> if Action(q, w).answer.Sending? then w.group.Some? && exists m <- w.group.value.members :: Unresolved(m)
                 else Unresolved(q.cc.GetOr("")) || Unresolved(RawTo(q, w))
  {
    PassedTheCheck(q, w);
    if Action(q, w).answer.Sent? {
      ShownHasTheSame(q.cc.GetOr(""));
      ShownHasTheSame(q.bcc.GetOr(""));
      if q.forwardOf.Some? {
        BlankHasNone("");
        AmongThree(q.to.GetOr(""), Shown(q.cc.GetOr("")), Shown(q.bcc.GetOr("")));
      } else {
        SentPath(q, w);
        SentReplyFits(q, w);
        var c := ChosenFor(q, w).value;
        ChosenTokens(q, w);
        ShownHasTheSame(c.cc);
        ShownHasTheSame(c.bcc);
        AmongThree(c.to, Shown(c.cc), Shown(c.bcc));
      }
    }
  }

  // ---- In the bytes --------------------------------------------------------------------------

  predicate NamesRecipients(name: string) {
    name == TO || name == CC || name == BCC
  }

  /** A token in a recipient header of a message. */
  predicate TokenIn(fields: seq<Field>) {
    exists i :: 0 <= i < |fields| && NamesRecipients(fields[i].name) && Unresolved(fields[i].value)
  }

  lemma TokenInJoin(a: seq<Field>, b: seq<Field>)
    ensures TokenIn(a + b) <==> TokenIn(a) || TokenIn(b)
  {
    if TokenIn(a) {
      var i :| 0 <= i < |a| && NamesRecipients(a[i].name) && Unresolved(a[i].value);
      assert (a + b)[i] == a[i];
    }
    if TokenIn(b) {
      var i :| 0 <= i < |b| && NamesRecipients(b[i].name) && Unresolved(b[i].value);
      assert (a + b)[|a| + i] == b[i];
    }
  }

  lemma TokenInOne(name: string, value: string)
    ensures TokenIn([Field(name, value)]) <==> NamesRecipients(name) && Unresolved(value)
  {
    assert [Field(name, value)][0].name == name;
  }

  lemma TokenInStated(name: string, list: Option<string>)
    requires NamesRecipients(name)
    ensures TokenIn(ReplyBuilder.Optional(name, ReplyBuilder.Stated(list))) <==> Unresolved(list.GetOr(""))
  {
    BlankHasNone("");
    if list.Some? {
      TokenInOne(name, list.value);
      if IsBlank(list.value) {
        BlankHasNone(list.value);
      }
    }
  }

  lemma LongNames(fields: seq<Field>)
    requires forall i :: 0 <= i < |fields| ==> |fields[i].name| > 3
    ensures !TokenIn(fields)
  {
  }

  lemma RecipientFields(to: string, cc: Option<string>, bcc: Option<string>, subject: string)
    ensures TokenIn([Field(TO, to)] + ReplyBuilder.Optional(CC, ReplyBuilder.Stated(cc))
                    + ReplyBuilder.Optional(BCC, ReplyBuilder.Stated(bcc)) + [Field(SUBJECT, subject)])
            <==> Unresolved(to) || Unresolved(cc.GetOr("")) || Unresolved(bcc.GetOr(""))
  {
    var a, b := [Field(TO, to)], ReplyBuilder.Optional(CC, ReplyBuilder.Stated(cc));
    var c, d := ReplyBuilder.Optional(BCC, ReplyBuilder.Stated(bcc)), [Field(SUBJECT, subject)];
    TokenInJoin(a, b);
    TokenInJoin(a + b, c);
    TokenInJoin(a + b + c, d);
    TokenInOne(TO, to);
    TokenInStated(CC, cc);
    TokenInStated(BCC, bcc);
    LongNames(d);
  }

  lemma OthersHoldNone(a: seq<Field>, b: seq<Field>, c: seq<Field>, d: seq<Field>)
    requires !TokenIn(b) && !TokenIn(c) && !TokenIn(d)
    ensures TokenIn(a + b + c + d) <==> TokenIn(a)
  {
    TokenInJoin(a, b);
    TokenInJoin(a + b, c);
    TokenInJoin(a + b + c, d);
  }

  lemma ReplyFields(p: Reply.ReplyParts, ct: string)
    ensures TokenIn(ReplyBuilder.MessageFields(p, ct))
            <==> Unresolved(p.to) || Unresolved(p.cc.GetOr("")) || Unresolved(p.bcc.GetOr(""))
  {
    var a := [Field(TO, p.to)] + ReplyBuilder.Optional(CC, ReplyBuilder.Stated(p.cc))
             + ReplyBuilder.Optional(BCC, ReplyBuilder.Stated(p.bcc)) + [Field(SUBJECT, p.subject)];
    var b := ReplyBuilder.Optional(IN_REPLY_TO, ReplyBuilder.NonEmpty(p.inReplyTo));
    var c := ReplyBuilder.Optional(REFERENCES, ReplyBuilder.NonEmpty(p.references));
    RecipientFields(p.to, p.cc, p.bcc, p.subject);
    LongOptional(IN_REPLY_TO, ReplyBuilder.NonEmpty(p.inReplyTo));
    LongOptional(REFERENCES, ReplyBuilder.NonEmpty(p.references));
    LongTypes(ct);
    OthersHoldNone(a, b, c, ReplyBuilder.TypeFields(ct));
  }

  lemma LongOptional(name: string, value: Option<string>)
    requires |name| > 3
    ensures !TokenIn(ReplyBuilder.Optional(name, value))
  {
    LongNames(ReplyBuilder.Optional(name, value));
  }

  lemma LongTypes(ct: string)
    ensures !TokenIn(ReplyBuilder.TypeFields(ct))
  {
    LongNames(ReplyBuilder.TypeFields(ct));
  }

  lemma ForwardFieldsHold(p: Forward.ForwardParts, ct: string)
    ensures TokenIn(Forward.ForwardFields(p, ct))
            <==> Unresolved(p.to) || Unresolved(p.cc.GetOr("")) || Unresolved(p.bcc.GetOr(""))
  {
    RecipientFields(p.to, p.cc, p.bcc, p.subject);
    TokenInJoin(Forward.ForwardAddresses(p), ReplyBuilder.TypeFields(ct));
    LongTypes(ct);
  }

  /** Read back from the bytes of a sent reply or new message, its recipient headers hold a token exactly
      then. */
  lemma TokensInTheReply(q: Request, w: World, html: Option<string>, pixel: Option<string>,
                         files: seq<Attachments.MailAttachment>, hash: Boundary.Hasher)
    requires Action(q, w).answer.Sent? && q.forwardOf.None?
    ensures ChosenFor(q, w).Ok?
    ensures var p := PartsOfReply(q, w, ChosenFor(q, w).value, html, pixel, files);
            && ReplyBuilder.Build(p, hash).Ok? && MimeReader.ReadMessage(ReplyBuilder.Build(p, hash).value).Some?
            && (TokenIn(MimeReader.ReadMessage(ReplyBuilder.Build(p, hash).value).value.fields)
                <==> Unresolved(q.cc.GetOr("")) || Unresolved(RawTo(q, w)))
  {
    SentReplyReadsBack(q, w, html, pixel, files, hash);
    var c := ChosenFor(q, w).value;
    var p := PartsOfReply(q, w, c, html, pixel, files);
    ReplyFields(p, ReplyBuilder.ContentNode(p, hash).ct);
    PassedTheCheck(q, w);
    ChosenTokens(q, w);
    FilteredHasTheSame(c.cc);
    FilteredHasTheSame(c.bcc);
  }

  lemma FilteredHasTheSame(list: string)
    ensures Unresolved(SendCompose.Filtered(list).GetOr("")) <==> Unresolved(list)
  {
    FilteredIsShown(list);
    ShownHasTheSame(list);
  }

  /** And those of a sent forward, exactly when the stated `cc` does. */
  lemma TokensInTheForward(q: Request, w: World, html: Option<string>, pixel: Option<string>,
                           original: Forward.ForwardedOriginal, hash: Boundary.Hasher)
    requires Action(q, w).answer.Sent? && q.forwardOf.Some?
    ensures var p := PartsOfForward(q, w, html, pixel, original);
            && Forward.BuildOf(p, hash).Ok? && MimeReader.ReadMessage(Forward.BuildOf(p, hash).value).Some?
            && (TokenIn(MimeReader.ReadMessage(Forward.BuildOf(p, hash).value).value.fields)
                <==> Unresolved(q.cc.GetOr("")))
  {
    SentForwardReadsBack(q, w, html, pixel, original, hash);
    var p := PartsOfForward(q, w, html, pixel, original);
    ForwardFieldsHold(p, Forward.ForwardNode(p, hash).ct);
    PassedTheCheck(q, w);
    StatedHasTheSame(q.cc);
    StatedHasTheSame(q.bcc);
  }

  lemma StatedHasTheSame(list: Option<string>)
    ensures Unresolved(StatedCopies(list).GetOr("")) <==> Unresolved(list.GetOr(""))
  {
    if list.Some? {
      FilteredHasTheSame(list.value);
    }
  }

  // ---- Two that go out -----------------------------------------------------------------------

  lemma OneWord(s: string)
    requires |s| == 1 && s[0] != ',' && !IsWhitespace(s[0])
    ensures (HasGroupToken(Some(s)) <==> s == "#") && (Unresolved(s) <==> s == "#")
  {
    OnePiece(s);
    assert TrimStart(s) == s && Trim(s) == s;
    assert Pieces(s)[0] == s;
    HashFirst(s);
  }

  lemma NotBlank()
    ensures !IsBlank("a") && !IsBlank("#")
  {
    assert !IsWhitespace("a"[0]) && !IsWhitespace("#"[0]);
  }

  /** A confirmed new message to `a` with a group token in its stated `cc`. */
  function TokenInCc(draftId: Option<int>): Request {
    Request(true, None, None, Some("a"), Some("#"), None, false, None, "a", [], false, false, draftId)
  }

  /** The guard finds nothing, there is a credential, Gmail takes it, and what becomes a header is a line. */
  predicate Smooth(w: World) {
    && w.files == Loaded([], 0) && w.bodyKinds == [] && w.hasCredential && w.took
    && NoLineBreak(w.subject) && NoLineBreak(w.inReplyTo.GetOr("")) && NoLineBreak(w.references.GetOr(""))
  }

  /** It is sent, the token among its copies, whatever the library and the rest of the world are. */
  lemma TokenInCcIsSent(w: World, draftId: Option<int>)
    requires Smooth(w)
    ensures var q := TokenInCc(draftId);
            Action(q, w).answer == Sent(w.echo) && WireLists(q, w) == ["a", "#", ""] && Unresolved("#")
  {
    var q, c := TokenInCc(draftId), SendAudience.Chosen("a", "#", "");
    OneWord("#");
    NotBlank();
    OneLineEach();
    TokenInCcPasses(draftId);
    TokenInCcChosen(w, draftId);
    PlainIsSent(q, w, c);
  }

  lemma TokenInCcPasses(draftId: Option<int>)
    ensures Early(TokenInCc(draftId)).None?
  {
    OneWord("a");
    NotBlank();
  }

  lemma TokenInCcChosen(w: World, draftId: Option<int>)
    ensures ChosenFor(TokenInCc(draftId), w) == Ok(SendAudience.Chosen("a", "#", ""))
  {
    NotBlank();
    NobodyBlind("a", "#", w.lib);
  }

  lemma NobodyBlind(to: string, cc: string, lib: Library)
    ensures AddrsExcluding("", [to, cc], lib) == ""
  {
    assert ParseAddrList("", lib) == [];
  }

  lemma OneLineEach()
    ensures NoLineBreak("a") && NoLineBreak("#") && NoLineBreak("")
  {
  }

  /** In a smooth world what was chosen goes, if each header is one line. */
  lemma PlainIsSent(q: Request, w: World, c: SendAudience.Chosen)
    requires Smooth(w) && Early(q).None? && q.forwardOf.None? && q.groupId.None?
    requires q.replyTo.Some? ==> w.parentFrom.Some? && w.headers.Some?
    requires ChosenFor(q, w) == Ok(c) && !IsBlank(c.to) && NoLineBreak(c.to) && NoLineBreak(c.cc) && NoLineBreak(c.bcc)
    ensures Action(q, w).answer == Sent(w.echo)
  {
    PlainReplies(q, w, c);
    CleanIsCleared(q, w);
  }

  lemma PlainReplies(q: Request, w: World, c: SendAudience.Chosen)
    requires Smooth(w) && q.groupId.None? && (q.replyTo.Some? ==> w.parentFrom.Some? && w.headers.Some?)
    requires ChosenFor(q, w) == Ok(c) && !IsBlank(c.to) && NoLineBreak(c.to) && NoLineBreak(c.cc) && NoLineBreak(c.bcc)
    ensures ReplyRun(q, w).answer == Sent(w.echo)
  {
    OneLineEach();
    PlainFits(q, w, c);
    TakenIsSent(q, w, q.replyTo, ReplyOutcome(q, w, c));
  }

  lemma PlainFits(q: Request, w: World, c: SendAudience.Chosen)
    requires Smooth(w) && !IsBlank(c.to) && NoLineBreak(c.to) && NoLineBreak(c.cc) && NoLineBreak(c.bcc)
    ensures ReplyFits(q, w, c)
  {
  }

  /** With nothing found and nothing attached, a message goes past the guard. */
  lemma CleanIsCleared(q: Request, w: World)
    requires Smooth(w) && Early(q).None? && q.forwardOf.None? && q.groupId.None?
    ensures Action(q, w) == ReplyRun(q, w)
  {
    assert Joined([], []) == [];
  }

  lemma TakenIsSent(q: Request, w: World, resolve: Option<int>, outcome: Note)
    requires w.took
    ensures ComposeAndFinish(q, w, true, resolve, outcome).answer == Sent(w.echo)
  {
  }

  /** A confirmed reply in which nothing is stated but the text. */
  function BareReply(parent: int): Request {
    Request(true, None, Some(parent), None, None, None, false, None, "a", [], false, false, None)
  }

  /** To a parent whose headers name nobody and whose stored sender is a token, it goes to that token. */
  lemma TokenInParentIsSent(w: World, parent: int)
    requires Smooth(w) && w.headers == Some(ParentHeaders(None, None, None, None)) && w.parentFrom == Some("#")
    ensures var q := BareReply(parent);
            Action(q, w).answer == Sent(w.echo) && WireLists(q, w) == ["#", "", ""] && Unresolved("#")
  {
    var q, c := BareReply(parent), SendAudience.Chosen("#", "", "");
    OneWord("#");
    NotBlank();
    OneLineEach();
    BareChosen(w, parent);
    BarePasses(parent);
    PlainIsSent(q, w, c);
  }

  lemma BarePasses(parent: int)
    ensures Early(BareReply(parent)).None?
  {
    NotBlank();
  }

  lemma BareChosen(w: World, parent: int)
    requires w.headers == Some(ParentHeaders(None, None, None, None)) && w.parentFrom == Some("#")
    ensures ChosenFor(BareReply(parent), w) == Ok(SendAudience.Chosen("#", "", ""))
  {
    NobodyDerived(w.own.GetOr(""), w.lib);
    NobodyElse(w.own, w.lib);
  }

  lemma NobodyDerived(own: string, lib: Library)
    ensures Recipients.Recipients(Derive(ParentHeaders(None, None, None, None), OwnOf(own), false, lib)) == ReplyRecipients("", "")
  {
    assert ParseAddrList("", lib) == [];
  }

  lemma NobodyElse(own: Option<string>, lib: Library)
    ensures SendAudience.Choose(SendAudience.Requested(None, None, None), Some(ReplyRecipients("", "")), Some("#"), own, lib)
            == Ok(SendAudience.Chosen("#", "", ""))
  {
    NobodyBlind("#", "", lib);
    assert ParseAddrList("", lib) == [];
  }
}
