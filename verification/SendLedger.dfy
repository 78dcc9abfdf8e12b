/** What the ledger says of an accepted send: exactly the outcome line it should, with the counts of the
    mail that went. */
module SendLedger {
  import opened Wrappers
  import opened Text
  import opened HeaderFields
  import opened Addresses
  import opened Recipients
  import opened SendAction
  import SendAudience
  import SendTokens

  predicate IsOutcome(note: Note) {
    note.OkPlain? || note.OkBcc? || note.OkReplyAll? || note.OkForward?
  }

  /** No outcome but this one is written down. */
  predicate Tells(effects: seq<Effect>, outcome: Note) {
    forall i :: 0 <= i < |effects| && effects[i].Audit? && IsOutcome(effects[i].note) ==> effects[i].note == outcome
  }

  /** The outcome is written down when the mail went, and only then. */
  predicate Truthful(r: Run, outcome: Note) {
    IsOutcome(outcome) && Tells(r.effects, outcome) && (r.answer.Sent? <==> Audit(outcome) in r.effects)
  }

  // ---- Step by step --------------------------------------------------------------------------

  lemma BothTell(a: seq<Effect>, b: seq<Effect>, outcome: Note)
    requires Tells(a, outcome) && Tells(b, outcome)
    ensures Tells(a + b, outcome)
  {
  }

  predicate Silent(effects: seq<Effect>) {
    forall i :: 0 <= i < |effects| && effects[i].Audit? ==> !IsOutcome(effects[i].note)
  }

  lemma SilentFirst(a: seq<Effect>, r: Run, outcome: Note)
    requires Silent(a) && Truthful(r, outcome)
    ensures Truthful(Then(a, r), outcome)
  {
    BothTell(a, r.effects, outcome);
  }

  lemma SilentRefusal(effects: seq<Effect>, status: nat, outcome: Note)
    requires Silent(effects) && IsOutcome(outcome)
    ensures Truthful(Run(effects, Refused(status)), outcome)
  {
  }

  lemma StepsAreSilent(q: Request, w: World, resolve: Option<int>, token: Option<string>)
    ensures Silent(HandleStep(w, resolve)) && Silent(DraftStep(q, w)) && Silent(FilesStep(q, w))
    ensures Silent(LinkStep(w, token)) && Silent(Mint(q, w)) && Silent(Discard(w, token))
  {
  }

  lemma BothSilent(a: seq<Effect>, b: seq<Effect>)
    requires Silent(a) && Silent(b)
    ensures Silent(a + b)
  {
  }

  /** One outcome between silent steps. */
  lemma OutcomeAmong(before: seq<Effect>, outcome: Note, behind: seq<Effect>, echo: Option<int>)
    requires Silent(before) && Silent(behind) && IsOutcome(outcome)
    ensures Truthful(Run(before + [Audit(outcome)] + behind, Sent(echo)), outcome)
  {
    assert (before + [Audit(outcome)] + behind)[|before|] == Audit(outcome);
  }

  lemma FinishTells(q: Request, w: World, resolve: Option<int>, outcome: Note)
    requires IsOutcome(outcome)
    ensures Truthful(Finish(q, w, resolve, outcome), outcome)
  {
    var token := Token(q, w);
    StepsAreSilent(q, w, resolve, token);
    if w.took {
      BothSilent([Gmail(true)], HandleStep(w, resolve));
      BothSilent([Gmail(true)] + HandleStep(w, resolve), DraftStep(q, w));
      BothSilent([Gmail(true)] + HandleStep(w, resolve) + DraftStep(q, w), FilesStep(q, w));
      OutcomeAmong([Gmail(true)] + HandleStep(w, resolve) + DraftStep(q, w) + FilesStep(q, w), outcome, LinkStep(w, token), w.echo);
    } else {
      BothSilent([Gmail(false)], Discard(w, token));
      BothSilent([Gmail(false)] + Discard(w, token), [Audit(FailedGmail)]);
      SilentRefusal([Gmail(false)] + Discard(w, token) + [Audit(FailedGmail)], 502, outcome);
    }
  }

  lemma ComposeTells(q: Request, w: World, fits: bool, resolve: Option<int>, outcome: Note)
    requires IsOutcome(outcome)
    ensures Truthful(ComposeAndFinish(q, w, fits, resolve, outcome), outcome)
  {
    StepsAreSilent(q, w, resolve, Token(q, w));
    if fits {
      FinishTells(q, w, resolve, outcome);
    } else {
      BothSilent(Discard(w, Token(q, w)), [Audit(RejectedCompose)]);
      SilentRefusal(Discard(w, Token(q, w)) + [Audit(RejectedCompose)], 400, outcome);
    }
    SilentFirst(Mint(q, w), Composed(q, w, fits, resolve, outcome), outcome);
  }

  lemma GuardTells(kinds: seq<string>, override_: bool, next: Run, outcome: Note)
    requires Truthful(next, outcome)
    ensures Truthful(Guard(kinds, override_, next), outcome)
  {
    SilentRefusal([Audit(BlockedGuard)], 422, outcome);
    SilentFirst([Audit(GuardOverride(kinds))], next, outcome);
  }

  lemma GuardedTells(kinds: seq<string>, q: Request, w: World, fits: bool, outcome: Note)
    requires IsOutcome(outcome)
    ensures Truthful(Guard(kinds, q.overrideGuard, ComposeAndFinish(q, w, fits, None, outcome)), outcome)
  {
    ComposeTells(q, w, fits, None, outcome);
    GuardTells(kinds, q.overrideGuard, ComposeAndFinish(q, w, fits, None, outcome), outcome);
  }

  lemma RecordTells(q: Request, r: Run, outcome: Note)
    requires Truthful(r, outcome)
    ensures Truthful(WithRecord(q, r), outcome)
  {
    BothTell(r.effects, [RecordGroup], outcome);
  }

  // ---- The paths -----------------------------------------------------------------------------

  /** The outcome line of a single send. */
  function OutcomeOf(q: Request, w: World): (outcome: Note)
    ensures IsOutcome(outcome)
  {
    if q.forwardOf.Some? then ForwardOutcome(q, w)
    else
      match ChosenFor(q, w)
      case Ok(c) => ReplyOutcome(q, w, c)
      case Err(_) => OkPlain
  }

  lemma RefuseTells(note: Note, status: nat, outcome: Note)
    requires IsOutcome(outcome) && !IsOutcome(note)
    ensures Truthful(Refuse(note, status), outcome)
  {
  }

  lemma ForwardTells(q: Request, w: World, kinds: seq<string>, staged: nat)
    ensures Truthful(ForwardRun(q, w, kinds, staged), ForwardOutcome(q, w))
  {
    var outcome := ForwardOutcome(q, w);
    if w.parentFrom.None? {
      RefuseTells(FailedTarget, 404, outcome);
    } else {
      match w.original {
        case FetchNoCredential => RefuseTells(RejectedNoWriteCredential, 403, outcome);
        case FetchFailed => NotFetchedTells(outcome);
        case Fetched(size, parsed) =>
          NotFetchedTells(outcome);
          if parsed.Some? {
            GuardedTells(Joined(kinds, parsed.value), q, w, ForwardFits(q, w), outcome);
          }
      }
    }
  }

  lemma NotFetchedTells(outcome: Note)
    requires IsOutcome(outcome)
    ensures Truthful(Refuse(RejectedTooLarge, 413), outcome) && Truthful(Refuse(FailedFetchOriginal, 502), outcome)
  {
    RefuseTells(RejectedTooLarge, 413, outcome);
    RefuseTells(FailedFetchOriginal, 502, outcome);
  }

  lemma ReplyTells(q: Request, w: World)
    requires q.forwardOf.None?
    ensures Truthful(ReplyRun(q, w), OutcomeOf(q, w))
  {
    var outcome := OutcomeOf(q, w);
    RefuseTells(FailedTarget, 404, outcome);
    RefuseTells(FailedGmail, 502, outcome);
    RefuseTells(RejectedNoRecipient, 400, outcome);
    if ChosenFor(q, w).Ok? {
      var c := ChosenFor(q, w).value;
      ComposeTells(q, w, ReplyFits(q, w, c), q.replyTo, outcome);
      RecordTells(q, ComposeAndFinish(q, w, ReplyFits(q, w, c), q.replyTo, outcome), outcome);
    }
  }

  lemma FanOutTells(q: Request, w: World, members: nat, outcome: Note)
    requires IsOutcome(outcome)
    ensures Truthful(FanOutRun(q, w, members), outcome)
  {
    StepsAreSilent(q, w, None, Token(q, w));
    if w.startWorks {
      BothSilent(DraftStep(q, w), FilesStep(q, w));
      BothSilent([StartBatch(members)], DraftStep(q, w) + FilesStep(q, w));
      BothSilent(Mint(q, w), Started(q, w, members));
    } else {
      BothSilent(Discard(w, Token(q, w)), [Audit(FailedFanOutStart)]);
      SilentRefusal(Discard(w, Token(q, w)) + [Audit(FailedFanOutStart)], 500, outcome);
      SilentFirst(Mint(q, w), Run(Discard(w, Token(q, w)) + [Audit(FailedFanOutStart)], Refused(500)), outcome);
    }
  }

  lemma ClearedTells(q: Request, w: World, kinds: seq<string>, staged: nat)
    ensures Truthful(Cleared(q, w, kinds, staged), OutcomeOf(q, w))
  {
    var outcome := OutcomeOf(q, w);
    RefuseTells(RejectedNoWriteCredential, 403, outcome);
    SilentRefusal([], 404, outcome);
    SilentRefusal([], 400, outcome);
    if q.forwardOf.Some? {
      ForwardTells(q, w, kinds, staged);
    } else {
      ReplyTells(q, w);
      if w.group.Some? {
        FanOutTells(q, w, |w.group.value.members|, outcome);
      }
    }
  }

  lemma EarlyTells(q: Request, outcome: Note)
    requires IsOutcome(outcome)
    ensures Early(q).Some? ==> Truthful(Early(q).value, outcome)
  {
  }

  /** The ledger holds an outcome line exactly when a single mail went, and then it is that mail's. */
  lemma LedgerSaysWhatWent(q: Request, w: World, note: Note)
    requires IsOutcome(note)
    ensures Audit(note) in Action(q, w).effects <==> Action(q, w).answer.Sent? && note == OutcomeOf(q, w)
  {
    var outcome := OutcomeOf(q, w);
    EarlyTells(q, outcome);
    if Early(q).None? {
      LoadedTells(q, w, outcome);
    }
    assert Truthful(Action(q, w), outcome);
  }

  lemma LoadedTells(q: Request, w: World, outcome: Note)
    requires Early(q).None? && outcome == OutcomeOf(q, w)
    ensures Truthful(Action(q, w), outcome)
  {
    match w.files {
      case FilesUnreadable => SilentRefusal([], 500, outcome);
      case FilesRefused(reason) => RefuseTells(RejectedFiles(reason), 400, outcome);
      case Loaded(fileKinds, size) =>
        var kinds := Joined(w.bodyKinds, fileKinds);
        var next := Cleared(q, w, kinds, size);
        ClearedTells(q, w, kinds, size);
        GuardTells(kinds, q.overrideGuard, next, outcome);
        assert Action(q, w) == if q.forwardOf.Some? then next else Guard(kinds, q.overrideGuard, next);
    }
  }

  // ---- The counts ----------------------------------------------------------------------------

  /** The addresses of a list that none of the others names, counted. */
  function Unseen(list: seq<string>, seen: seq<string>): nat {
    if list == [] then 0 else (if Named(seen, ToAsciiLower(list[0])) then 0 else 1) + Unseen(list[1..], seen)
  }

  lemma {:induction false} ExcludingCounts(list: seq<string>, seen: seq<string>)
    ensures |Excluding(list, Lowered(seen))| == Unseen(list, seen)
  {
    if list != [] {
      LoweredIs(seen, ToAsciiLower(list[0]));
      ExcludingCounts(list[1..], seen);
    }
  }

  /** The blind copies the visible lists leave over, one by one. */
  function BlindOf(q: Request, w: World, c: SendAudience.Chosen): nat {
    Unseen(ParseAddrList(q.bcc.GetOr(""), w.lib), ParseAddrList(c.to, w.lib) + ParseAddrList(c.cc, w.lib))
  }

  lemma BlindCount(q: Request, w: World)
    requires Faithful(w.lib) && ChosenFor(q, w).Ok?
    ensures CountAddrs(ChosenFor(q, w).value.bcc, w) == BlindOf(q, w, ChosenFor(q, w).value)
  {
    var c := ChosenFor(q, w).value;
    var asked := ParseAddrList(q.bcc.GetOr(""), w.lib);
    var seen := AllListed([c.to, c.cc], w.lib);
    SendAudience.TwoLists(c.to, c.cc, w.lib);
    ParseJoined(Excluding(asked, Lowered(seen)), w.lib);
    ExcludingCounts(asked, seen);
  }

  lemma SentIsChosen(q: Request, w: World)
    requires Action(q, w).answer.Sent? && q.forwardOf.None?
    ensures ChosenFor(q, w).Ok?
  {
    var kinds := Joined(w.bodyKinds, w.files.kinds);
    assert Cleared(q, w, kinds, w.files.size).answer.Sent?;
    assert ReplyRun(q, w).answer.Sent?;
  }

  /** A blind count is written down exactly when a reply or new message went with blind copies, and it is
      the number of requested ones that stand on neither visible list of the mail. */
  lemma LedgerCountsTheBlind(q: Request, w: World, blind: nat)
    requires Faithful(w.lib)
    ensures Audit(OkBcc(blind)) in Action(q, w).effects
            <==> Action(q, w).answer.Sent? && q.forwardOf.None? && ChosenFor(q, w).Ok?
                 && blind == BlindOf(q, w, ChosenFor(q, w).value) && blind > 0
  {
    LedgerSaysWhatWent(q, w, OkBcc(blind));
    if Action(q, w).answer.Sent? && q.forwardOf.None? {
      SentIsChosen(q, w);
      BlindCount(q, w);
    }
  }

  /** The reply-all line stands exactly for a sent reply-all without blind copies. It counts the open
      copies and one more, so it is the number of addresses on the mail exactly when `to` has one. */
  lemma LedgerCountsTheRoom(q: Request, w: World, reached: nat)
    requires Faithful(w.lib)
    ensures Audit(OkReplyAll(reached)) in Action(q, w).effects
            <==> Action(q, w).answer.Sent? && q.forwardOf.None? && q.replyAll && ChosenFor(q, w).Ok?
                 && BlindOf(q, w, ChosenFor(q, w).value) == 0
                 && reached == |ParseAddrList(ChosenFor(q, w).value.cc, w.lib)| + 1
    ensures Audit(OkReplyAll(reached)) in Action(q, w).effects ==>
              var c := ChosenFor(q, w).value;
              reached == |ParseAddrList(c.to, w.lib)| + |ParseAddrList(c.cc, w.lib)| <==> |ParseAddrList(c.to, w.lib)| == 1
  {
    LedgerSaysWhatWent(q, w, OkReplyAll(reached));
    if Action(q, w).answer.Sent? && q.forwardOf.None? {
      SentIsChosen(q, w);
      BlindCount(q, w);
    }
  }

  /** The forward line stands exactly for a sent forward and counts the stated copies. */
  lemma LedgerCountsTheForward(q: Request, w: World, copied: nat, blind: nat)
    ensures Audit(OkForward(copied, blind)) in Action(q, w).effects
            <==> Action(q, w).answer.Sent? && q.forwardOf.Some?
                 && copied == |ParseAddrList(q.cc.GetOr(""), w.lib)| && blind == |ParseAddrList(q.bcc.GetOr(""), w.lib)|
  {
    LedgerSaysWhatWent(q, w, OkForward(copied, blind));
    assert IsBlank("");
  }

  // ---- Several people in `to` ----------------------------------------------------------------

  /** A confirmed reply-all whose `to` was retyped, with nobody copied. */
  function Retyped(to: seq<string>, parent: int): Request {
    Request(true, None, Some(parent), Some(JoinComma(to)), Some(""), None, true, None, "a", [], false, false, None)
  }

  /** Addresses that pass the token check. */
  predicate Plain(to: seq<string>) {
    to != [] && AllEmittable(to) && forall i :: 0 <= i < |to| ==> to[i][0] != '#'
  }

  lemma TwoArePlain()
    ensures Plain(["a@b", "c@d"])
  {
    assert IndexOf("a@b", '@') == 1 && IndexOf("c@d", '@') == 1;
    assert Emittable("a@b") && Emittable("c@d");
  }

  lemma RetypedPasses(to: seq<string>, parent: int)
    requires Plain(to)
    ensures Early(Retyped(to, parent)).None? && !IsBlank(JoinComma(to)) && NoLineBreak(JoinComma(to))
  {
    SendTokens.HonestListIsRefused(to);
    SendTokens.NotBlank();
    JoinedIsBlank(to);
    JoinedHasNoStructure(to);
  }

  lemma RetypedChosen(w: World, to: seq<string>, parent: int)
    requires Plain(to)
    ensures ChosenFor(Retyped(to, parent), w) == Ok(SendAudience.Chosen(JoinComma(to), "", ""))
  {
    RetypedPasses(to, parent);
    SendTokens.NobodyBlind(JoinComma(to), "", w.lib);
  }

  lemma NobodyCounted(q: Request, w: World, c: SendAudience.Chosen)
    requires c.cc == "" && c.bcc == "" && q.replyAll
    ensures ReplyOutcome(q, w, c) == OkReplyAll(1)
  {
    assert ParseAddrList("", w.lib) == [];
  }

  /** However many people are written to openly, the ledger says one was reached. */
  lemma LedgerMissesTheRest(w: World, to: seq<string>, parent: int)
    requires Faithful(w.lib) && SendTokens.Smooth(w) && w.parentFrom.Some? && w.headers.Some? && Plain(to)
    ensures var q := Retyped(to, parent);
            && Action(q, w).answer == Sent(w.echo) && Audit(OkReplyAll(1)) in Action(q, w).effects
            && ChosenFor(q, w).Ok? && ParseAddrList(ChosenFor(q, w).value.to, w.lib) == to
  {
    var q, c := Retyped(to, parent), SendAudience.Chosen(JoinComma(to), "", "");
    ParseJoined(to, w.lib);
    RetypedPasses(to, parent);
    RetypedChosen(w, to, parent);
    SendTokens.OneLineEach();
    SendTokens.PlainIsSent(q, w, c);
    NobodyCounted(q, w, c);
    LedgerSaysWhatWent(q, w, OkReplyAll(1));
  }
}
