/** `action_send` step by step against the store it changes: each method proved to do exactly the
    effects its part of the decision tree names, the rows always being what the effects so far make them. */
module SendDesk {
  import opened Wrappers
  import opened Text
  import opened SendAction

  lemma OneAfterAnother(a: seq<Effect>, b: seq<Effect>, c: seq<Effect>)
    ensures a + b + c == a + (b + c)
    ensures a + [] == a && [] + c == c
  {
  }

  lemma SixOnto(log: seq<Effect>, a: seq<Effect>, b: seq<Effect>, c: seq<Effect>, d: seq<Effect>, e: seq<Effect>, f: seq<Effect>)
    ensures log + a + b + c + d + e + f == log + (a + b + c + d + e + f)
  {
  }

  lemma ThreeOnto(log: seq<Effect>, a: seq<Effect>, b: seq<Effect>, c: seq<Effect>)
    ensures log + a + b + c == log + (a + b + c) == log + (a + (b + c))
  {
  }

  class Desk {
    var trackers: map<string, Option<int>>
    var drafts: set<int>
    var files: set<int>
    var handled: set<int>
    var log: seq<Effect>
    ghost const first: Store

    constructor (s: Store)
      ensures Now() == s && log == [] && Valid()
    {
      trackers, drafts, files, handled := s.trackers, s.drafts, s.files, s.handled;
      log := [];
      first := s;
    }

    function Now(): Store
      reads this
    {
      Store(trackers, drafts, files, handled)
    }

    /** The rows are what the log made of them. */
    ghost predicate Valid()
      reads this
    {
      Now() == Replay(first, log)
    }

    // ---- One effect at a time ----------------------------------------------------------------

    /** `audit_action`, and the calls that change no row. */
    method Note(e: Effect)
      requires Valid() && (e.Audit? || e.Gmail? || e.StartBatch? || e.RecordGroup?)
      modifies this
      ensures Valid() && log == old(log) + [e] && Now() == old(Now())
    {
      log := log + [e];
      assert log[..|log| - 1] == old(log);
    }

    method StoreTracker(token: string)
      requires Valid()
      modifies this
      ensures Valid() && log == old(log) + [InsertTracker(token)] && Now() == Apply(old(Now()), InsertTracker(token))
    {
      trackers := trackers[token := None];
      log := log + [InsertTracker(token)];
      assert log[..|log| - 1] == old(log);
    }

    method RemoveTracker(token: string)
      requires Valid()
      modifies this
      ensures Valid() && log == old(log) + [DeleteTracker(token)] && Now() == Apply(old(Now()), DeleteTracker(token))
    {
      trackers := trackers - {token};
      log := log + [DeleteTracker(token)];
      assert log[..|log| - 1] == old(log);
    }

    /** `link_tracker`, best effort. */
    method Link(w: World, token: Option<string>)
      requires Valid()
      modifies this
      ensures Valid() && log == old(log) + LinkStep(w, token) && Now() == Linked(w, token, old(Now()))
    {
      if token.Some? && w.echo.Some? && w.linkWorks {
        trackers := trackers[token.value := Some(w.echo.value)];
        log := log + [LinkTracker(token.value, w.echo.value)];
        assert log[..|log| - 1] == old(log);
      }
    }

    /** `resolve_done`, best effort. */
    method ResolveDone(w: World, resolve: Option<int>)
      requires Valid()
      modifies this
      ensures Valid() && log == old(log) + HandleStep(w, resolve) && Now() == Resolved(w, resolve, old(Now()))
    {
      if resolve.Some? && w.handleWorks {
        handled := handled + {resolve.value};
        log := log + [Handle(resolve.value)];
        assert log[..|log| - 1] == old(log);
      }
    }

    /** `discard_sent_draft`, best effort. */
    method DiscardDraft(q: Request, w: World)
      requires Valid()
      modifies this
      ensures Valid() && log == old(log) + DraftStep(q, w) && Now() == WithoutDraft(q, w, old(Now()))
    {
      if q.draftId.Some? && w.draftWorks {
        drafts := drafts - {q.draftId.value};
        log := log + [DropDraft(q.draftId.value)];
        assert log[..|log| - 1] == old(log);
      }
    }

    /** `discard_sent_attachments`, best effort. */
    method DiscardFiles(q: Request, w: World)
      requires Valid()
      modifies this
      ensures Valid() && log == old(log) + FilesStep(q, w) && Now() == WithoutFiles(q, w, old(Now()))
    {
      if w.filesWork {
        files := files - set i | i in q.fileIds;
        log := log + [DropFiles(q.fileIds)];
        assert log[..|log| - 1] == old(log);
      }
    }

    // ---- The steps ---------------------------------------------------------------------------

    /** `mint_tracker`: the row first, or no pixel at all. */
    method MintTracker(q: Request, w: World) returns (token: Option<string>)
      requires Valid()
      modifies this
      ensures Valid() && log == old(log) + Mint(q, w) && token == Token(q, w)
      ensures Now() == if token.Some? then old(Now()).(trackers := old(trackers)[token.value := None]) else old(Now())
    {
      token := None;
      if !q.wantsTracker || !w.trackingConfigured {
        return;
      }
      if w.token.None? {
        Note(Audit(TrackerNoEntropy));
        return;
      }
      if !w.insertWorks {
        Note(Audit(TrackerNotStored));
        return;
      }
      StoreTracker(w.token.value);
      Note(Audit(TrackerMinted));
      token := w.token;
    }

    /** `discard_tracker`, when there is one. */
    method DiscardTracker(w: World, token: Option<string>)
      requires Valid()
      modifies this
      ensures Valid() && log == old(log) + Discard(w, token)
      ensures Now() == if token.Some? && w.deleteWorks then old(Now()).(trackers := old(trackers) - {token.value})
                       else old(Now())
    {
      if token.Some? {
        if w.deleteWorks {
          RemoveTracker(token.value);
          Note(Audit(TrackerDiscarded));
        } else {
          Note(Audit(TrackerNotDiscarded));
        }
      }
    }

    /** `guard_verdict`: a refusal, or clearance with the override written down. */
    method GuardVerdict(kinds: seq<string>, override_: bool) returns (refused: bool)
      requires Valid()
      modifies this
      ensures Valid() && refused == (kinds != [] && !override_) && Now() == old(Now())
      ensures log == old(log) + if kinds == [] then []
                                else if !override_ then [Audit(BlockedGuard)] else [Audit(GuardOverride(kinds))]
    {
      refused := false;
      if kinds != [] {
        if !override_ {
          Note(Audit(BlockedGuard));
          refused := true;
        } else {
          Note(Audit(GuardOverride(kinds)));
        }
      }
    }

    method Reject(note: SendAction.Note, status: nat) returns (answer: Answer)
      requires Valid()
      modifies this
      ensures Valid() && log == old(log) + Refuse(note, status).effects && answer == Refuse(note, status).answer
      ensures Now() == old(Now())
    {
      Note(Audit(note));
      answer := Refused(status);
    }

    /** `finish_send`. */
    method FinishSend(q: Request, w: World, resolve: Option<int>, outcome: SendAction.Note, token: Option<string>)
      returns (answer: Answer)
      requires Valid() && token == Token(q, w)
      modifies this
      ensures Valid() && log == old(log) + Finish(q, w, resolve, outcome).effects
      ensures answer == Finish(q, w, resolve, outcome).answer
      ensures w.took ==>
                Now() == Linked(w, token, WithoutFiles(q, w, WithoutDraft(q, w, Resolved(w, resolve, old(Now())))))
      ensures !w.took ==>
                Now() == if token.Some? && w.deleteWorks then old(Now()).(trackers := old(trackers) - {token.value})
                         else old(Now())
    {
      Note(Gmail(w.took));
      if w.took {
        ResolveDone(w, resolve);
        DiscardDraft(q, w);
        DiscardFiles(q, w);
        Note(Audit(outcome));
        Link(w, token);
        SixOnto(old(log), [Gmail(true)], HandleStep(w, resolve), DraftStep(q, w), FilesStep(q, w), [Audit(outcome)], LinkStep(w, token));
        answer := Sent(w.echo);
      } else {
        DiscardTracker(w, token);
        Note(Audit(FailedGmail));
        ThreeOnto(old(log), [Gmail(false)], Discard(w, token), [Audit(FailedGmail)]);
        answer := Refused(502);
      }
    }

    /** From the minting on, what a reply and a forward have in common. */
    method ComposeAndSend(q: Request, w: World, fits: bool, resolve: Option<int>, outcome: SendAction.Note) returns (answer: Answer)
      requires Valid()
      modifies this
      ensures Valid() && log == old(log) + ComposeAndFinish(q, w, fits, resolve, outcome).effects
      ensures answer == ComposeAndFinish(q, w, fits, resolve, outcome).answer
    {
      var token := MintTracker(q, w);
      answer := SendComposed(q, w, fits, resolve, outcome, token);
      OneAfterAnother(old(log), Mint(q, w), Composed(q, w, fits, resolve, outcome).effects);
    }

    method SendComposed(q: Request, w: World, fits: bool, resolve: Option<int>, outcome: SendAction.Note,
                        token: Option<string>)
      returns (answer: Answer)
      requires Valid() && token == Token(q, w)
      modifies this
      ensures Valid() && log == old(log) + Composed(q, w, fits, resolve, outcome).effects
      ensures answer == Composed(q, w, fits, resolve, outcome).answer
    {
      if !fits {
        DiscardTracker(w, token);
        answer := Reject(RejectedCompose, 400);
        OneAfterAnother(old(log), Discard(w, token), [Audit(RejectedCompose)]);
      } else {
        answer := FinishSend(q, w, resolve, outcome, token);
      }
    }

    /** The batch starts before the draft and the files go. */
    method BeginBatch(q: Request, w: World, members: nat)
      requires Valid()
      modifies this
      ensures Valid() && log == old(log) + Started(q, w, members)
      ensures Now() == WithoutFiles(q, w, WithoutDraft(q, w, old(Now())))
    {
      Note(StartBatch(members));
      DiscardDraft(q, w);
      DiscardFiles(q, w);
      ThreeOnto(old(log), [StartBatch(members)], DraftStep(q, w), FilesStep(q, w));
    }

    /** `fan_out_send`. */
    method FanOutSend(q: Request, w: World, members: nat) returns (answer: Answer)
      requires Valid()
      modifies this
      ensures Valid() && log == old(log) + FanOutRun(q, w, members).effects && answer == FanOutRun(q, w, members).answer
      ensures answer.Sending? ==> Now() == AfterStarted(q, w, old(Now()))
      ensures answer.Refused? && w.deleteWorks && Fresh(w, old(Now())) ==> Now() == old(Now())
    {
      var token := MintTracker(q, w);
      if !w.startWorks {
        DiscardTracker(w, token);
        answer := Reject(FailedFanOutStart, 500);
        ThreeOnto(old(log), Mint(q, w), Discard(w, token), [Audit(FailedFanOutStart)]);
        return;
      }
      BeginBatch(q, w, members);
      OneAfterAnother(old(log), Mint(q, w), Started(q, w, members));
      answer := Sending(members);
    }

    /** `forward_send`: one verdict over the note and the original, nothing derived, nothing resolved. */
    method ForwardSend(q: Request, w: World, noteKinds: seq<string>, staged: nat) returns (answer: Answer)
      requires Valid()
      modifies this
      ensures Valid() && log == old(log) + ForwardRun(q, w, noteKinds, staged).effects
      ensures answer == ForwardRun(q, w, noteKinds, staged).answer
    {
      if w.parentFrom.None? {
        answer := Reject(FailedTarget, 404);
        return;
      }
      var size, parsed := 0, None;
      match w.original {
        case FetchNoCredential =>
          answer := Reject(RejectedNoWriteCredential, 403);
          return;
        case FetchFailed =>
        case Fetched(n, p) =>
          size, parsed := n, p;
      }
      if size + staged > MAX_FORWARD_RAW_BYTES {
        answer := Reject(RejectedTooLarge, 413);
        return;
      }
      if size == 0 || parsed.None? {
        answer := Reject(FailedFetchOriginal, 502);
        return;
      }
      var refused := GuardVerdict(Joined(noteKinds, parsed.value), q.overrideGuard);
      if refused {
        answer := Refused(422);
        return;
      }
      ghost var judged := log[|old(log)|..];
      answer := ComposeAndSend(q, w, ForwardFits(q, w), None, ForwardOutcome(q, w));
      OneAfterAnother(old(log), judged, ComposeAndFinish(q, w, ForwardFits(q, w), None, ForwardOutcome(q, w)).effects);
    }

    /** The reply and new-message path, from the parent on. */
    method ReplySend(q: Request, w: World) returns (answer: Answer)
      requires Valid()
      modifies this
      ensures Valid() && log == old(log) + ReplyRun(q, w).effects && answer == ReplyRun(q, w).answer
    {
      if q.replyTo.Some? && w.parentFrom.None? {
        answer := Reject(FailedTarget, 404);
        return;
      }
      if q.replyTo.Some? && w.headers.None? && q.replyAll {
        answer := Reject(FailedGmail, 502);
        return;
      }
      var chosen := ChosenFor(q, w);
      if chosen.Err? {
        answer := Reject(RejectedNoRecipient, 400);
        return;
      }
      var c := chosen.value;
      answer := ComposeAndSend(q, w, ReplyFits(q, w, c), q.replyTo, ReplyOutcome(q, w, c));
      if q.groupId.Some? && answer.Sent? {
        ghost var sent := log[|old(log)|..];
        Note(RecordGroup);
        OneAfterAnother(old(log), sent, [RecordGroup]);
      }
    }

    /** Past the guard. */
    method Dispatch(q: Request, w: World, kinds: seq<string>, staged: nat) returns (answer: Answer)
      requires Valid()
      modifies this
      ensures Valid() && log == old(log) + Cleared(q, w, kinds, staged).effects
      ensures answer == Cleared(q, w, kinds, staged).answer
    {
      if !w.hasCredential {
        answer := Reject(RejectedNoWriteCredential, 403);
      } else if q.forwardOf.Some? {
        answer := ForwardSend(q, w, kinds, staged);
      } else if q.groupId.Some? && w.group.None? {
        answer := Refused(404);
      } else if q.groupId.Some? && w.group.value.members == [] {
        answer := Refused(400);
      } else if q.groupId.Some? && w.group.value.individual {
        answer := FanOutSend(q, w, |w.group.value.members|);
      } else {
        answer := ReplySend(q, w);
      }
    }

    /** The checks that cost nothing, first. */
    method Refusal(q: Request) returns (r: Option<(SendAction.Note, nat)>)
      ensures Early(q) == if r.None? then None else Some(Refuse(r.value.0, r.value.1))
    {
      if !q.confirm {
        return Some((RejectedConfirm, 400));
      }
      if q.forwardOf.Some? && q.replyTo.Some? {
        return Some((RejectedForwardAndReply, 400));
      }
      if q.forwardOf.None? && IsBlank(q.body) {
        return Some((RejectedEmptyBody, 400));
      }
      if q.forwardOf.Some? && IsBlank(q.to.GetOr("")) {
        return Some((RejectedNoRecipient, 400));
      }
      if q.replyAll && q.replyTo.None? {
        return Some((RejectedReplyAllNoParent, 400));
      }
      if HasGroupToken(q.to) || HasGroupToken(q.bcc) {
        return Some((RejectedUnresolvedGroup, 400));
      }
      if q.groupId.Some? && (q.replyTo.Some? || q.forwardOf.Some?) {
        return Some((RejectedGroupOnReply, 400));
      }
      return None;
    }

    /** `action_send`. */
    method Decide(q: Request, w: World) returns (answer: Answer)
      requires Valid()
      modifies this
      ensures Valid() && log == old(log) + Action(q, w).effects && answer == Action(q, w).answer
    {
      var early := Refusal(q);
      if early.Some? {
        answer := Reject(early.value.0, early.value.1);
        return;
      }
      match w.files {
        case FilesUnreadable =>
          answer := Refused(500);
        case FilesRefused(reason) =>
          answer := Reject(RejectedFiles(reason), 400);
        case Loaded(fileKinds, size) =>
          var kinds := Joined(w.bodyKinds, fileKinds);
          if q.forwardOf.None? {
            var refused := GuardVerdict(kinds, q.overrideGuard);
            if refused {
              answer := Refused(422);
              return;
            }
          }
          ghost var judged := log[|old(log)|..];
          answer := Dispatch(q, w, kinds, size);
          OneAfterAnother(old(log), judged, Cleared(q, w, kinds, size).effects);
      }
    }

    /** What a caller may count on, in terms of the rows alone: a refused send changes nothing when
        deletes work, and an accepted one leaves exactly what it should. */
    method ActionSend(q: Request, w: World) returns (answer: Answer)
      requires Valid()
      modifies this
      ensures Valid() && log == old(log) + Action(q, w).effects && answer == Action(q, w).answer
      ensures answer.Refused? && w.deleteWorks && Fresh(w, old(Now())) ==> Now() == old(Now())
      ensures answer.Sent? ==> Now() == AfterSent(q, w, old(Now()))
      ensures answer.Sending? ==> Now() == AfterStarted(q, w, old(Now()))
    {
      ghost var before, logged := Now(), log;
      answer := Decide(q, w);
      ReplayAppend(first, logged, Action(q, w).effects);
      AcceptedRunLeaves(q, w, before);
      if answer.Refused? && w.deleteWorks && Fresh(w, before) {
        RefusedRunChangesNothing(q, w, before);
      }
    }
  }
}
