/** One run of `action_send` against a store and a Gmail that may fail at every step. What the run does
    is a list of effects; the decision tree says which, and the lemmas say what no run can do. */
module SendAction {
  import opened Wrappers
  import opened Text
  import opened Addresses
  import opened Recipients
  import SendAudience

  // ---- The store and what can happen to it ---------------------------------------------------

  /** Trackers by token with the message they are linked to, drafts, staged files, messages handled. */
  datatype Store = Store(trackers: map<string, Option<int>>, drafts: set<int>, files: set<int>, handled: set<int>)

  datatype Note =
    | RejectedConfirm | RejectedForwardAndReply | RejectedEmptyBody | RejectedNoRecipient | RejectedReplyAllNoParent
    | RejectedUnresolvedGroup | RejectedGroupOnReply | RejectedFiles(reason: string) | RejectedNoWriteCredential
    | RejectedTooLarge | RejectedCompose | BlockedGuard | GuardOverride(kinds: seq<string>)
    | FailedTarget | FailedGmail | FailedFetchOriginal | FailedFanOutStart
    | OkPlain | OkBcc(blind: nat) | OkReplyAll(reached: nat) | OkForward(copied: nat, blind: nat)
    | TrackerMinted | TrackerNoEntropy | TrackerNotStored | TrackerDiscarded | TrackerNotDiscarded

  datatype Effect =
    | Audit(note: Note)
    | InsertTracker(token: string)
    | DeleteTracker(token: string)
    | LinkTracker(token: string, message: int)
    | Gmail(took: bool)
    | StartBatch(members: nat)
    | Handle(message: int)
    | DropDraft(draft: int)
    | DropFiles(ids: seq<int>)
    | RecordGroup

  function Apply(s: Store, e: Effect): Store {
    match e
    case InsertTracker(token) => s.(trackers := s.trackers[token := None])
    case DeleteTracker(token) => s.(trackers := s.trackers - {token})
    case LinkTracker(token, message) => s.(trackers := s.trackers[token := Some(message)])
    case Handle(message) => s.(handled := s.handled + {message})
    case DropDraft(draft) => s.(drafts := s.drafts - {draft})
    case DropFiles(ids) => s.(files := s.files - set i | i in ids)
    case _ => s
  }

  function Replay(s: Store, effects: seq<Effect>): Store {
    if effects == [] then s else Apply(Replay(s, effects[..|effects| - 1]), effects[|effects| - 1])
  }

  // ---- The request and the world -------------------------------------------------------------

  datatype Request = Request(
    confirm: bool, forwardOf: Option<int>, replyTo: Option<int>, to: Option<string>, cc: Option<string>, bcc: Option<string>,
    replyAll: bool, groupId: Option<int>, body: string, fileIds: seq<int>, overrideGuard: bool, wantsTracker: bool,
    draftId: Option<int>)

  datatype Files = Loaded(kinds: seq<string>, size: nat) | FilesUnreadable | FilesRefused(reason: string)

  /** A group: whether it is written to one by one, and the addresses of its members. */
  datatype Group = Group(individual: bool, members: seq<string>)

  datatype Fetch = Fetched(size: nat, parsed: Option<seq<string>>) | FetchNoCredential | FetchFailed

  /** Everything a run asks of the outside: what the store, the guard, Gmail and the libraries answer.
      A run asks each question at most once, so one answer each is no restriction. The subject is the one
      settled on, stated or derived; the threading ids are the parent's. */
  datatype World = World(
    files: Files, bodyKinds: seq<string>, hasCredential: bool, group: Option<Group>,
    parentFrom: Option<string>, headers: Option<ParentHeaders>, inReplyTo: Option<string>, references: Option<string>,
    own: Option<string>, lib: Library, subject: string, original: Fetch,
    trackingConfigured: bool, token: Option<string>, insertWorks: bool, deleteWorks: bool, linkWorks: bool,
    took: bool, echo: Option<int>, handleWorks: bool, draftWorks: bool, filesWork: bool, startWorks: bool)

  datatype Answer = Sent(echo: Option<int>) | Sending(members: nat) | Refused(status: nat)

  datatype Run = Run(effects: seq<Effect>, answer: Answer)

  const MAX_FORWARD_RAW_BYTES := 20 * 1024 * 1024

  function Refuse(note: Note, status: nat): Run {
    Run([Audit(note)], Refused(status))
  }

  function Then(effects: seq<Effect>, r: Run): Run {
    Run(effects + r.effects, r.answer)
  }

  // ---- What each step does -------------------------------------------------------------------

  function Pieces(s: string): (r: seq<string>)
    ensures r != []
  {
    if s == "" then [""]
    else if s[0] == ',' then [""] + Pieces(s[1..])
    else
      var rest := Pieces(s[1..]);
      [[s[0]] + rest[0]] + rest[1..]
  }

  /** An unresolved group token, `#name`, among the pieces of a list. */
  predicate HasGroupToken(list: Option<string>) {
    list.Some? && exists i :: 0 <= i < |Pieces(list.value)| && StartsWith(Trim(Pieces(list.value)[i]), "#")
  }

  function Joined(kinds: seq<string>, more: seq<string>): (r: seq<string>)
    ensures r == [] <==> kinds == [] && more == []
    decreases |more|
  {
    if more == [] then kinds
    else Joined(if more[0] in kinds then kinds else kinds + [more[0]], more[1..])
  }

  /** A header value the builder takes, and the ones beside it. */
  predicate Fits(to: string, others: seq<string>) {
    NoLineBreak(to) && !IsBlank(to) && forall i :: 0 <= i < |others| ==> NoLineBreak(others[i])
  }

  /** A copy list that is blank writes no header. */
  function Shown(list: string): string {
    if IsBlank(list) then "" else list
  }

  function CountAddrs(list: string, w: World): nat {
    |ParseAddrList(list, w.lib)|
  }

  /** The recipients derived from the parent, when there is one and its headers could be read. */
  function DerivedFor(q: Request, w: World): Option<ReplyRecipients> {
    if q.replyTo.Some? && w.headers.Some? then
      Some(Recipients.Recipients(Derive(w.headers.value, OwnOf(w.own.GetOr("")), q.replyAll, w.lib)))
    else None
  }

  function ChosenFor(q: Request, w: World): Result<SendAudience.Chosen, SendAudience.Refusal> {
    SendAudience.Choose(SendAudience.Requested(q.to, q.cc, q.bcc), DerivedFor(q, w),
                        if q.replyTo.Some? then w.parentFrom else None, w.own, w.lib)
  }

  /** The threading ids that go out: none without a parent whose headers were read. */
  function Threading(q: Request, w: World): (string, string) {
    if q.replyTo.Some? && w.headers.Some? then (w.inReplyTo.GetOr(""), w.references.GetOr("")) else ("", "")
  }

  predicate ReplyFits(q: Request, w: World, c: SendAudience.Chosen) {
    Fits(c.to, [Shown(c.cc), Shown(c.bcc), w.subject, Threading(q, w).0, Threading(q, w).1])
  }

  predicate ForwardFits(q: Request, w: World) {
    Fits(q.to.GetOr(""), [Shown(q.cc.GetOr("")), Shown(q.bcc.GetOr("")), w.subject])
  }

  function Token(q: Request, w: World): Option<string> {
    if q.wantsTracker && w.trackingConfigured && w.insertWorks then w.token else None
  }

  function Mint(q: Request, w: World): seq<Effect> {
    if !q.wantsTracker || !w.trackingConfigured then []
    else if w.token.None? then [Audit(TrackerNoEntropy)]
    else if !w.insertWorks then [Audit(TrackerNotStored)]
    else [InsertTracker(w.token.value), Audit(TrackerMinted)]
  }

  function Discard(w: World, token: Option<string>): seq<Effect> {
    if token.None? then []
    else if w.deleteWorks then [DeleteTracker(token.value), Audit(TrackerDiscarded)]
    else [Audit(TrackerNotDiscarded)]
  }

  function Guard(kinds: seq<string>, override_: bool, next: Run): Run {
    if kinds == [] then next
    else if !override_ then Refuse(BlockedGuard, 422)
    else Then([Audit(GuardOverride(kinds))], next)
  }

  function HandleStep(w: World, resolve: Option<int>): seq<Effect> {
    if resolve.Some? && w.handleWorks then [Handle(resolve.value)] else []
  }

  function DraftStep(q: Request, w: World): seq<Effect> {
    if q.draftId.Some? && w.draftWorks then [DropDraft(q.draftId.value)] else []
  }

  function FilesStep(q: Request, w: World): seq<Effect> {
    if w.filesWork then [DropFiles(q.fileIds)] else []
  }

  function LinkStep(w: World, token: Option<string>): seq<Effect> {
    if token.Some? && w.echo.Some? && w.linkWorks then [LinkTracker(token.value, w.echo.value)] else []
  }

  /** Resolve, discard the draft, discard the files, audit, echo, link: in that order, after Gmail took it. */
  function Finish(q: Request, w: World, resolve: Option<int>, outcome: Note): Run {
    var token := Token(q, w);
    if !w.took then Run([Gmail(false)] + Discard(w, token) + [Audit(FailedGmail)], Refused(502))
    else
      Run([Gmail(true)] + HandleStep(w, resolve) + DraftStep(q, w) + FilesStep(q, w) + [Audit(outcome)] + LinkStep(w, token),
          Sent(w.echo))
  }

  /** Once the tracker is minted. */
  function Composed(q: Request, w: World, fits: bool, resolve: Option<int>, outcome: Note): Run {
    if fits then Finish(q, w, resolve, outcome)
    else Run(Discard(w, Token(q, w)) + [Audit(RejectedCompose)], Refused(400))
  }

  function ComposeAndFinish(q: Request, w: World, fits: bool, resolve: Option<int>, outcome: Note): Run {
    Then(Mint(q, w), Composed(q, w, fits, resolve, outcome))
  }

  function Started(q: Request, w: World, members: nat): seq<Effect> {
    [StartBatch(members)] + (DraftStep(q, w) + FilesStep(q, w))
  }

  function FanOutRun(q: Request, w: World, members: nat): Run {
    Then(Mint(q, w),
         if !w.startWorks then Run(Discard(w, Token(q, w)) + [Audit(FailedFanOutStart)], Refused(500))
         else
           Run(Started(q, w, members), Sending(members)))
  }

  function ForwardRun(q: Request, w: World, kinds: seq<string>, staged: nat): Run {
    if w.parentFrom.None? then Refuse(FailedTarget, 404)
    else
      match w.original
      case FetchNoCredential => Refuse(RejectedNoWriteCredential, 403)
      case FetchFailed => if staged > MAX_FORWARD_RAW_BYTES then Refuse(RejectedTooLarge, 413) else Refuse(FailedFetchOriginal, 502)
      case Fetched(size, parsed) =>
        if size + staged > MAX_FORWARD_RAW_BYTES then Refuse(RejectedTooLarge, 413)
        else if size == 0 || parsed.None? then Refuse(FailedFetchOriginal, 502)
        else
          Guard(Joined(kinds, parsed.value), q.overrideGuard, ComposeAndFinish(q, w, ForwardFits(q, w), None, ForwardOutcome(q, w)))
  }

  function ForwardOutcome(q: Request, w: World): Note {
    OkForward(CountAddrs(Shown(q.cc.GetOr("")), w), CountAddrs(Shown(q.bcc.GetOr("")), w))
  }

  function ReplyOutcome(q: Request, w: World, c: SendAudience.Chosen): Note {
    var copied, blind := CountAddrs(c.cc, w), CountAddrs(c.bcc, w);
    if blind > 0 then OkBcc(blind) else if q.replyAll then OkReplyAll(copied + 1) else OkPlain
  }

  /** The group a single message went to is recorded once it is away. */
  function WithRecord(q: Request, r: Run): Run {
    if q.groupId.Some? && r.answer.Sent? then Run(r.effects + [RecordGroup], r.answer) else r
  }

  function ReplyRun(q: Request, w: World): Run {
    if q.replyTo.Some? && w.parentFrom.None? then Refuse(FailedTarget, 404)
    else if q.replyTo.Some? && w.headers.None? && q.replyAll then Refuse(FailedGmail, 502)
    else
      match ChosenFor(q, w)
      case Err(_) => Refuse(RejectedNoRecipient, 400)
      case Ok(c) => WithRecord(q, ComposeAndFinish(q, w, ReplyFits(q, w, c), q.replyTo, ReplyOutcome(q, w, c)))
  }

  /** The checks that cost nothing, in order; `None` when all pass. */
  function Early(q: Request): Option<Run> {
    if !q.confirm then Some(Refuse(RejectedConfirm, 400))
    else if q.forwardOf.Some? && q.replyTo.Some? then Some(Refuse(RejectedForwardAndReply, 400))
    else if q.forwardOf.None? && IsBlank(q.body) then Some(Refuse(RejectedEmptyBody, 400))
    else if q.forwardOf.Some? && IsBlank(q.to.GetOr("")) then Some(Refuse(RejectedNoRecipient, 400))
    else if q.replyAll && q.replyTo.None? then Some(Refuse(RejectedReplyAllNoParent, 400))
    else if HasGroupToken(q.to) || HasGroupToken(q.bcc) then Some(Refuse(RejectedUnresolvedGroup, 400))
    else if q.groupId.Some? && (q.replyTo.Some? || q.forwardOf.Some?) then Some(Refuse(RejectedGroupOnReply, 400))
    else None
  }

  /** Past the guard: the credential, then the path. */
  function Cleared(q: Request, w: World, kinds: seq<string>, staged: nat): Run {
    if !w.hasCredential then Refuse(RejectedNoWriteCredential, 403)
    else if q.forwardOf.Some? then ForwardRun(q, w, kinds, staged)
    else if q.groupId.Some? then
      match w.group
      case None => Run([], Refused(404))
      case Some(g) =>
        if g.members == [] then Run([], Refused(400))
        else if g.individual then FanOutRun(q, w, |g.members|)
        else ReplyRun(q, w)
    else ReplyRun(q, w)
  }

  function Action(q: Request, w: World): Run {
    match Early(q)
    case Some(r) => r
    case None =>
      match w.files
      case FilesUnreadable => Run([], Refused(500))
      case FilesRefused(reason) => Refuse(RejectedFiles(reason), 400)
      case Loaded(fileKinds, size) =>
        var kinds := Joined(w.bodyKinds, fileKinds);
        if q.forwardOf.Some? then Cleared(q, w, kinds, size)
        else Guard(kinds, q.overrideGuard, Cleared(q, w, kinds, size))
  }

  // ---- What no run can do --------------------------------------------------------------------

  /** Gmail took the mail, or the batch was recorded and its job started. */
  predicate IsAcceptance(e: Effect) {
    e == Gmail(true) || e.StartBatch?
  }

  predicate ReachesOut(e: Effect) {
    e.Gmail? || e.StartBatch?
  }

  /** What only an accepted send may do. */
  predicate NeedsAcceptance(e: Effect) {
    e.Handle? || e.DropDraft? || e.DropFiles? || e.LinkTracker? || e.RecordGroup?
  }

  predicate Accepts(effects: seq<Effect>) {
    exists i :: 0 <= i < |effects| && IsAcceptance(effects[i])
  }

  predicate InOrder(effects: seq<Effect>) {
    forall i :: 0 <= i < |effects| && NeedsAcceptance(effects[i]) ==> Accepts(effects[..i])
  }

  predicate Harmless(effects: seq<Effect>) {
    forall i :: 0 <= i < |effects| ==> !IsAcceptance(effects[i]) && !NeedsAcceptance(effects[i])
  }

  lemma HarmlessFirst(a: seq<Effect>, b: seq<Effect>)
    requires Harmless(a)
    ensures Accepts(a + b) <==> Accepts(b)
    ensures InOrder(b) ==> InOrder(a + b)
  {
    var s := a + b;
    assert forall i :: 0 <= i < |b| ==> s[|a| + i] == b[i];
    if Accepts(s) {
      var i :| 0 <= i < |s| && IsAcceptance(s[i]);
      assert b[i - |a|] == s[i];
    }
    if InOrder(b) {
      forall i | 0 <= i < |s| && NeedsAcceptance(s[i]) ensures Accepts(s[..i]) {
        assert b[i - |a|] == s[i];
        var j :| 0 <= j < i - |a| && IsAcceptance(b[..i - |a|][j]);
        assert s[..i][|a| + j] == b[j];
      }
    }
  }

  lemma AcceptedFirst(e: Effect, rest: seq<Effect>)
    requires IsAcceptance(e)
    ensures Accepts([e] + rest) && InOrder([e] + rest)
  {
    var s := [e] + rest;
    assert IsAcceptance(s[0]) && !NeedsAcceptance(s[0]);
    forall i | 0 <= i < |s| && NeedsAcceptance(s[i]) ensures Accepts(s[..i]) {
      assert s[..i][0] == e;
    }
  }

  lemma HarmlessIsInOrder(effects: seq<Effect>)
    requires Harmless(effects)
    ensures InOrder(effects) && !Accepts(effects)
  {
  }

  predicate Ordered(r: Run) {
    InOrder(r.effects) && (Accepts(r.effects) <==> !r.answer.Refused?)
  }

  lemma FinishOrdered(q: Request, w: World, resolve: Option<int>, outcome: Note)
    ensures Ordered(Finish(q, w, resolve, outcome))
  {
    var r := Finish(q, w, resolve, outcome);
    if w.took {
      AcceptedFirst(Gmail(true), r.effects[1..]);
      assert r.effects == [Gmail(true)] + r.effects[1..];
    } else {
      HarmlessIsInOrder(r.effects);
    }
  }

  lemma ComposeOrdered(q: Request, w: World, fits: bool, resolve: Option<int>, outcome: Note)
    ensures Ordered(ComposeAndFinish(q, w, fits, resolve, outcome))
  {
    if fits {
      FinishOrdered(q, w, resolve, outcome);
    } else {
      HarmlessIsInOrder(Composed(q, w, fits, resolve, outcome).effects);
    }
    HarmlessFirst(Mint(q, w), Composed(q, w, fits, resolve, outcome).effects);
  }

  lemma FanOutOrdered(q: Request, w: World, members: nat)
    ensures Ordered(FanOutRun(q, w, members))
  {
    var r := FanOutRun(q, w, members);
    if w.startWorks {
      AcceptedFirst(StartBatch(members), DraftStep(q, w) + FilesStep(q, w));
      HarmlessFirst(Mint(q, w), Started(q, w, members));
    } else {
      HarmlessIsInOrder(r.effects);
    }
  }

  lemma GuardOrdered(kinds: seq<string>, override_: bool, next: Run)
    requires Ordered(next)
    ensures Ordered(Guard(kinds, override_, next))
  {
    if kinds != [] {
      if override_ {
        HarmlessFirst([Audit(GuardOverride(kinds))], next.effects);
      } else {
        HarmlessIsInOrder(Refuse(BlockedGuard, 422).effects);
      }
    }
  }

  lemma ReplyOrdered(q: Request, w: World)
    ensures Ordered(ReplyRun(q, w))
  {
    RefusalsOrdered();
    if ChosenFor(q, w).Ok? {
      var c := ChosenFor(q, w).value;
      var r := ComposeAndFinish(q, w, ReplyFits(q, w, c), q.replyTo, ReplyOutcome(q, w, c));
      ComposeOrdered(q, w, ReplyFits(q, w, c), q.replyTo, ReplyOutcome(q, w, c));
      RecordOrdered(q, r);
    }
  }

  lemma RecordOrdered(q: Request, r: Run)
    requires Ordered(r)
    ensures Ordered(WithRecord(q, r))
  {
    if r.answer.Sent? {
      OneMore(r.effects, RecordGroup);
    }
  }

  lemma OneMore(effects: seq<Effect>, e: Effect)
    requires InOrder(effects) && Accepts(effects)
    ensures InOrder(effects + [e]) && Accepts(effects + [e])
  {
    var s := effects + [e];
    var k :| 0 <= k < |effects| && IsAcceptance(effects[k]);
    assert IsAcceptance(s[k]);
    forall i | 0 <= i < |s| && NeedsAcceptance(s[i]) ensures Accepts(s[..i]) {
      if i < |effects| {
        assert s[..i] == effects[..i];
      } else {
        assert s[..i] == effects;
      }
    }
  }

  lemma RefuseOrdered(note: Note, status: nat)
    ensures Ordered(Refuse(note, status))
  {
    HarmlessIsInOrder(Refuse(note, status).effects);
  }

  lemma RefusalsOrdered()
    ensures forall note, status :: Ordered(Refuse(note, status))
    ensures forall status :: Ordered(Run([], Refused(status)))
  {
    forall note, status ensures Ordered(Refuse(note, status)) {
      RefuseOrdered(note, status);
    }
  }

  lemma GuardedOrdered(kinds: seq<string>, q: Request, w: World, fits: bool, outcome: Note)
    ensures Ordered(Guard(kinds, q.overrideGuard, ComposeAndFinish(q, w, fits, None, outcome)))
  {
    ComposeOrdered(q, w, fits, None, outcome);
    GuardOrdered(kinds, q.overrideGuard, ComposeAndFinish(q, w, fits, None, outcome));
  }

  lemma ForwardOrdered(q: Request, w: World, kinds: seq<string>, staged: nat)
    ensures Ordered(ForwardRun(q, w, kinds, staged))
  {
    RefusalsOrdered();
    if w.original.Fetched? && w.original.parsed.Some? {
      GuardedOrdered(Joined(kinds, w.original.parsed.value), q, w, ForwardFits(q, w), ForwardOutcome(q, w));
    }
  }

  lemma ClearedOrdered(q: Request, w: World, kinds: seq<string>, staged: nat)
    ensures Ordered(Cleared(q, w, kinds, staged))
  {
    RefusalsOrdered();
    ForwardOrdered(q, w, kinds, staged);
    ReplyOrdered(q, w);
    if w.group.Some? {
      FanOutOrdered(q, w, |w.group.value.members|);
    }
  }

  /** In every run, the draft and the staged files go, the parent is marked handled and the tracker is
      linked only after Gmail took the mail or the batch started; and the answer says sent exactly when
      that happened. */
  lemma NothingGoesBeforeAcceptance(q: Request, w: World)
    ensures InOrder(Action(q, w).effects)
    ensures Accepts(Action(q, w).effects) <==> !Action(q, w).answer.Refused?
  {
    RefusalsOrdered();
    if w.files.Loaded? {
      var kinds := Joined(w.bodyKinds, w.files.kinds);
      ClearedOrdered(q, w, kinds, w.files.size);
      GuardOrdered(kinds, q.overrideGuard, Cleared(q, w, kinds, w.files.size));
    }
    assert Ordered(Action(q, w));
  }

  // ---- The guard -----------------------------------------------------------------------------

  predicate NothingOut(effects: seq<Effect>) {
    forall i :: 0 <= i < |effects| ==> !ReachesOut(effects[i])
  }

  predicate OverrideFirst(effects: seq<Effect>, kinds: seq<string>) {
    effects != [] && effects[0] == Audit(GuardOverride(kinds))
  }

  lemma GuardHolds(kinds: seq<string>, override_: bool, next: Run)
    ensures var r := Guard(kinds, override_, next);
            NothingOut(r.effects) || kinds == [] || (override_ && OverrideFirst(r.effects, kinds))
  {
  }

  /** What the guard is asked about: what the user wrote and attached and, in a forward, the original. */
  function Scanned(q: Request, w: World): seq<string> {
    var own := if w.files.Loaded? then Joined(w.bodyKinds, w.files.kinds) else w.bodyKinds;
    if q.forwardOf.Some? && w.original.Fetched? && w.original.parsed.Some? then Joined(own, w.original.parsed.value) else own
  }

  /** Gmail is asked to send and a batch is started only in a confirmed run in which the guard found
      nothing, or in which it was overridden and the override was written down before anything else. */
  lemma OnlyConfirmedAndGuarded(q: Request, w: World)
    requires !NothingOut(Action(q, w).effects)
    ensures q.confirm && w.hasCredential
    ensures Scanned(q, w) == [] || (q.overrideGuard && OverrideFirst(Action(q, w).effects, Scanned(q, w)))
  {
    var kinds := Joined(w.bodyKinds, w.files.kinds);
    GuardHolds(kinds, q.overrideGuard, Cleared(q, w, kinds, w.files.size));
    if q.forwardOf.Some? && w.original.Fetched? && w.original.parsed.Some? {
      GuardHolds(Joined(kinds, w.original.parsed.value), q.overrideGuard, ComposeAndFinish(q, w, ForwardFits(q, w), None, ForwardOutcome(q, w)));
    }
  }

  // ---- What is left behind -------------------------------------------------------------------

  lemma {:induction false} ReplayAppend(s: Store, a: seq<Effect>, b: seq<Effect>)
    ensures Replay(s, a + b) == Replay(Replay(s, a), b)
    decreases |b|
  {
    if b == [] {
      assert a + b == a;
    } else {
      var n := |b| - 1;
      assert (a + b)[..|a + b| - 1] == a + b[..n];
      ReplayAppend(s, a, b[..n]);
    }
  }

  lemma OneEffect(s: Store, e: Effect)
    ensures Replay(s, [e]) == Apply(s, e)
  {
    assert [e][..0] == [];
  }

  lemma MintLeaves(q: Request, w: World, s: Store)
    ensures Replay(s, Mint(q, w)) == if Token(q, w).Some? then s.(trackers := s.trackers[w.token.value := None]) else s
  {
    var m := Mint(q, w);
    if |m| == 1 {
      OneEffect(s, m[0]);
    } else if |m| == 2 {
      OneEffect(s, m[0]);
      OneEffect(Apply(s, m[0]), m[1]);
      ReplayAppend(s, [m[0]], [m[1]]);
      assert m == [m[0]] + [m[1]];
    }
  }

  lemma DiscardLeaves(w: World, token: Option<string>, s: Store)
    requires w.deleteWorks
    ensures Replay(s, Discard(w, token)) == if token.Some? then s.(trackers := s.trackers - {token.value}) else s
  {
    var d := Discard(w, token);
    if token.Some? {
      OneEffect(s, d[0]);
      OneEffect(Apply(s, d[0]), d[1]);
      ReplayAppend(s, [d[0]], [d[1]]);
      assert d == [d[0]] + [d[1]];
    }
  }

  /** Whatever stands between them leaves the store alone: minting and discarding cancel out. */
  lemma MintedAndDiscarded(q: Request, w: World, middle: seq<Effect>, last: Effect, s: Store)
    requires w.deleteWorks && (w.token.Some? ==> w.token.value !in s.trackers)
    requires middle == [] || middle == [Gmail(false)]
    requires last.Audit?
    ensures Replay(s, Mint(q, w) + (middle + Discard(w, Token(q, w)) + [last])) == s
  {
    var t := Replay(s, Mint(q, w));
    var d := Discard(w, Token(q, w));
    MintLeaves(q, w, s);
    ReplayAppend(s, Mint(q, w), middle + d + [last]);
    ReplayAppend(t, middle + d, [last]);
    ReplayAppend(t, middle, d);
    if middle != [] {
      OneEffect(t, Gmail(false));
    }
    DiscardLeaves(w, Token(q, w), t);
    OneEffect(Replay(t, middle + d), last);
    if Token(q, w).Some? {
      assert s.trackers[w.token.value := None] - {w.token.value} == s.trackers;
    }
  }

  predicate Fresh(w: World, s: Store) {
    w.token.Some? ==> w.token.value !in s.trackers
  }

  /** A refused run that undid itself. */
  predicate Undone(r: Run, s: Store) {
    r.answer.Refused? ==> Replay(s, r.effects) == s
  }

  lemma RefuseUndone(note: Note, status: nat, s: Store)
    ensures Undone(Refuse(note, status), s)
  {
    OneEffect(s, Audit(note));
  }

  lemma ComposeUndone(q: Request, w: World, fits: bool, resolve: Option<int>, outcome: Note, s: Store)
    requires w.deleteWorks && Fresh(w, s)
    ensures Undone(ComposeAndFinish(q, w, fits, resolve, outcome), s)
  {
    var r := ComposeAndFinish(q, w, fits, resolve, outcome);
    if !fits {
      MintedAndDiscarded(q, w, [], Audit(RejectedCompose), s);
      assert [] + Discard(w, Token(q, w)) == Discard(w, Token(q, w));
    } else if !w.took {
      MintedAndDiscarded(q, w, [Gmail(false)], Audit(FailedGmail), s);
    }
  }

  lemma FanOutUndone(q: Request, w: World, members: nat, s: Store)
    requires w.deleteWorks && Fresh(w, s)
    ensures Undone(FanOutRun(q, w, members), s)
  {
    if !w.startWorks {
      MintedAndDiscarded(q, w, [], Audit(FailedFanOutStart), s);
      assert [] + Discard(w, Token(q, w)) == Discard(w, Token(q, w));
    }
  }

  lemma GuardUndone(kinds: seq<string>, override_: bool, next: Run, s: Store)
    requires Undone(next, s)
    ensures Undone(Guard(kinds, override_, next), s)
  {
    RefuseUndone(BlockedGuard, 422, s);
    OneEffect(s, Audit(GuardOverride(kinds)));
    ReplayAppend(s, [Audit(GuardOverride(kinds))], next.effects);
  }

  lemma GuardedUndone(kinds: seq<string>, q: Request, w: World, fits: bool, outcome: Note, s: Store)
    requires w.deleteWorks && Fresh(w, s)
    ensures Undone(Guard(kinds, q.overrideGuard, ComposeAndFinish(q, w, fits, None, outcome)), s)
  {
    ComposeUndone(q, w, fits, None, outcome, s);
    GuardUndone(kinds, q.overrideGuard, ComposeAndFinish(q, w, fits, None, outcome), s);
  }

  lemma ForwardUndone(q: Request, w: World, kinds: seq<string>, staged: nat, s: Store)
    requires w.deleteWorks && Fresh(w, s)
    ensures Undone(ForwardRun(q, w, kinds, staged), s)
  {
    if w.original.Fetched? && w.original.parsed.Some? {
      GuardedUndone(Joined(kinds, w.original.parsed.value), q, w, ForwardFits(q, w), ForwardOutcome(q, w), s);
    }
    RefusalsUndone(s);
  }

  lemma RefusalsUndone(s: Store)
    ensures forall note, status :: Undone(Refuse(note, status), s)
  {
    forall note, status ensures Undone(Refuse(note, status), s) {
      RefuseUndone(note, status, s);
    }
  }

  lemma ReplyUndone(q: Request, w: World, s: Store)
    requires w.deleteWorks && Fresh(w, s)
    ensures Undone(ReplyRun(q, w), s)
  {
    RefusalsUndone(s);
    if ChosenFor(q, w).Ok? {
      var c := ChosenFor(q, w).value;
      ComposeUndone(q, w, ReplyFits(q, w, c), q.replyTo, ReplyOutcome(q, w, c), s);
    }
  }

  lemma ClearedUndone(q: Request, w: World, kinds: seq<string>, staged: nat, s: Store)
    requires w.deleteWorks && Fresh(w, s)
    ensures Undone(Cleared(q, w, kinds, staged), s)
  {
    RefusalsUndone(s);
    ForwardUndone(q, w, kinds, staged, s);
    ReplyUndone(q, w, s);
    if w.group.Some? {
      FanOutUndone(q, w, |w.group.value.members|, s);
    }
  }

  /** Whatever step fails, a refused send leaves trackers, drafts, staged files and handled messages
      exactly as they were, as long as a delete works when it is asked for. */
  lemma RefusedRunChangesNothing(q: Request, w: World, s: Store)
    requires w.deleteWorks && Fresh(w, s) && Action(q, w).answer.Refused?
    ensures Replay(s, Action(q, w).effects) == s
  {
    RefusalsUndone(s);
    if w.files.Loaded? {
      var kinds := Joined(w.bodyKinds, w.files.kinds);
      ClearedUndone(q, w, kinds, w.files.size, s);
      GuardUndone(kinds, q.overrideGuard, Cleared(q, w, kinds, w.files.size), s);
    }
  }

  /** So a minted tracker either belongs to a mail Gmail took or a batch that started, or is gone. */
  lemma TrackerEndsSomewhere(q: Request, w: World, s: Store, token: string)
    requires w.deleteWorks && Fresh(w, s) && token !in s.trackers
    ensures token in Replay(s, Action(q, w).effects).trackers ==> Accepts(Action(q, w).effects)
  {
    NothingGoesBeforeAcceptance(q, w);
    if Action(q, w).answer.Refused? {
      RefusedRunChangesNothing(q, w, s);
    }
  }

  // ---- What an accepted send leaves ----------------------------------------------------------

  function WithoutDraft(q: Request, w: World, s: Store): Store {
    if q.draftId.Some? && w.draftWorks then s.(drafts := s.drafts - {q.draftId.value}) else s
  }

  function WithoutFiles(q: Request, w: World, s: Store): Store {
    if w.filesWork then s.(files := s.files - set i | i in q.fileIds) else s
  }

  function Tracked(q: Request, w: World, link: Option<int>, s: Store): Store {
    if Token(q, w).Some? then s.(trackers := s.trackers[w.token.value := link]) else s
  }

  function Handled(q: Request, w: World, s: Store): Store {
    if q.replyTo.Some? && w.handleWorks then s.(handled := s.handled + {q.replyTo.value}) else s
  }

  /** The store after a mail went out: its parent handled, its draft and files gone, its tracker linked
      to the echoed copy when there is one. A failing cleanup leaves only its own row. */
  function AfterSent(q: Request, w: World, s: Store): Store {
    var link := if w.linkWorks then w.echo else None;
    Tracked(q, w, link, WithoutFiles(q, w, WithoutDraft(q, w, Handled(q, w, s))))
  }

  function AfterStarted(q: Request, w: World, s: Store): Store {
    Tracked(q, w, None, WithoutFiles(q, w, WithoutDraft(q, w, s)))
  }

  lemma AtMostOne(s: Store, effects: seq<Effect>)
    requires |effects| <= 1
    ensures Replay(s, effects) == if effects == [] then s else Apply(s, effects[0])
  {
    if effects != [] {
      OneEffect(s, effects[0]);
      assert effects == [effects[0]];
    }
  }

  function Resolved(w: World, resolve: Option<int>, s: Store): Store {
    if resolve.Some? && w.handleWorks then s.(handled := s.handled + {resolve.value}) else s
  }

  function Linked(w: World, token: Option<string>, s: Store): Store {
    if token.Some? && w.echo.Some? && w.linkWorks then s.(trackers := s.trackers[token.value := w.echo]) else s
  }

  lemma StepsLeave(q: Request, w: World, resolve: Option<int>, token: Option<string>, s: Store)
    ensures Replay(s, HandleStep(w, resolve)) == Resolved(w, resolve, s)
    ensures Replay(s, DraftStep(q, w)) == WithoutDraft(q, w, s)
    ensures Replay(s, FilesStep(q, w)) == WithoutFiles(q, w, s)
    ensures Replay(s, LinkStep(w, token)) == Linked(w, token, s)
  {
    AtMostOne(s, HandleStep(w, resolve));
    AtMostOne(s, DraftStep(q, w));
    AtMostOne(s, FilesStep(q, w));
    AtMostOne(s, LinkStep(w, token));
  }

  lemma FinishLeaves(q: Request, w: World, resolve: Option<int>, outcome: Note, s: Store)
    requires w.took
    ensures Replay(s, Finish(q, w, resolve, outcome).effects)
            == Linked(w, Token(q, w), WithoutFiles(q, w, WithoutDraft(q, w, Resolved(w, resolve, s))))
  {
    var token := Token(q, w);
    InSix(s, Gmail(true), HandleStep(w, resolve), DraftStep(q, w), FilesStep(q, w), Audit(outcome), LinkStep(w, token));
    var s1 := Resolved(w, resolve, s);
    var s2 := WithoutDraft(q, w, s1);
    StepsLeave(q, w, resolve, token, s);
    StepsLeave(q, w, resolve, token, s1);
    StepsLeave(q, w, resolve, token, s2);
    StepsLeave(q, w, resolve, token, WithoutFiles(q, w, s2));
  }

  /** The acceptance and the audit line change nothing; the others act one after another. */
  lemma InSix(s: Store, a: Effect, b: seq<Effect>, c: seq<Effect>, d: seq<Effect>, e: Effect, f: seq<Effect>)
    requires a == Gmail(true) && e.Audit?
    ensures Replay(s, [a] + b + c + d + [e] + f) == Replay(Replay(Replay(Replay(s, b), c), d), f)
  {
    InFour(s, a, b, c, d);
    ReplayAppend(s, [a] + b + c + d, [e]);
    ReplayAppend(s, [a] + b + c + d + [e], f);
    OneEffect(Replay(s, [a] + b + c + d), e);
  }

  lemma InFour(s: Store, a: Effect, b: seq<Effect>, c: seq<Effect>, d: seq<Effect>)
    requires a == Gmail(true)
    ensures Replay(s, [a] + b + c + d) == Replay(Replay(Replay(s, b), c), d)
  {
    ReplayAppend(s, [a], b);
    ReplayAppend(s, [a] + b, c);
    ReplayAppend(s, [a] + b + c, d);
    OneEffect(s, a);
  }

  lemma StartedLeaves(q: Request, w: World, members: nat, s: Store)
    ensures Replay(s, Started(q, w, members)) == WithoutFiles(q, w, WithoutDraft(q, w, s))
  {
    var a := [StartBatch(members)];
    ReplayAppend(s, a, DraftStep(q, w) + FilesStep(q, w));
    OneEffect(s, StartBatch(members));
    ReplayAppend(s, DraftStep(q, w), FilesStep(q, w));
    StepsLeave(q, w, None, None, s);
    StepsLeave(q, w, None, None, WithoutDraft(q, w, s));
  }

  predicate Leaves(r: Run, q: Request, w: World, s: Store) {
    match r.answer
    case Sent(_) => Replay(s, r.effects) == AfterSent(q, w, s)
    case Sending(_) => Replay(s, r.effects) == AfterStarted(q, w, s)
    case Refused(_) => true
  }

  lemma ComposeLeaves(q: Request, w: World, fits: bool, resolve: Option<int>, outcome: Note, s: Store)
    requires resolve == q.replyTo
    ensures Leaves(ComposeAndFinish(q, w, fits, resolve, outcome), q, w, s)
  {
    if fits && w.took {
      MintedLeaves(q, w, resolve, outcome, s);
    }
  }

  lemma MintedLeaves(q: Request, w: World, resolve: Option<int>, outcome: Note, s: Store)
    requires resolve == q.replyTo && w.took
    ensures Replay(s, Mint(q, w) + Finish(q, w, resolve, outcome).effects) == AfterSent(q, w, s)
  {
    MintLeaves(q, w, s);
    ReplayAppend(s, Mint(q, w), Finish(q, w, resolve, outcome).effects);
    FinishLeaves(q, w, resolve, outcome, Replay(s, Mint(q, w)));
    if Token(q, w).Some? {
      Relinked(s.trackers, w.token.value, w.echo);
    }
  }

  lemma Relinked(trackers: map<string, Option<int>>, token: string, link: Option<int>)
    ensures trackers[token := None][token := link] == trackers[token := link]
  {
  }

  lemma FanOutLeaves(q: Request, w: World, members: nat, s: Store)
    ensures Leaves(FanOutRun(q, w, members), q, w, s)
  {
    if w.startWorks {
      MintLeaves(q, w, s);
      ReplayAppend(s, Mint(q, w), Started(q, w, members));
      StartedLeaves(q, w, members, Replay(s, Mint(q, w)));
    }
  }

  lemma GuardLeaves(kinds: seq<string>, override_: bool, next: Run, q: Request, w: World, s: Store)
    requires Leaves(next, q, w, s)
    ensures Leaves(Guard(kinds, override_, next), q, w, s)
  {
    OneEffect(s, Audit(GuardOverride(kinds)));
    ReplayAppend(s, [Audit(GuardOverride(kinds))], next.effects);
  }

  lemma RecordedLeaves(q: Request, w: World, fits: bool, outcome: Note, s: Store)
    ensures Leaves(WithRecord(q, ComposeAndFinish(q, w, fits, q.replyTo, outcome)), q, w, s)
  {
    ComposeLeaves(q, w, fits, q.replyTo, outcome, s);
    RecordLeaves(ComposeAndFinish(q, w, fits, q.replyTo, outcome), q, w, s);
  }

  lemma ReplyLeaves(q: Request, w: World, s: Store)
    ensures Leaves(ReplyRun(q, w), q, w, s)
  {
    if ChosenFor(q, w).Ok? {
      var c := ChosenFor(q, w).value;
      RecordedLeaves(q, w, ReplyFits(q, w, c), ReplyOutcome(q, w, c), s);
    }
  }

  lemma RecordLeaves(r: Run, q: Request, w: World, s: Store)
    requires Leaves(r, q, w, s)
    ensures Leaves(Run(r.effects + [RecordGroup], r.answer), q, w, s)
  {
    ReplayAppend(s, r.effects, [RecordGroup]);
    OneEffect(Replay(s, r.effects), RecordGroup);
  }

  lemma GuardedLeaves(q: Request, w: World, kinds: seq<string>, fits: bool, outcome: Note, s: Store)
    requires q.replyTo.None?
    ensures Leaves(Guard(kinds, q.overrideGuard, ComposeAndFinish(q, w, fits, None, outcome)), q, w, s)
  {
    ComposeLeaves(q, w, fits, None, outcome, s);
    GuardLeaves(kinds, q.overrideGuard, ComposeAndFinish(q, w, fits, None, outcome), q, w, s);
  }

  lemma ForwardLeaves(q: Request, w: World, kinds: seq<string>, staged: nat, s: Store)
    requires q.replyTo.None?
    ensures Leaves(ForwardRun(q, w, kinds, staged), q, w, s)
  {
    if w.original.Fetched? && w.original.parsed.Some? {
      GuardedLeaves(q, w, Joined(kinds, w.original.parsed.value), ForwardFits(q, w), ForwardOutcome(q, w), s);
    }
  }

  lemma ClearedLeaves(q: Request, w: World, kinds: seq<string>, staged: nat, s: Store)
    requires q.forwardOf.None? || q.replyTo.None?
    ensures Leaves(Cleared(q, w, kinds, staged), q, w, s)
  {
    ReplyLeaves(q, w, s);
    if q.forwardOf.Some? {
      ForwardLeaves(q, w, kinds, staged, s);
    }
    if w.group.Some? {
      FanOutLeaves(q, w, |w.group.value.members|, s);
    }
  }

  /** An accepted send leaves exactly this: the reply's parent handled and no other, the draft and the
      staged files it used gone and no others, its tracker there and linked to the echo if there was one. */
  lemma AcceptedRunLeaves(q: Request, w: World, s: Store)
    ensures var r := Action(q, w);
            && (r.answer.Sent? ==> Replay(s, r.effects) == AfterSent(q, w, s))
            && (r.answer.Sending? ==> Replay(s, r.effects) == AfterStarted(q, w, s))
  {
    if Early(q).None? && w.files.Loaded? {
      var kinds := Joined(w.bodyKinds, w.files.kinds);
      ClearedLeaves(q, w, kinds, w.files.size, s);
      GuardLeaves(kinds, q.overrideGuard, Cleared(q, w, kinds, w.files.size), q, w, s);
    }
    assert Leaves(Action(q, w), q, w, s);
  }
}
