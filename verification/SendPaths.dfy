/** `action_send` from the outside: the checks in the order they are made, each with its answer and its
    audit line; which path an accepted request takes; and exactly what an accepted run does. */
module SendPaths {
  import opened Wrappers
  import opened Text
  import opened Seqs
  import opened Addresses
  import opened Recipients
  import opened SendAction
  import SendAudience
  import SendLedger
  import SendTokens

  // ---- The checks, in order ------------------------------------------------------------------

  /** A condition under which a request is refused, the audit line, if there is one, and the status. */
  datatype Check = Check(fails: bool, note: Option<Note>, status: nat)

  function FirstFailing(checks: seq<Check>): Option<Check> {
    if checks == [] then None
    else if checks[0].fails then Some(checks[0])
    else FirstFailing(checks[1..])
  }

  function Bad(fails: bool, note: Note): Check {
    Check(fails, Some(note), 400)
  }

  /** What the request alone is refused for. */
  function RequestChecks(q: Request): seq<Check> {
    [Bad(!q.confirm, RejectedConfirm),
     Bad(q.forwardOf.Some? && q.replyTo.Some?, RejectedForwardAndReply),
     Bad(q.forwardOf.None? && IsBlank(q.body), RejectedEmptyBody),
     Bad(q.forwardOf.Some? && IsBlank(q.to.GetOr("")), RejectedNoRecipient),
     Bad(q.replyAll && q.replyTo.None?, RejectedReplyAllNoParent),
     Bad(HasGroupToken(q.to) || HasGroupToken(q.bcc), RejectedUnresolvedGroup),
     Bad(q.groupId.Some? && (q.replyTo.Some? || q.forwardOf.Some?), RejectedGroupOnReply)]
  }

  function FileChecks(w: World): seq<Check> {
    [Check(w.files.FilesUnreadable?, None, 500),
     Bad(w.files.FilesRefused?, RejectedFiles(if w.files.FilesRefused? then w.files.reason else ""))]
  }

  function GuardCheck(q: Request, kinds: seq<string>): Check {
    Check(kinds != [] && !q.overrideGuard, Some(BlockedGuard), 422)
  }

  function CredentialCheck(w: World): Check {
    Check(!w.hasCredential, Some(RejectedNoWriteCredential), 403)
  }

  /** Building and handing over to Gmail. */
  function LastChecks(w: World, fits: bool): seq<Check> {
    [Bad(!fits, RejectedCompose), Check(!w.took, Some(FailedGmail), 502)]
  }

  function StagedSize(w: World): nat {
    if w.files.Loaded? then w.files.size else 0
  }

  function OriginalSize(w: World): nat {
    if w.original.Fetched? then w.original.size else 0
  }

  function FetchChecks(w: World): seq<Check> {
    [CredentialCheck(w),
     Check(w.parentFrom.None?, Some(FailedTarget), 404),
     Check(w.original.FetchNoCredential?, Some(RejectedNoWriteCredential), 403),
     Check(OriginalSize(w) + StagedSize(w) > 20 * 1024 * 1024, Some(RejectedTooLarge), 413),
     Check(OriginalSize(w) == 0 || (w.original.Fetched? && w.original.parsed.None?), Some(FailedFetchOriginal), 502)]
  }

  function BehindFetch(q: Request, w: World): seq<Check> {
    [GuardCheck(q, Scanned(q, w))] + LastChecks(w, ForwardFits(q, w))
  }

  function ForwardChecks(q: Request, w: World): seq<Check> {
    FetchChecks(w) + BehindFetch(q, w)
  }

  /** Whether this is one mail to each member of a group. */
  predicate FansOut(q: Request, w: World) {
    q.forwardOf.None? && q.groupId.Some? && w.group.Some? && w.group.value.individual
  }

  function Known(q: Request, w: World): Check {
    Check(q.groupId.Some? && w.group.None?, None, 404)
  }

  function Peopled(q: Request, w: World): Check {
    Check(q.groupId.Some? && w.group.Some? && w.group.value.members == [], None, 400)
  }

  function GroupChecks(q: Request, w: World): seq<Check> {
    [Known(q, w), Peopled(q, w)]
  }

  function ParentChecks(q: Request, w: World): seq<Check> {
    [Check(q.replyTo.Some? && w.parentFrom.None?, Some(FailedTarget), 404),
     Check(q.replyTo.Some? && w.headers.None? && q.replyAll, Some(FailedGmail), 502),
     Bad(ChosenFor(q, w).Err?, RejectedNoRecipient)]
  }

  function BehindChoice(q: Request, w: World): seq<Check> {
    LastChecks(w, ChosenFor(q, w).Ok? && ReplyFits(q, w, ChosenFor(q, w).value))
  }

  function ReplyChecks(q: Request, w: World): seq<Check> {
    ParentChecks(q, w) + BehindChoice(q, w)
  }

  function SingleOrBatch(q: Request, w: World): seq<Check> {
    if FansOut(q, w) then [Check(!w.startWorks, Some(FailedFanOutStart), 500)] else ReplyChecks(q, w)
  }

  function PathChecks(q: Request, w: World): seq<Check> {
    if q.forwardOf.Some? then ForwardChecks(q, w)
    else [GuardCheck(q, Scanned(q, w)), CredentialCheck(w)] + (GroupChecks(q, w) + SingleOrBatch(q, w))
  }

  function Checks(q: Request, w: World): seq<Check> {
    RequestChecks(q) + (FileChecks(w) + PathChecks(q, w))
  }

  /** The run is refused by the first check that fails, with its status and, last, its audit line; where
      that has none, nothing but an override is written down. */
  predicate Agrees(r: Run, checks: seq<Check>) {
    match FirstFailing(checks)
    case None => !r.answer.Refused?
    case Some(c) =>
      && r.answer == Refused(c.status)
      && (c.note.Some? ==> r.effects != [] && r.effects[|r.effects| - 1] == Audit(c.note.value))
      && (c.note.None? ==> forall i :: 0 <= i < |r.effects| ==> r.effects[i].Audit? && r.effects[i].note.GuardOverride?)
  }

  // ---- One check after another ---------------------------------------------------------------

  lemma Passing(c: Check, checks: seq<Check>)
    ensures FirstFailing([c] + checks) == if c.fails then Some(c) else FirstFailing(checks)
  {
    assert ([c] + checks)[1..] == checks;
  }

  lemma OneCheck(c: Check, r: Run, checks: seq<Check>)
    requires c.note.Some?
    requires if c.fails then r == Refuse(c.note.value, c.status) else Agrees(r, checks)
    ensures Agrees(r, [c] + checks)
  {
    Passing(c, checks);
  }

  lemma SilentCheck(c: Check, r: Run, checks: seq<Check>)
    requires c.note.None?
    requires if c.fails then r == Run([], Refused(c.status)) else Agrees(r, checks)
    ensures Agrees(r, [c] + checks)
  {
    Passing(c, checks);
  }

  lemma {:induction false} SeveralChecks(checks: seq<Check>, r: Run, rest: seq<Check>)
    requires forall i :: 0 <= i < |checks| ==> checks[i].note.Some?
    requires match FirstFailing(checks)
             case Some(c) => c.note.Some? && r == Refuse(c.note.value, c.status)
             case None => Agrees(r, rest)
    ensures Agrees(r, checks + rest)
  {
    if checks == [] {
      NilLeft(checks, rest);
    } else {
      if !checks[0].fails {
        SeveralChecks(checks[1..], r, rest);
      }
      OneCheck(checks[0], r, checks[1..] + rest);
      assert checks + rest == [checks[0]] + (checks[1..] + rest);
    }
  }

  lemma ThreeChecks(a: Check, b: Check, c: Check)
    ensures FirstFailing([a, b, c]) == if a.fails then Some(a) else if b.fails then Some(b) else if c.fails then Some(c) else None
  {
    Passing(c, []);
    Passing(b, [c]);
    Passing(a, [b, c]);
    assert [c] + [] == [c] && [b] + [c] == [b, c] && [a] + [b, c] == [a, b, c];
  }

  lemma FiveChecks(a: Check, b: Check, c: Check, d: Check, e: Check)
    ensures FirstFailing([a, b, c, d, e])
            == if a.fails then Some(a) else if b.fails then Some(b) else if c.fails then Some(c) else if d.fails then Some(d)
               else if e.fails then Some(e) else None
  {
    ThreeChecks(c, d, e);
    Passing(b, [c, d, e]);
    Passing(a, [b, c, d, e]);
    assert [b] + [c, d, e] == [b, c, d, e] && [a] + [b, c, d, e] == [a, b, c, d, e];
  }

  lemma GuardAgrees(q: Request, kinds: seq<string>, next: Run, checks: seq<Check>)
    requires Agrees(next, checks)
    ensures Agrees(Guard(kinds, q.overrideGuard, next), [GuardCheck(q, kinds)] + checks)
  {
    Passing(GuardCheck(q, kinds), checks);
    if kinds != [] && q.overrideGuard && next.effects != [] {
      var all := [Audit(GuardOverride(kinds))] + next.effects;
      assert all[|all| - 1] == next.effects[|next.effects| - 1];
    }
  }

  lemma LastOfThree(a: seq<Effect>, b: seq<Effect>, last: Effect)
    ensures a + (b + [last]) != [] && (a + (b + [last]))[|a + (b + [last])| - 1] == last
  {
  }

  lemma ComposeAgrees(q: Request, w: World, fits: bool, resolve: Option<int>, outcome: Note)
    ensures Agrees(ComposeAndFinish(q, w, fits, resolve, outcome), LastChecks(w, fits))
  {
    var compose, gmail := Bad(!fits, RejectedCompose), Check(!w.took, Some(FailedGmail), 502);
    assert LastChecks(w, fits) == [compose] + ([gmail] + []);
    Passing(gmail, []);
    Passing(compose, [gmail] + []);
    LastOfThree(Mint(q, w), Discard(w, Token(q, w)), Audit(RejectedCompose));
    LastOfThree(Mint(q, w), [Gmail(false)] + Discard(w, Token(q, w)), Audit(FailedGmail));
  }

  lemma RecordAgrees(q: Request, r: Run, checks: seq<Check>)
    requires Agrees(r, checks)
    ensures Agrees(WithRecord(q, r), checks)
  {
  }

  lemma ReplyAgrees(q: Request, w: World)
    ensures Agrees(ReplyRun(q, w), ReplyChecks(q, w))
  {
    ReplyIsFirst(q, w);
    SeveralChecks(ParentChecks(q, w), ReplyRun(q, w), BehindChoice(q, w));
  }

  lemma ReplyIsFirst(q: Request, w: World)
    ensures match FirstFailing(ParentChecks(q, w))
            case Some(c) => c.note.Some? && ReplyRun(q, w) == Refuse(c.note.value, c.status)
            case None => Agrees(ReplyRun(q, w), BehindChoice(q, w))
  {
    var k := ParentChecks(q, w);
    ThreeChecks(k[0], k[1], k[2]);
    assert k == [k[0], k[1], k[2]];
    if ChosenFor(q, w).Ok? {
      ChosenAgrees(q, w);
    }
  }

  lemma ChosenAgrees(q: Request, w: World)
    ensures ChosenFor(q, w).Ok? ==>
              var c := ChosenFor(q, w).value;
              Agrees(WithRecord(q, ComposeAndFinish(q, w, ReplyFits(q, w, c), q.replyTo, ReplyOutcome(q, w, c))),
                     LastChecks(w, ReplyFits(q, w, c)))
  {
    if ChosenFor(q, w).Ok? {
      var c := ChosenFor(q, w).value;
      ComposeAgrees(q, w, ReplyFits(q, w, c), q.replyTo, ReplyOutcome(q, w, c));
      RecordAgrees(q, ComposeAndFinish(q, w, ReplyFits(q, w, c), q.replyTo, ReplyOutcome(q, w, c)), LastChecks(w, ReplyFits(q, w, c)));
    }
  }

  lemma FanOutAgrees(q: Request, w: World, members: nat)
    ensures Agrees(FanOutRun(q, w, members), [Check(!w.startWorks, Some(FailedFanOutStart), 500)])
  {
    var start := Check(!w.startWorks, Some(FailedFanOutStart), 500);
    assert [start] == [start] + [];
    Passing(start, []);
    LastOfThree(Mint(q, w), Discard(w, Token(q, w)), Audit(FailedFanOutStart));
  }

  /** Behind the fetch: the guard over everything, then building and sending. */
  lemma FetchedAgrees(q: Request, w: World, kinds: seq<string>)
    ensures Agrees(Guard(kinds, q.overrideGuard, ComposeAndFinish(q, w, ForwardFits(q, w), None, ForwardOutcome(q, w))),
                   [GuardCheck(q, kinds)] + LastChecks(w, ForwardFits(q, w)))
  {
    ComposeAgrees(q, w, ForwardFits(q, w), None, ForwardOutcome(q, w));
    GuardAgrees(q, kinds, ComposeAndFinish(q, w, ForwardFits(q, w), None, ForwardOutcome(q, w)), LastChecks(w, ForwardFits(q, w)));
  }

  lemma FetchIsFirst(q: Request, w: World, kinds: seq<string>)
    requires q.forwardOf.Some?
    ensures match FirstFailing(FetchChecks(w))
            case Some(c) => c.note.Some? && Cleared(q, w, kinds, StagedSize(w)) == Refuse(c.note.value, c.status)
            case None => w.original.Fetched? && w.original.parsed.Some?
                         && Cleared(q, w, kinds, StagedSize(w))
                            == Guard(Joined(kinds, w.original.parsed.value), q.overrideGuard,
                                     ComposeAndFinish(q, w, ForwardFits(q, w), None, ForwardOutcome(q, w)))
  {
    var k := FetchChecks(w);
    FiveChecks(k[0], k[1], k[2], k[3], k[4]);
    assert k == [k[0], k[1], k[2], k[3], k[4]];
  }

  lemma FetchThenGuard(q: Request, w: World)
    requires q.forwardOf.Some? && w.files.Loaded?
    ensures match FirstFailing(FetchChecks(w))
            case Some(c) => c.note.Some? && Cleared(q, w, Joined(w.bodyKinds, w.files.kinds), w.files.size) == Refuse(c.note.value, c.status)
            case None => Agrees(Cleared(q, w, Joined(w.bodyKinds, w.files.kinds), w.files.size), BehindFetch(q, w))
  {
    FetchIsFirst(q, w, Joined(w.bodyKinds, w.files.kinds));
    FetchedAgrees(q, w, Scanned(q, w));
  }

  lemma ForwardAgrees(q: Request, w: World, r: Run)
    requires q.forwardOf.Some? && w.files.Loaded? && r == Cleared(q, w, Joined(w.bodyKinds, w.files.kinds), w.files.size)
    ensures Agrees(r, ForwardChecks(q, w))
  {
    FetchThenGuard(q, w);
    SeveralChecks(FetchChecks(w), r, BehindFetch(q, w));
  }

  lemma SingleOrBatchAgrees(q: Request, w: World, kinds: seq<string>, staged: nat)
    requires q.forwardOf.None? && w.hasCredential && !Known(q, w).fails && !Peopled(q, w).fails
    ensures Agrees(Cleared(q, w, kinds, staged), SingleOrBatch(q, w))
  {
    if FansOut(q, w) {
      FanOutAgrees(q, w, |w.group.value.members|);
    } else {
      ReplyAgrees(q, w);
    }
  }

  lemma GroupAgrees(q: Request, w: World, r: Run, rest: seq<Check>)
    requires if Known(q, w).fails then r == Run([], Refused(404))
             else if Peopled(q, w).fails then r == Run([], Refused(400))
             else Agrees(r, rest)
    ensures Agrees(r, GroupChecks(q, w) + rest)
  {
    if !Known(q, w).fails {
      SilentCheck(Peopled(q, w), r, rest);
    }
    SilentCheck(Known(q, w), r, [Peopled(q, w)] + rest);
    assert GroupChecks(q, w) + rest == [Known(q, w)] + ([Peopled(q, w)] + rest);
  }

  lemma SendAgrees(q: Request, w: World, kinds: seq<string>, staged: nat)
    requires q.forwardOf.None?
    ensures Agrees(Cleared(q, w, kinds, staged), [CredentialCheck(w)] + (GroupChecks(q, w) + SingleOrBatch(q, w)))
  {
    var r := Cleared(q, w, kinds, staged);
    if w.hasCredential {
      if !Known(q, w).fails && !Peopled(q, w).fails {
        SingleOrBatchAgrees(q, w, kinds, staged);
      }
      GroupAgrees(q, w, r, SingleOrBatch(q, w));
    }
    OneCheck(CredentialCheck(w), r, GroupChecks(q, w) + SingleOrBatch(q, w));
  }

  lemma GuardedAgrees(q: Request, w: World, kinds: seq<string>, next: Run, rest: seq<Check>)
    requires Agrees(next, [CredentialCheck(w)] + rest)
    ensures Agrees(Guard(kinds, q.overrideGuard, next), [GuardCheck(q, kinds), CredentialCheck(w)] + rest)
  {
    GuardAgrees(q, kinds, next, [CredentialCheck(w)] + rest);
    assert [GuardCheck(q, kinds), CredentialCheck(w)] + rest == [GuardCheck(q, kinds)] + ([CredentialCheck(w)] + rest);
  }

  lemma PathAgrees(q: Request, w: World)
    requires Early(q).None? && w.files.Loaded?
    ensures Agrees(Action(q, w), PathChecks(q, w))
  {
    var kinds := Joined(w.bodyKinds, w.files.kinds);
    var next := Cleared(q, w, kinds, w.files.size);
    if q.forwardOf.Some? {
      ForwardAgrees(q, w, next);
    } else {
      SendAgrees(q, w, kinds, w.files.size);
      GuardedAgrees(q, w, kinds, next, GroupChecks(q, w) + SingleOrBatch(q, w));
    }
  }

  lemma FilesAgree(q: Request, w: World)
    requires Early(q).None?
    ensures Agrees(Action(q, w), FileChecks(w) + PathChecks(q, w))
  {
    if w.files.Loaded? {
      PathAgrees(q, w);
    }
    LoadedAgrees(w, Action(q, w), PathChecks(q, w));
  }

  lemma LoadedAgrees(w: World, r: Run, rest: seq<Check>)
    requires match w.files
             case FilesUnreadable => r == Run([], Refused(500))
             case FilesRefused(reason) => r == Refuse(RejectedFiles(reason), 400)
             case Loaded(_, _) => Agrees(r, rest)
    ensures Agrees(r, FileChecks(w) + rest)
  {
    var readable, taken := FileChecks(w)[0], FileChecks(w)[1];
    if !readable.fails {
      OneCheck(taken, r, rest);
    }
    SilentCheck(readable, r, [taken] + rest);
    assert FileChecks(w) + rest == [readable] + ([taken] + rest);
  }

  lemma SevenChecks(a: Check, b: Check, c: Check, d: Check, e: Check, f: Check, g: Check)
    ensures FirstFailing([a, b, c, d, e, f, g])
            == if a.fails then Some(a) else if b.fails then Some(b) else if c.fails then Some(c) else if d.fails then Some(d)
               else if e.fails then Some(e) else if f.fails then Some(f) else if g.fails then Some(g) else None
  {
    Passing(g, []);
    Passing(f, [g]);
    Passing(e, [f, g]);
    Passing(d, [e, f, g]);
    Passing(c, [d, e, f, g]);
    Passing(b, [c, d, e, f, g]);
    Passing(a, [b, c, d, e, f, g]);
    assert [g] + [] == [g] && [f] + [g] == [f, g] && [e] + [f, g] == [e, f, g] && [d] + [e, f, g] == [d, e, f, g];
    assert [c] + [d, e, f, g] == [c, d, e, f, g] && [b] + [c, d, e, f, g] == [b, c, d, e, f, g];
    assert [a] + [b, c, d, e, f, g] == [a, b, c, d, e, f, g];
  }

  lemma EarlyIsFirst(q: Request)
    ensures match FirstFailing(RequestChecks(q))
            case Some(c) => c.note.Some? && Early(q) == Some(Refuse(c.note.value, c.status))
            case None => Early(q).None?
  {
    var k := RequestChecks(q);
    SevenChecks(k[0], k[1], k[2], k[3], k[4], k[5], k[6]);
    assert k == [k[0], k[1], k[2], k[3], k[4], k[5], k[6]];
  }

  /** A request is refused exactly when one of the checks fails, by the first that does; otherwise it is
      accepted. */
  lemma RefusedByTheFirst(q: Request, w: World)
    ensures Agrees(Action(q, w), Checks(q, w))
  {
    if Early(q).None? {
      FilesAgree(q, w);
    }
    StatedAgrees(q, Action(q, w), FileChecks(w) + PathChecks(q, w));
  }

  lemma StatedAgrees(q: Request, r: Run, rest: seq<Check>)
    requires if Early(q).Some? then r == Early(q).value else Agrees(r, rest)
    ensures Agrees(r, RequestChecks(q) + rest)
  {
    EarlyIsFirst(q);
    SeveralChecks(RequestChecks(q), r, rest);
  }

  // ---- Which path ----------------------------------------------------------------------------

  /** An accepted request is a batch exactly when it names a group that is written to one by one: the batch
      is as large as the group. */
  lemma BatchOrSingle(q: Request, w: World)
    requires !Action(q, w).answer.Refused?
    ensures Action(q, w).answer.Sending? <==> q.groupId.Some? && w.group.Some? && w.group.value.individual
    ensures Action(q, w).answer.Sending? ==> Action(q, w).answer.members == |w.group.value.members| > 0
    ensures Action(q, w).answer.Sent? && q.groupId.Some? ==> w.group.Some? && !w.group.value.individual
  {
    var kinds := Joined(w.bodyKinds, w.files.kinds);
    assert Early(q).None? && w.files.Loaded?;
    var next := Cleared(q, w, kinds, w.files.size);
    if q.forwardOf.None? {
      GuardPasses(kinds, q.overrideGuard, next);
      NeverBatch(q, w);
    } else {
      ForwardIsSingle(q, w, kinds, w.files.size);
    }
  }

  /** What the guard lets through goes on as it is, an override written down ahead of it. */
  lemma GuardPasses(kinds: seq<string>, override_: bool, next: Run)
    ensures var r := Guard(kinds, override_, next);
            !r.answer.Refused? ==>
              r.answer == next.answer && r.effects == (if kinds == [] then [] else [Audit(GuardOverride(kinds))]) + next.effects
  {
    NilLeft([], next.effects);
  }

  lemma NeverBatch(q: Request, w: World)
    ensures !ReplyRun(q, w).answer.Sending?
  {
  }

  lemma ForwardIsSingle(q: Request, w: World, kinds: seq<string>, staged: nat)
    ensures !ForwardRun(q, w, kinds, staged).answer.Sending?
  {
    if w.original.Fetched? && w.original.parsed.Some? {
      GuardPasses(Joined(kinds, w.original.parsed.value), q.overrideGuard,
                  ComposeAndFinish(q, w, ForwardFits(q, w), None, ForwardOutcome(q, w)));
    }
  }

  /** A message to a group that is written to one by one, with a text and nothing else. */
  function ToGroup(group: int): Request {
    Request(true, None, None, None, None, None, false, Some(group), "a", [], false, false, None)
  }

  /** Where nothing stands in the way it starts the batch. */
  lemma GroupIsStarted(w: World, group: int)
    requires SendTokens.Smooth(w) && w.startWorks && w.group.Some? && w.group.value.individual && w.group.value.members != []
    ensures Action(ToGroup(group), w).answer == Sending(|w.group.value.members|)
  {
    var q := ToGroup(group);
    SendTokens.NotBlank();
    assert Early(q).None?;
    assert Joined([], []) == [];
  }

  /** A plain reply in which no recipient is stated goes to the parent's `Reply-To` when it names anybody,
      else to its `From`; its copies, with none stated, are nobody. */
  lemma PlainReplyGoesTo(q: Request, w: World)
    requires q.replyTo.Some? && w.headers.Some? && !q.replyAll && IsBlank(q.to.GetOr(""))
    ensures var replyTo, from := Listed(w.headers.value.replyTo, w.lib), Listed(w.headers.value.from, w.lib);
            var list := if replyTo != [] then replyTo else from;
            list != [] ==> ChosenFor(q, w).Ok? && ChosenFor(q, w).value.to == JoinComma(list)
                           && (q.cc.None? ==> ChosenFor(q, w).value.cc == "")
  {
    var derived := Derive(w.headers.value, OwnOf(w.own.GetOr("")), false, w.lib);
    ReplyGoesTo(w.headers.value, OwnOf(w.own.GetOr("")), w.lib);
    if derived.to != [] {
      DerivedIsChosen(SendAudience.Requested(q.to, q.cc, q.bcc), derived, w.parentFrom, w.own, w.lib);
    }
  }

  lemma DerivedIsChosen(r: SendAudience.Requested, derived: Audience, parentFrom: Option<string>, own: Option<string>, lib: Library)
    requires IsBlank(r.to.GetOr("")) && derived.to != [] && AllEmittable(derived.to) && derived.cc == []
    ensures var chosen := SendAudience.Choose(r, Some(Recipients.Recipients(derived)), parentFrom, own, lib);
            chosen.Ok? && chosen.value.to == JoinComma(derived.to) && (r.cc.None? ==> chosen.value.cc == "")
  {
    JoinedIsBlank(derived.to);
    SendAudience.WhoIsChosen(r, Some(Recipients.Recipients(derived)), parentFrom, own, lib);
    assert ParseAddrList("", lib) == [];
  }

  // ---- What an accepted run does -------------------------------------------------------------

  function Overridden(q: Request, w: World): seq<Effect> {
    if Scanned(q, w) == [] then [] else [Audit(GuardOverride(Scanned(q, w)))]
  }

  /** The tracker that was minted: asked for, configured, random enough and stored. */
  function TrackerOf(q: Request, w: World): Option<string> {
    if q.wantsTracker && w.trackingConfigured && w.insertWorks then w.token else None
  }

  function Minted(q: Request, w: World): seq<Effect> {
    if !q.wantsTracker || !w.trackingConfigured then []
    else if TrackerOf(q, w).Some? then [InsertTracker(TrackerOf(q, w).value), Audit(TrackerMinted)]
    else [Audit(if w.token.None? then TrackerNoEntropy else TrackerNotStored)]
  }

  function DraftGone(q: Request, w: World): seq<Effect> {
    if q.draftId.Some? && w.draftWorks then [DropDraft(q.draftId.value)] else []
  }

  function FilesGone(q: Request, w: World): seq<Effect> {
    if w.filesWork then [DropFiles(q.fileIds)] else []
  }

  /** From Gmail on: the mail, the parent handled, the draft gone, the files gone, the outcome written down,
      the tracker linked to the echo, the group recorded. */
  function Delivered(q: Request, w: World): seq<Effect> {
    [Gmail(true)] + (if q.replyTo.Some? && w.handleWorks then [Handle(q.replyTo.value)] else [])
    + DraftGone(q, w) + FilesGone(q, w) + [Audit(SendLedger.OutcomeOf(q, w))]
    + (if TrackerOf(q, w).Some? && w.echo.Some? && w.linkWorks then [LinkTracker(TrackerOf(q, w).value, w.echo.value)] else [])
    + (if q.groupId.Some? then [RecordGroup] else [])
  }

  lemma ComposeDelivers(q: Request, w: World, fits: bool)
    requires q.groupId.None? && ComposeAndFinish(q, w, fits, q.replyTo, SendLedger.OutcomeOf(q, w)).answer.Sent?
    ensures ComposeAndFinish(q, w, fits, q.replyTo, SendLedger.OutcomeOf(q, w))
            == Run(Minted(q, w) + Delivered(q, w), Sent(w.echo))
  {
    MintIs(q, w);
    FinishIs(q, w);
    NilRight(Finish(q, w, q.replyTo, SendLedger.OutcomeOf(q, w)).effects);
  }

  lemma MintIs(q: Request, w: World)
    ensures Mint(q, w) == Minted(q, w) && Token(q, w) == TrackerOf(q, w)
  {
  }

  lemma FinishIs(q: Request, w: World)
    requires w.took
    ensures Finish(q, w, q.replyTo, SendLedger.OutcomeOf(q, w)).answer == Sent(w.echo)
    ensures Finish(q, w, q.replyTo, SendLedger.OutcomeOf(q, w)).effects + (if q.groupId.Some? then [RecordGroup] else [])
            == Delivered(q, w)
  {
    MintIs(q, w);
  }

  lemma ReplyDelivers(q: Request, w: World)
    requires ReplyRun(q, w).answer.Sent? && q.forwardOf.None?
    ensures ReplyRun(q, w) == Run(Minted(q, w) + Delivered(q, w), Sent(w.echo))
  {
    var c := ChosenFor(q, w).value;
    var outcome := ReplyOutcome(q, w, c);
    assert SendLedger.OutcomeOf(q, w) == outcome;
    var r := ComposeAndFinish(q, w, ReplyFits(q, w, c), q.replyTo, outcome);
    MintIs(q, w);
    FinishIs(q, w);
    assert r.effects == Mint(q, w) + Finish(q, w, q.replyTo, outcome).effects;
    Assoc(Mint(q, w), Finish(q, w, q.replyTo, outcome).effects, [RecordGroup]);
    NilRight(Finish(q, w, q.replyTo, outcome).effects);
  }

  /** An accepted single send is exactly this, in this order. */
  lemma SentRunIs(q: Request, w: World)
    requires Action(q, w).answer.Sent?
    ensures Action(q, w) == Run(Overridden(q, w) + (Minted(q, w) + Delivered(q, w)), Sent(w.echo))
  {
    var kinds := Joined(w.bodyKinds, w.files.kinds);
    var next := Cleared(q, w, kinds, w.files.size);
    if q.forwardOf.Some? {
      ForwardDelivers(q, w, kinds, w.files.size);
    } else {
      GuardPasses(kinds, q.overrideGuard, next);
      assert next.answer.Sent? && ReplyRun(q, w).answer.Sent?;
      ReplyDelivers(q, w);
    }
  }

  lemma ForwardDelivers(q: Request, w: World, kinds: seq<string>, staged: nat)
    requires q.forwardOf.Some? && q.replyTo.None? && q.groupId.None? && w.files.Loaded?
    requires kinds == Joined(w.bodyKinds, w.files.kinds) && ForwardRun(q, w, kinds, staged).answer.Sent?
    ensures ForwardRun(q, w, kinds, staged) == Run(Overridden(q, w) + (Minted(q, w) + Delivered(q, w)), Sent(w.echo))
  {
    var all := Joined(kinds, w.original.parsed.value);
    var next := ComposeAndFinish(q, w, ForwardFits(q, w), None, ForwardOutcome(q, w));
    assert ForwardRun(q, w, kinds, staged) == Guard(all, q.overrideGuard, next);
    GuardPasses(all, q.overrideGuard, next);
    ComposeDelivers(q, w, ForwardFits(q, w));
    assert all == Scanned(q, w);
  }

  /** And a started batch is exactly this: the tracker, the batch, the draft and the files. */
  lemma StartedRunIs(q: Request, w: World)
    requires Action(q, w).answer.Sending? && w.group.Some?
    ensures Action(q, w)
            == Run(Overridden(q, w) + (Minted(q, w) + ([StartBatch(|w.group.value.members|)] + (DraftGone(q, w) + FilesGone(q, w)))),
                   Sending(|w.group.value.members|))
  {
    BatchOrSingle(q, w);
    var kinds := Joined(w.bodyKinds, w.files.kinds);
    var next := Cleared(q, w, kinds, w.files.size);
    GuardPasses(kinds, q.overrideGuard, next);
    MintIs(q, w);
  }
}
