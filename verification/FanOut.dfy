/** A fan-out: one message per member of a group, each outcome written to its own row as it happens.
    What the rows say is compared with what Gmail took at every point where the job could die. */
module FanOut {
  import opened Wrappers
  import opened Seqs

  datatype Status = Pending | Sent | Failed

  datatype Row = Row(status: Status, messageId: Option<int>, error: Option<string>)

  /** One recipient row of one batch. */
  datatype Key = Key(batch: nat, addr: string)

  /** What came of one attempt: Gmail took it (the echo may be missing), or it could not be composed
      or was refused. */
  datatype Outcome = Accepted(echo: Option<int>) | Refused(reason: string)

  datatype Audit = Started(recipients: nat) | Finished(sent: nat, total: nat)

  const NO_CREDENTIAL: string := "write credential unavailable"
  const PENDING_ROW := Row(Pending, None, None)

  type Rows = map<Key, Row>

  /** The store and the mails accepted, at one point of the run. */
  datatype Point = Point(rows: Rows, accepted: seq<string>)

  predicate Distinct(audience: seq<string>) {
    forall i, j :: 0 <= i < j < |audience| ==> audience[i] != audience[j]
  }

  // ---- What the rows say ---------------------------------------------------------------------

  function StatusOf(rows: Rows, batch: nat, addr: string): Option<Status> {
    if Key(batch, addr) in rows then Some(rows[Key(batch, addr)].status) else None
  }

  function Count(rows: Rows, batch: nat, audience: seq<string>, status: Status): nat {
    if audience == [] then 0
    else
      var n := |audience| - 1;
      Count(rows, batch, audience[..n], status) + if StatusOf(rows, batch, audience[n]) == Some(status) then 1 else 0
  }

  predicate Complete(rows: Rows, batch: nat, audience: seq<string>) {
    forall i :: 0 <= i < |audience| ==> Key(batch, audience[i]) in rows
  }

  /** Sent, failed and pending rows add up to the audience. */
  lemma {:induction false} RowsAddUp(rows: Rows, batch: nat, audience: seq<string>)
    requires Complete(rows, batch, audience)
    ensures Count(rows, batch, audience, Sent) + Count(rows, batch, audience, Failed) + Count(rows, batch, audience, Pending)
            == |audience|
  {
    if audience != [] {
      var n := |audience| - 1;
      assert Complete(rows, batch, audience[..n]);
      RowsAddUp(rows, batch, audience[..n]);
      match rows[Key(batch, audience[n])].status {
        case Pending =>
        case Sent =>
        case Failed =>
      }
    }
  }

  /** Nothing about any other batch differs. */
  predicate OthersKept(a: Rows, b: Rows, batch: nat) {
    && (forall key :: key in a && key.batch != batch ==> key in b && b[key] == a[key])
    && (forall key :: key in b && key.batch != batch ==> key in a)
  }

  /** Every pending row failed, of whatever batch, and no other row touched. */
  function AllFailed(rows: Rows, reason: string): (r: Rows)
    ensures r.Keys == rows.Keys
    ensures forall key <- rows :: rows[key].status != Pending ==> r[key] == rows[key]
    ensures forall key <- rows :: rows[key].status == Pending ==> r[key] == Row(Failed, None, Some(reason))
  {
    map key | key in rows :: if rows[key].status == Pending then Row(Failed, None, Some(reason)) else rows[key]
  }

  /** Nothing of any other batch is pending. */
  predicate OnlyOnePending(rows: Rows, batch: nat) {
    forall key <- rows :: key.batch != batch ==> rows[key].status != Pending
  }

  /** Failing what is pending keeps to one batch exactly when no other batch has anything pending. */
  lemma FailingKeepsToTheBatch(rows: Rows, batch: nat, reason: string)
    ensures OthersKept(rows, AllFailed(rows, reason), batch) <==> OnlyOnePending(rows, batch)
  {
    var failed := AllFailed(rows, reason);
    forall key | key in rows && key.batch != batch && rows[key].status == Pending ensures failed[key] != rows[key] {
      assert failed[key].status == Failed;
    }
  }

  /** Two batches under way: giving up on the first fails a recipient of the second, whose own job still
      has its mail to send. */
  lemma AnotherBatchFails(batch: nat, other: nat, a: string, b: string, reason: string)
    requires batch != other
    ensures var rows := map[Key(batch, a) := PENDING_ROW, Key(other, b) := PENDING_ROW];
            && StatusOf(AllFailed(rows, reason), other, b) == Some(Failed)
            && !OthersKept(rows, AllFailed(rows, reason), batch)
  {
    var rows := map[Key(batch, a) := PENDING_ROW, Key(other, b) := PENDING_ROW];
    assert Key(other, b) in rows && rows[Key(other, b)].status == Pending;
    FailingKeepsToTheBatch(rows, batch, reason);
  }

  /** The rows once a batch is recorded. */
  function Recorded(rows: Rows, batch: nat, audience: seq<string>): (r: Rows)
    ensures OthersKept(rows, r, batch)
    ensures forall i :: 0 <= i < |audience| ==> Key(batch, audience[i]) in r && r[Key(batch, audience[i])] == PENDING_ROW
  {
    if audience == [] then rows
    else
      var n := |audience| - 1;
      Recorded(rows, batch, audience[..n])[Key(batch, audience[n]) := PENDING_ROW]
  }

  lemma RecordedKeepsOthers(rows: Rows, batch: nat, audience: seq<string>)
    ensures OnlyOnePending(Recorded(rows, batch, audience), batch) <==> OnlyOnePending(rows, batch)
  {
    assert OthersKept(rows, Recorded(rows, batch, audience), batch);
  }

  lemma ThroughRecorded(rows: Rows, then_: Rows, batch: nat, audience: seq<string>)
    ensures OthersKept(Recorded(rows, batch, audience), then_, batch) <==> OthersKept(rows, then_, batch)
  {
    assert OthersKept(rows, Recorded(rows, batch, audience), batch);
  }

  // ---- What should have happened -------------------------------------------------------------

  type Mailer = string -> Outcome

  /** Whether the write of one recipient's outcome succeeds. */
  type Writes = string -> bool

  function Settled(outcome: Outcome): Row {
    match outcome
    case Accepted(echo) => Row(Sent, echo, None)
    case Refused(reason) => Row(Failed, None, Some(reason))
  }

  /** Those of the audience Gmail took, in order. */
  function Taken(audience: seq<string>, mail: Mailer): seq<string> {
    if audience == [] then []
    else
      var n := |audience| - 1;
      Taken(audience[..n], mail) + if mail(audience[n]).Accepted? then [audience[n]] else []
  }

  /** How many outcomes could not be written. */
  function Lost(audience: seq<string>, works: Writes): nat {
    if audience == [] then 0
    else Lost(audience[..|audience| - 1], works) + if works(audience[|audience| - 1]) then 0 else 1
  }

  /** The rows when the first `n` of the audience have been walked. */
  predicate WalkedTo(rows: Rows, batch: nat, audience: seq<string>, n: nat, mail: Mailer, works: Writes)
    requires n <= |audience|
  {
    forall i :: 0 <= i < |audience| ==>
      Key(batch, audience[i]) in rows
      && rows[Key(batch, audience[i])] == if i < n && works(audience[i]) then Settled(mail(audience[i])) else PENDING_ROW
  }

  /** What a settled row says: sent with the echo Gmail gave, or failed with the reason; and whose outcome
      could not be written stays as it was recorded. */
  lemma WalkedRows(rows: Rows, batch: nat, audience: seq<string>, mail: Mailer, works: Writes, i: nat)
    requires WalkedTo(rows, batch, audience, |audience|, mail, works) && i < |audience|
    ensures Key(batch, audience[i]) in rows
    ensures var row := rows[Key(batch, audience[i])];
            if !works(audience[i]) then row == Row(Pending, None, None)
            else
              match mail(audience[i])
              case Accepted(echo) => row.status == Sent && row.messageId == echo && row.error == None
              case Refused(reason) => row.status == Failed && row.messageId == None && row.error == Some(reason)
  {
  }

  lemma {:induction false} SentRows(rows: Rows, batch: nat, audience: seq<string>, mail: Mailer, works: Writes)
    requires WalkedTo(rows, batch, audience, |audience|, mail, works)
    ensures var sent := Count(rows, batch, audience, Sent);
            sent <= |Taken(audience, mail)| <= sent + Lost(audience, works)
    ensures Count(rows, batch, audience, Pending) == Lost(audience, works)
  {
    if audience != [] {
      var n := |audience| - 1;
      assert WalkedTo(rows, batch, audience[..n], n, mail, works);
      SentRows(rows, batch, audience[..n], mail, works);
      assert Key(batch, audience[n]) in rows;
    }
  }

  lemma {:induction false} RestIsPending(rows: Rows, batch: nat, audience: seq<string>, n: nat)
    requires n <= |audience|
    requires forall i :: n <= i < |audience| ==> StatusOf(rows, batch, audience[i]) == Some(Pending)
    ensures Count(rows, batch, audience, Sent) == Count(rows, batch, audience[..n], Sent)
    decreases |audience|
  {
    if n == |audience| {
      assert audience[..n] == audience;
    } else {
      var m := |audience| - 1;
      assert audience[..m][..n] == audience[..n];
      RestIsPending(rows, batch, audience[..m], n);
    }
  }

  lemma {:induction false} LostGrows(audience: seq<string>, n: nat, works: Writes)
    requires n <= |audience|
    ensures Lost(audience[..n], works) <= Lost(audience, works)
    decreases |audience|
  {
    if n == |audience| {
      assert audience[..n] == audience;
    } else {
      var m := |audience| - 1;
      assert audience[..m][..n] == audience[..n];
      LostGrows(audience[..m], n, works);
    }
  }

  /** At a point where the job may die: every member has a row, the rows never claim a mail Gmail did
      not take, and they miss at most the one under way and the ones whose write failed. */
  predicate Truthful(p: Point, batch: nat, audience: seq<string>, works: Writes) {
    && Complete(p.rows, batch, audience)
    && (forall i :: 0 <= i < |audience| && StatusOf(p.rows, batch, audience[i]) == Some(Sent) ==> audience[i] in p.accepted)
    && Count(p.rows, batch, audience, Sent) <= |p.accepted| <= Count(p.rows, batch, audience, Sent) + 1 + Lost(audience, works)
  }

  lemma {:induction false} TakenIs(audience: seq<string>, mail: Mailer, a: string)
    ensures a in Taken(audience, mail) <==> a in audience && mail(a).Accepted?
  {
    if audience != [] {
      var n := |audience| - 1;
      TakenIs(audience[..n], mail, a);
      assert audience == audience[..n] + [audience[n]];
    }
  }

  /** The two kinds of points a walk has: outcomes settled up to `n`, and perhaps the next one taken. */
  lemma WalkIsTruthful(p: Point, batch: nat, audience: seq<string>, n: nat, taken: nat, mail: Mailer, works: Writes)
    requires n <= taken <= |audience| && taken <= n + 1
    requires WalkedTo(p.rows, batch, audience, n, mail, works) && p.accepted == Taken(audience[..taken], mail)
    ensures Truthful(p, batch, audience, works)
  {
    var first := audience[..n];
    assert WalkedTo(p.rows, batch, first, n, mail, works);
    SentRows(p.rows, batch, first, mail, works);
    RestIsPending(p.rows, batch, audience, n);
    LostGrows(audience, n, works);
    if taken == n + 1 {
      assert audience[..taken][..n] == first;
    }
    forall i | 0 <= i < |audience| && StatusOf(p.rows, batch, audience[i]) == Some(Sent) ensures audience[i] in p.accepted {
      TakenIs(audience[..taken], mail, audience[i]);
      assert i < n && audience[..taken][i] == audience[i];
    }
  }

  // ---- The job -------------------------------------------------------------------------------

  class GroupSends {
    var rows: Rows
    var audit: seq<Audit>

    /** A store with nothing in it. */
    constructor ()
      ensures rows == map[] && audit == []
    {
      rows, audit := map[], [];
    }

    function Here(accepted: seq<string>): Point
      reads this
    {
      Point(rows, accepted)
    }

    /** `record_group_send`: the whole audience as pending, before any mail moves. */
    method Record(batch: nat, audience: seq<string>)
      modifies this`rows
      ensures rows == Recorded(old(rows), batch, audience)
    {
      for n := 0 to |audience|
        invariant rows == Recorded(old(rows), batch, audience[..n])
      {
        OneLonger(audience, n);
        rows := rows[Key(batch, audience[n]) := PENDING_ROW];
      }
      assert audience[..|audience|] == audience;
    }

    /** `settle`: one recipient's outcome, if the write works. */
    method Settle(batch: nat, addr: string, outcome: Outcome, works: bool)
      modifies this`rows
      ensures rows == if works then old(rows)[Key(batch, addr) := Settled(outcome)] else old(rows)
    {
      if works {
        rows := rows[Key(batch, addr) := Settled(outcome)];
      }
    }

    /** `fail_pending_group_sends`: every pending row the account has, whichever batch it is of. */
    method FailPending(reason: string)
      modifies this`rows
      ensures rows == AllFailed(old(rows), reason)
    {
      rows := map key | key in rows :: if rows[key].status == Pending then Row(Failed, None, Some(reason)) else rows[key];
    }

    /** One member: the mail first, its row after. */
    method Attempt(batch: nat, audience: seq<string>, n: nat, mail: Mailer, works: Writes, ghost before: seq<string>)
      returns (took: bool, ghost accepted: seq<string>, ghost points: seq<Point>)
      requires n < |audience| && Distinct(audience)
      requires WalkedTo(rows, batch, audience, n, mail, works) && before == Taken(audience[..n], mail)
      modifies this`rows
      ensures WalkedTo(rows, batch, audience, n + 1, mail, works) && accepted == Taken(audience[..n + 1], mail)
      ensures |accepted| == |before| + if took then 1 else 0
      ensures forall p <- points :: Truthful(p, batch, audience, works)
      ensures |points| == 2 && points[1] == Here(accepted)
      ensures OthersKept(old(rows), rows, batch)
    {
      var outcome := mail(audience[n]);
      OneLonger(audience, n);
      took, accepted := outcome.Accepted?, before;
      if took {
        accepted := accepted + [audience[n]];
      }
      WalkIsTruthful(Here(accepted), batch, audience, n, n + 1, mail, works);
      points := [Here(accepted)];
      Settle(batch, audience[n], outcome, works(audience[n]));
      WalkIsTruthful(Here(accepted), batch, audience, n + 1, n + 1, mail, works);
      points := points + [Here(accepted)];
    }

    /** `run`: no early return, each outcome settled as it happens. The points gathered on the way are
        the ones where a dying daemon would leave the store. */
    method Run(batch: nat, audience: seq<string>, hasClient: bool, mail: Mailer, works: Writes)
      returns (ghost accepted: seq<string>, ghost points: seq<Point>)
      requires Distinct(audience) && WalkedTo(rows, batch, audience, 0, mail, works)
      modifies this
      ensures forall p <- points :: Truthful(p, batch, audience, works)
      ensures points != [] && points[|points| - 1] == Here(accepted)
      ensures hasClient ==>
                && accepted == Taken(audience, mail) && WalkedTo(rows, batch, audience, |audience|, mail, works)
                && audit == old(audit) + [Finished(|Taken(audience, mail)|, |audience|)]
                && OthersKept(old(rows), rows, batch)
      ensures !hasClient ==>
                && accepted == [] && audit == old(audit) && rows == AllFailed(old(rows), NO_CREDENTIAL)
                && (OthersKept(old(rows), rows, batch) <==> OnlyOnePending(old(rows), batch))
    {
      accepted := [];
      WalkIsTruthful(Here([]), batch, audience, 0, 0, mail, works);
      points := [Here([])];
      if !hasClient {
        FailPending(NO_CREDENTIAL);
        FailingKeepsToTheBatch(old(rows), batch, NO_CREDENTIAL);
        NothingSent(rows, batch, audience, works);
        points := points + [Here([])];
        return;
      }
      var sent := 0;
      for n := 0 to |audience|
        invariant accepted == Taken(audience[..n], mail) && sent == |accepted|
        invariant WalkedTo(rows, batch, audience, n, mail, works)
        invariant forall p <- points :: Truthful(p, batch, audience, works)
        invariant points != [] && points[|points| - 1] == Here(accepted)
        invariant audit == old(audit)
        invariant OthersKept(old(rows), rows, batch)
      {
        var took;
        ghost var more;
        took, accepted, more := Attempt(batch, audience, n, mail, works, accepted);
        points := points + more;
        sent := sent + if took then 1 else 0;
      }
      assert audience[..|audience|] == audience;
      audit := audit + [Finished(sent, |audience|)];
    }

    /** `start`: the pending rows first, the job after. A batch that could not be recorded sends nothing. */
    method Start(batch: nat, audience: seq<string>, recorded: bool, hasClient: bool, mail: Mailer, works: Writes)
      returns (ok: bool, ghost accepted: seq<string>, ghost points: seq<Point>)
      requires Distinct(audience)
      modifies this
      ensures ok == recorded
      ensures forall p <- points :: Truthful(p, batch, audience, works)
      ensures !recorded ==> rows == old(rows) && audit == old(audit) && accepted == [] && points == []
      ensures recorded && hasClient ==>
                && accepted == Taken(audience, mail) && WalkedTo(rows, batch, audience, |audience|, mail, works)
                && audit == old(audit) + [Started(|audience|), Finished(|Taken(audience, mail)|, |audience|)]
                && OthersKept(old(rows), rows, batch)
      ensures recorded && !hasClient ==>
                && accepted == [] && audit == old(audit) + [Started(|audience|)]
                && rows == AllFailed(Recorded(old(rows), batch, audience), NO_CREDENTIAL)
                && (OthersKept(old(rows), rows, batch) <==> OnlyOnePending(old(rows), batch))
    {
      accepted, points := [], [];
      ok := recorded;
      if !recorded {
        return;
      }
      Record(batch, audience);
      RecordedKeepsOthers(old(rows), batch, audience);
      audit := audit + [Started(|audience|)];
      accepted, points := Run(batch, audience, hasClient, mail, works);
      ThroughRecorded(old(rows), rows, batch, audience);
    }
  }

  lemma NothingSent(rows: Rows, batch: nat, audience: seq<string>, works: Writes)
    requires Complete(rows, batch, audience)
    requires forall i :: 0 <= i < |audience| ==> StatusOf(rows, batch, audience[i]) != Some(Sent)
    ensures Truthful(Point(rows, []), batch, audience, works)
  {
    NoneSent(rows, batch, audience);
  }

  lemma {:induction false} NoneSent(rows: Rows, batch: nat, audience: seq<string>)
    requires forall i :: 0 <= i < |audience| ==> StatusOf(rows, batch, audience[i]) != Some(Sent)
    ensures Count(rows, batch, audience, Sent) == 0
  {
    if audience != [] {
      NoneSent(rows, batch, audience[..|audience| - 1]);
    }
  }

  // ---- A finished run ------------------------------------------------------------------------

  lemma {:induction false} NothingLost(audience: seq<string>, works: Writes)
    requires forall a <- audience :: works(a)
    ensures Lost(audience, works) == 0
  {
    if audience != [] {
      NothingLost(audience[..|audience| - 1], works);
    }
  }

  /** When every row could be written, a finished run leaves nothing pending, its rows count exactly the
      mails Gmail took, and so does the audit line; failures are the rest. */
  lemma FinishedRun(rows: Rows, batch: nat, audience: seq<string>, mail: Mailer, works: Writes)
    requires WalkedTo(rows, batch, audience, |audience|, mail, works) && (forall a <- audience :: works(a))
    ensures Count(rows, batch, audience, Pending) == 0
    ensures Count(rows, batch, audience, Sent) == |Taken(audience, mail)|
    ensures Count(rows, batch, audience, Failed) == |audience| - |Taken(audience, mail)|
  {
    SentRows(rows, batch, audience, mail, works);
    NothingLost(audience, works);
    assert Complete(rows, batch, audience);
    RowsAddUp(rows, batch, audience);
  }

  /** At every point of a run the rows account for the whole audience and are off by at most the one
      mail under way. */
  lemma EveryPoint(p: Point, batch: nat, audience: seq<string>, works: Writes)
    requires Truthful(p, batch, audience, works) && (forall a <- audience :: works(a))
    ensures var sent := Count(p.rows, batch, audience, Sent);
            && sent + Count(p.rows, batch, audience, Failed) + Count(p.rows, batch, audience, Pending) == |audience|
            && sent <= |p.accepted| <= sent + 1
  {
    NothingLost(audience, works);
    RowsAddUp(p.rows, batch, audience);
  }
}
