/** The live notification feed as a transition system: writers append to the log and then wake, a
    connection subscribes, fixes its cursor, pumps batches, emits, parks. Every step may interleave with
    every other; the invariants below hold in every state of every run. */
module EventFeed {
  import opened Wrappers
  import opened Seqs

  datatype Event = Event(id: nat, body: string)

  /** What one connection decides about an event when it comes to it: delivery allowed and encodable.
      A connection looks at an event once, so a verdict that changes over time is covered too. */
  type Verdict = Event -> bool

  /** Rows one replay read pulls at a time. */
  const REPLAY_BATCH := 100

  datatype Phase =
    | Connecting
    | Subscribed
    | Reading
    | Sending(batch: seq<Event>, drained: bool)
    | Parked
    | Closed

  /** The shared log, the events appended but not yet announced, this connection's end of the bounded
      wake channel (ids queued, ids overwritten), and the connection itself. */
  datatype State = State(
    log: seq<Event>, unannounced: set<nat>,
    queue: seq<nat>, missed: nat,
    phase: Phase, after: Option<int>, start: nat, cursor: nat, frames: seq<Event>)

  // ---- The log -------------------------------------------------------------------------------

  predicate Ordered(log: seq<Event>) {
    forall i, j :: 0 <= i < j < |log| ==> log[i].id < log[j].id
  }

  function Head(log: seq<Event>): nat {
    if log == [] then 0 else log[|log| - 1].id
  }

  /** The events past a cursor, oldest first. */
  function After(log: seq<Event>, cursor: nat): (r: seq<Event>)
    ensures forall i :: 0 <= i < |r| ==> r[i] in log && r[i].id > cursor
  {
    if log == [] then []
    else (if log[0].id > cursor then [log[0]] else []) + After(log[1..], cursor)
  }

  /** One read of the store: `id > cursor`, in order, at most a batch. */
  function EventsAfter(log: seq<Event>, cursor: nat): seq<Event> {
    var all := After(log, cursor);
    if |all| < REPLAY_BATCH then all else all[..REPLAY_BATCH]
  }

  function IfDue(ev: Event, from: nat, to: nat, deliver: Verdict): seq<Event> {
    if from < ev.id <= to && deliver(ev) then [ev] else []
  }

  /** The events with `from < id <= to` that are to be delivered. */
  function Due(log: seq<Event>, from: nat, to: nat, deliver: Verdict): seq<Event> {
    if log == [] then [] else IfDue(log[0], from, to, deliver) + Due(log[1..], from, to, deliver)
  }

  function StartCursor(after: Option<int>, latest: nat): nat {
    match after
    case Some(a) => if a > 0 then a else 0
    case None => latest
  }

  // ---- The steps -----------------------------------------------------------------------------

  datatype Step =
    | Append(ev: Event)
    | Announce(id: nat)
    | Subscribe
    | Begin
    | Read
    | Emit
    | EndBatch
    | Wake
    | Close

  /** `send` on a broadcast channel of the given capacity: full means the oldest is overwritten. */
  function Pushed(s: State, id: nat, capacity: nat): State {
    if s.phase == Connecting then s
    else if |s.queue| < capacity then s.(queue := s.queue + [id])
    else s.(queue := (s.queue + [id])[1..], missed := s.missed + 1)
  }

  /** `recv`: a lag is reported before what is left in the queue. */
  function Popped(s: State): State
    requires s.missed > 0 || s.queue != []
  {
    if s.missed > 0 then s.(missed := 0) else s.(queue := s.queue[1..])
  }

  predicate Pending(s: State) {
    s.missed > 0 || s.queue != []
  }

  predicate Enabled(s: State, step: Step) {
    match step
    case Append(ev) => ev.id > Head(s.log)
    case Announce(id) => id in s.unannounced
    case Subscribe => s.phase == Connecting
    case Begin => s.phase == Subscribed
    case Read => s.phase == Reading
    case Emit => s.phase.Sending? && s.phase.batch != []
    case EndBatch => s.phase.Sending? && s.phase.batch == []
    case Wake => s.phase == Parked && Pending(s)
    case Close => true
  }

  function Stepped(s: State, step: Step, capacity: nat, deliver: Verdict): State
    requires Enabled(s, step)
  {
    match step
    case Append(ev) => s.(log := s.log + [ev], unannounced := s.unannounced + {ev.id})
    case Announce(id) => Pushed(s, id, capacity).(unannounced := s.unannounced - {id})
    case Subscribe => s.(phase := Subscribed, queue := [], missed := 0)
    case Begin =>
      var start := StartCursor(s.after, if s.after.None? then Head(s.log) else 0);
      s.(phase := Reading, start := start, cursor := start)
    case Read =>
      var batch := EventsAfter(s.log, s.cursor);
      s.(phase := Sending(batch, |batch| < REPLAY_BATCH))
    case Emit =>
      var ev := s.phase.batch[0];
      s.(phase := Sending(s.phase.batch[1..], s.phase.drained), cursor := ev.id,
         frames := s.frames + if deliver(ev) then [ev] else [])
    case EndBatch => s.(phase := if s.phase.drained then Parked else Reading)
    case Wake => Popped(s).(phase := Reading)
    case Close => s.(phase := Closed)
  }

  predicate Next(s: State, step: Step, t: State, capacity: nat, deliver: Verdict) {
    Enabled(s, step) && t == Stepped(s, step, capacity, deliver)
  }

  /** A request arrives at a store that already holds a log, some of it perhaps not yet announced. */
  predicate Init(s: State) {
    && Ordered(s.log)
    && s.phase == Connecting && s.queue == [] && s.missed == 0
    && s.start == 0 && s.cursor == 0 && s.frames == []
  }

  /** A run: the states it passes through and the steps between them. */
  predicate IsRun(states: seq<State>, steps: seq<Step>, capacity: nat, deliver: Verdict) {
    && |states| == |steps| + 1 && Init(states[0])
    && forall i :: 0 <= i < |steps| ==> Next(states[i], steps[i], states[i + 1], capacity, deliver)
  }

  // ---- The invariant -------------------------------------------------------------------------

  /** Up to where the events read so far reach. */
  function Covered(s: State): nat {
    if s.phase.Sending? && s.phase.batch != [] then s.phase.batch[|s.phase.batch| - 1].id else s.cursor
  }

  /** Past the last read, nothing but events that are still to be announced or have woken us. */
  predicate Caught(s: State) {
    s.phase == Parked || (s.phase.Sending? && s.phase.drained)
    ==> Pending(s) || forall ev :: ev in s.log && ev.id > Covered(s) ==> ev.id in s.unannounced
  }

  /** The cursor only ever rests where it started or on an event; the frames are what is due up to it. */
  predicate Exact(s: State, deliver: Verdict) {
    && s.start <= s.cursor && (s.cursor == s.start || s.cursor <= Head(s.log))
    && s.frames == Due(s.log, s.start, s.cursor, deliver)
  }

  predicate Contiguous(s: State) {
    s.phase.Sending? ==> s.phase.batch <= After(s.log, s.cursor)
  }

  predicate Fixed(s: State) {
    s.phase in {Connecting, Subscribed} ==> s.frames == [] && s.start == s.cursor == 0
  }

  predicate Inv(s: State, deliver: Verdict) {
    Ordered(s.log) && Fixed(s) && Exact(s, deliver) && Contiguous(s) && Caught(s)
  }

  // ---- Facts about the log -------------------------------------------------------------------

  lemma {:induction false} AfterAppend(log: seq<Event>, ev: Event, cursor: nat)
    ensures After(log + [ev], cursor) == After(log, cursor) + if ev.id > cursor then [ev] else []
  {
    if log == [] {
      assert (log + [ev])[1..] == [];
    } else {
      assert (log + [ev])[1..] == log[1..] + [ev];
      AfterAppend(log[1..], ev, cursor);
    }
  }

  lemma {:induction false} DueAppend(log: seq<Event>, ev: Event, from: nat, to: nat, deliver: Verdict)
    ensures Due(log + [ev], from, to, deliver)
            == Due(log, from, to, deliver) + IfDue(ev, from, to, deliver)
  {
    if log == [] {
      assert (log + [ev])[1..] == [];
    } else {
      assert (log + [ev])[1..] == log[1..] + [ev];
      DueAppend(log[1..], ev, from, to, deliver);
    }
  }

  lemma {:induction false} DueNone(log: seq<Event>, from: nat, to: nat, deliver: Verdict)
    requires forall i :: 0 <= i < |log| ==> !(from < log[i].id <= to)
    ensures Due(log, from, to, deliver) == []
  {
    if log != [] {
      DueNone(log[1..], from, to, deliver);
    }
  }

  lemma {:induction false} AllPast(log: seq<Event>, cursor: nat)
    requires forall i :: 0 <= i < |log| ==> log[i].id > cursor
    ensures After(log, cursor) == log
  {
    if log != [] {
      AllPast(log[1..], cursor);
      Uncons(log);
    }
  }

  lemma PastFirst(log: seq<Event>)
    requires Ordered(log) && log != []
    ensures After(log, log[0].id) == log[1..]
  {
    AllPast(log[1..], log[0].id);
    assert [] + log[1..] == log[1..];
  }

  lemma AfterSkips(log: seq<Event>, cursor: nat)
    requires log != [] && log[0].id <= cursor
    ensures After(log, cursor) == After(log[1..], cursor)
  {
  }

  lemma {:induction false} NextPast(log: seq<Event>, cursor: nat)
    requires Ordered(log) && After(log, cursor) != []
    ensures After(log, After(log, cursor)[0].id) == After(log, cursor)[1..]
  {
    if log[0].id > cursor {
      AllPast(log, cursor);
      PastFirst(log);
    } else {
      AfterSkips(log, cursor);
      NextPast(log[1..], cursor);
      AfterSkips(log, After(log, cursor)[0].id);
    }
  }

  lemma {:induction false} NextDue(log: seq<Event>, cursor: nat, deliver: Verdict)
    requires Ordered(log) && After(log, cursor) != []
    ensures var ev := After(log, cursor)[0];
            Due(log, cursor, ev.id, deliver) == IfDue(ev, cursor, ev.id, deliver)
  {
    if log[0].id > cursor {
      AllPast(log, cursor);
      DueNone(log[1..], cursor, log[0].id, deliver);
    } else {
      NextDue(log[1..], cursor, deliver);
    }
  }

  lemma Regroup(one: seq<Event>, a: seq<Event>, b: seq<Event>)
    ensures one + (a + b) == (one + a) + ([] + b)
    ensures one + ([] + b) == ([] + []) + (one + b)
  {
  }

  lemma {:induction false} DueSplits(log: seq<Event>, from: nat, mid: nat, to: nat, deliver: Verdict)
    requires Ordered(log) && from <= mid <= to
    ensures Due(log, from, to, deliver) == Due(log, from, mid, deliver) + Due(log, mid, to, deliver)
  {
    if log != [] {
      var ev, rest := log[0], log[1..];
      DueSplits(rest, from, mid, to, deliver);
      if ev.id > mid {
        DueNone(rest, from, mid, deliver);
      }
      Regroup(IfDue(ev, from, to, deliver), Due(rest, from, mid, deliver), Due(rest, mid, to, deliver));
    }
  }

  /** Taking the next event past the cursor: what is left past it, and what became due. */
  lemma NextAfter(log: seq<Event>, from: nat, cursor: nat, deliver: Verdict)
    requires Ordered(log) && After(log, cursor) != [] && from <= cursor
    ensures var ev := After(log, cursor)[0];
            && After(log, ev.id) == After(log, cursor)[1..]
            && Due(log, from, ev.id, deliver) == Due(log, from, cursor, deliver) + (if deliver(ev) then [ev] else [])
            && cursor < ev.id <= Head(log)
  {
    NextPast(log, cursor);
    HeadIsLast(log, After(log, cursor)[0]);
    NextDue(log, cursor, deliver);
    DueSplits(log, from, cursor, After(log, cursor)[0].id, deliver);
  }

  lemma {:induction false} InAfter(log: seq<Event>, cursor: nat, ev: Event)
    ensures ev in After(log, cursor) <==> ev in log && ev.id > cursor
  {
    if log != [] {
      InAfter(log[1..], cursor, ev);
      assert ev in log <==> ev == log[0] || ev in log[1..];
    }
  }

  lemma {:induction false} InDue(log: seq<Event>, from: nat, to: nat, deliver: Verdict, ev: Event)
    ensures ev in Due(log, from, to, deliver) <==> ev in log && from < ev.id <= to && deliver(ev)
  {
    if log != [] {
      InDue(log[1..], from, to, deliver, ev);
      assert ev in log <==> ev == log[0] || ev in log[1..];
    }
  }

  lemma {:induction false} DueOrdered(log: seq<Event>, from: nat, to: nat, deliver: Verdict)
    requires Ordered(log)
    ensures Ordered(Due(log, from, to, deliver))
  {
    if log != [] {
      DueOrdered(log[1..], from, to, deliver);
      var rest := Due(log[1..], from, to, deliver);
      forall i | 0 <= i < |rest| ensures log[0].id < rest[i].id {
        InDue(log[1..], from, to, deliver, rest[i]);
        var j :| 0 <= j < |log[1..]| && log[1..][j] == rest[i];
        assert log[j + 1] == rest[i];
      }
    }
  }

  lemma HeadIsLast(log: seq<Event>, ev: Event)
    requires Ordered(log) && ev in log
    ensures ev.id <= Head(log)
  {
    var i :| 0 <= i < |log| && log[i] == ev;
  }

  // ---- Every step keeps it -------------------------------------------------------------------

  lemma OrderedAppend(log: seq<Event>, ev: Event)
    requires Ordered(log) && ev.id > Head(log)
    ensures Ordered(log + [ev])
  {
    forall i | 0 <= i < |log| ensures log[i].id < ev.id {
      HeadIsLast(log, log[i]);
    }
  }

  lemma CaughtAppend(s: State, ev: Event)
    requires Caught(s)
    ensures Caught(s.(log := s.log + [ev], unannounced := s.unannounced + {ev.id}))
  {
  }

  lemma AppendKeeps(s: State, ev: Event, t: State, capacity: nat, deliver: Verdict)
    requires Inv(s, deliver) && Next(s, Append(ev), t, capacity, deliver)
    ensures Inv(t, deliver)
  {
    OrderedAppend(s.log, ev);
    CaughtAppend(s, ev);
    AfterAppend(s.log, ev, s.cursor);
    DueAppend(s.log, ev, s.start, s.cursor, deliver);
    assert IfDue(ev, s.start, s.cursor, deliver) == [];
    assert s.frames + [] == s.frames;
  }

  lemma AnnounceKeeps(s: State, id: nat, t: State, capacity: nat, deliver: Verdict)
    requires Inv(s, deliver) && Next(s, Announce(id), t, capacity, deliver) && capacity > 0
    ensures Inv(t, deliver)
  {
  }

  lemma ReadKeeps(s: State, t: State, capacity: nat, deliver: Verdict)
    requires Inv(s, deliver) && Next(s, Read, t, capacity, deliver)
    ensures Inv(t, deliver)
  {
    ReadCatches(s.log, s.cursor, EventsAfter(s.log, s.cursor));
  }

  /** A short read reaches to the end of the log. */
  lemma ReadCatches(log: seq<Event>, cursor: nat, batch: seq<Event>)
    requires Ordered(log) && batch == EventsAfter(log, cursor)
    ensures batch <= After(log, cursor)
    ensures |batch| < REPLAY_BATCH ==>
              forall ev :: ev in log ==> ev.id <= if batch != [] then batch[|batch| - 1].id else cursor
  {
    AfterEndsAtHead(log, cursor);
    NothingPastHead(log);
  }

  lemma NothingPastHead(log: seq<Event>)
    requires Ordered(log)
    ensures forall ev :: ev in log ==> ev.id <= Head(log)
  {
    forall ev | ev in log ensures ev.id <= Head(log) {
      HeadIsLast(log, ev);
    }
  }

  lemma {:induction false} AfterEndsAtHead(log: seq<Event>, cursor: nat)
    requires Ordered(log)
    ensures var all := After(log, cursor); all != [] ==> all[|all| - 1].id == Head(log)
    ensures After(log, cursor) == [] <==> Head(log) <= cursor
  {
    if log != [] {
      var n := |log| - 1;
      AfterAppend(log[..n], log[n], cursor);
      assert log == log[..n] + [log[n]];
      AfterEndsAtHead(log[..n], cursor);
    }
  }

  lemma EmitKeeps(s: State, t: State, capacity: nat, deliver: Verdict)
    requires Inv(s, deliver) && Next(s, Emit, t, capacity, deliver)
    ensures Inv(t, deliver)
  {
    NextAfter(s.log, s.start, s.cursor, deliver);
    var batch, all := s.phase.batch, After(s.log, s.cursor);
    assert batch[0] == all[0];
    assert batch[1..] <= all[1..];
    assert Covered(t) == Covered(s);
  }

  lemma BeginKeeps(s: State, t: State, capacity: nat, deliver: Verdict)
    requires Inv(s, deliver) && Next(s, Begin, t, capacity, deliver)
    ensures Inv(t, deliver)
  {
    DueNone(s.log, t.start, t.start, deliver);
  }

  /** One step of anyone, from a good state, leads to a good state. */
  lemma StepKeeps(s: State, step: Step, t: State, capacity: nat, deliver: Verdict)
    requires Inv(s, deliver) && Next(s, step, t, capacity, deliver) && capacity > 0
    ensures Inv(t, deliver)
  {
    match step {
      case Append(ev) => AppendKeeps(s, ev, t, capacity, deliver);
      case Announce(id) => AnnounceKeeps(s, id, t, capacity, deliver);
      case Begin => BeginKeeps(s, t, capacity, deliver);
      case Read => ReadKeeps(s, t, capacity, deliver);
      case Emit => EmitKeeps(s, t, capacity, deliver);
      case _ =>
    }
  }

  lemma {:induction false} RunKeeps(states: seq<State>, steps: seq<Step>, capacity: nat, deliver: Verdict, i: nat)
    requires IsRun(states, steps, capacity, deliver) && capacity > 0 && i < |states|
    ensures Inv(states[i], deliver)
  {
    if i == 0 {
      DueNone(states[0].log, 0, 0, deliver);
    } else {
      RunKeeps(states, steps, capacity, deliver, i - 1);
      StepKeeps(states[i - 1], steps[i - 1], states[i], capacity, deliver);
    }
  }

  // ---- What it means -------------------------------------------------------------------------

  /** In every state of every run, the frames are exactly the deliverable events with ids in
      `(start, cursor]`, in strictly increasing order, hence each once: across batches, across the seam
      between replay and live, and whatever was lost on the wake channel. */
  lemma FramesAreExact(states: seq<State>, steps: seq<Step>, capacity: nat, deliver: Verdict, i: nat, ev: Event)
    requires IsRun(states, steps, capacity, deliver) && capacity > 0 && i < |states|
    ensures var s := states[i];
            && (ev in s.frames <==> ev in s.log && s.start < ev.id <= s.cursor && deliver(ev))
            && Ordered(s.frames)
  {
    RunKeeps(states, steps, capacity, deliver, i);
    var s := states[i];
    InDue(s.log, s.start, s.cursor, deliver, ev);
    DueOrdered(s.log, s.start, s.cursor, deliver);
  }

  /** No lost wakeup: a parked connection with the log head past its cursor has a wake or a lag waiting,
      or every event past the cursor is still between its append and its announcement. */
  lemma NoLostWakeup(states: seq<State>, steps: seq<Step>, capacity: nat, deliver: Verdict, i: nat)
    requires IsRun(states, steps, capacity, deliver) && capacity > 0 && i < |states|
    requires states[i].phase == Parked && Head(states[i].log) > states[i].cursor
    ensures var s := states[i];
            Pending(s) || forall ev :: ev in s.log && ev.id > s.cursor ==> ev.id in s.unannounced
    ensures Pending(states[i]) || Head(states[i].log) in states[i].unannounced
  {
    RunKeeps(states, steps, capacity, deliver, i);
    var s := states[i];
    assert s.log[|s.log| - 1] in s.log;
  }

  /** Once the writers are done and nothing is waiting, a parked connection has sent everything. */
  lemma QuietMeansComplete(states: seq<State>, steps: seq<Step>, capacity: nat, deliver: Verdict, i: nat)
    requires IsRun(states, steps, capacity, deliver) && capacity > 0 && i < |states|
    requires states[i].phase == Parked && !Pending(states[i]) && states[i].unannounced == {}
    ensures var s := states[i];
            && Head(s.log) <= s.cursor && After(s.log, s.cursor) == []
            && forall ev :: ev in s.log && ev.id > s.start && deliver(ev) ==> ev in s.frames
  {
    RunKeeps(states, steps, capacity, deliver, i);
    var s := states[i];
    if Head(s.log) > s.cursor {
      NoLostWakeup(states, steps, capacity, deliver, i);
    }
    AfterEndsAtHead(s.log, s.cursor);
    forall ev | ev in s.log && ev.id > s.start && deliver(ev) ensures ev in s.frames {
      HeadIsLast(s.log, ev);
      InDue(s.log, s.start, s.cursor, deliver, ev);
    }
  }

  // ---- Where a connection starts -------------------------------------------------------------

  lemma {:induction false} AfterStays(states: seq<State>, steps: seq<Step>, capacity: nat, deliver: Verdict, i: nat)
    requires IsRun(states, steps, capacity, deliver) && i < |states|
    ensures states[i].after == states[0].after
  {
    if i > 0 {
      AfterStays(states, steps, capacity, deliver, i - 1);
      assert Next(states[i - 1], steps[i - 1], states[i], capacity, deliver);
    }
  }

  /** Once begun, a connection starts where the client said, a negative id counting as 0, or, with no id
      given, at the head the log had then; nothing moves that again. */
  lemma {:induction false} StartIs(states: seq<State>, steps: seq<Step>, capacity: nat, deliver: Verdict, j: nat, i: nat)
    requires IsRun(states, steps, capacity, deliver) && j < |steps| && steps[j] == Begin && j < i < |states|
    ensures states[i].start == match states[0].after
                               case Some(a) => if a > 0 then a else 0
                               case None => Head(states[j].log)
    ensures states[i].phase !in {Connecting, Subscribed}
    decreases i
  {
    AfterStays(states, steps, capacity, deliver, j);
    assert Next(states[i - 1], steps[i - 1], states[i], capacity, deliver);
    if i - 1 > j {
      StartIs(states, steps, capacity, deliver, j, i - 1);
    }
  }

  /** Without an id it is live-only: nothing that was in the log when it began is ever sent. */
  lemma LiveOnly(states: seq<State>, steps: seq<Step>, capacity: nat, deliver: Verdict, j: nat, i: nat, ev: Event)
    requires IsRun(states, steps, capacity, deliver) && capacity > 0 && j < |steps| && steps[j] == Begin
    requires states[0].after == None && i < |states| && ev in states[i].frames
    ensures ev.id > Head(states[j].log) && ev !in states[j].log
  {
    FramesAreExact(states, steps, capacity, deliver, i, ev);
    RunKeeps(states, steps, capacity, deliver, j);
    if i <= j {
      NothingBefore(states, steps, capacity, deliver, j, i);
    } else {
      StartIs(states, steps, capacity, deliver, j, i);
    }
    if ev in states[j].log {
      HeadIsLast(states[j].log, ev);
    }
  }

  /** Until it begins, a connection has sent nothing. */
  lemma {:induction false} NothingBefore(states: seq<State>, steps: seq<Step>, capacity: nat, deliver: Verdict, j: nat, i: nat)
    requires IsRun(states, steps, capacity, deliver) && capacity > 0 && j < |steps| && steps[j] == Begin && i <= j
    ensures states[i].frames == [] && states[i].phase in {Connecting, Subscribed}
    decreases j - i
  {
    assert Next(states[i], steps[i], states[i + 1], capacity, deliver);
    if i < j {
      NothingBefore(states, steps, capacity, deliver, j, i + 1);
    }
    RunKeeps(states, steps, capacity, deliver, i);
  }

  /** With an id it sends nothing up to it, and, once quiet, everything past it that may be delivered. */
  lemma ReplaysFrom(states: seq<State>, steps: seq<Step>, capacity: nat, deliver: Verdict, j: nat, i: nat, a: int, ev: Event)
    requires IsRun(states, steps, capacity, deliver) && capacity > 0 && j < |steps| && steps[j] == Begin && j < i < |states|
    requires states[0].after == Some(a)
    ensures ev in states[i].frames ==> ev in states[i].log && ev.id > a && deliver(ev)
    ensures states[i].phase == Parked && !Pending(states[i]) && states[i].unannounced == {} ==>
              (ev in states[i].frames <==> ev in states[i].log && ev.id > 0 && ev.id > a && deliver(ev))
  {
    StartIs(states, steps, capacity, deliver, j, i);
    FramesAreExact(states, steps, capacity, deliver, i, ev);
    if states[i].phase == Parked && !Pending(states[i]) && states[i].unannounced == {} {
      QuietMeansComplete(states, steps, capacity, deliver, i);
    }
  }

  // ---- Left alone, it gets there -------------------------------------------------------------

  predicate IsPumpStep(step: Step) {
    step in {Read, Emit, EndBatch, Wake}
  }

  function Waiting(s: State): nat {
    |s.queue| + if s.missed > 0 then 1 else 0
  }

  function Rank(phase: Phase): nat {
    match phase
    case Reading => 2
    case Sending(batch, drained) => if batch == [] && !drained then 3 else 1
    case _ => 0
  }

  /** What a pump still has in front of it. */
  function ToDo(s: State): nat {
    3 * |After(s.log, s.cursor)| + Rank(s.phase)
  }

  /** Every step of the connection's own loop uses up a wake or brings the pump closer to its end, so
      with a quiet writer the loop stops, and it can only stop parked with nothing waiting. */
  lemma PumpStepsDecrease(s: State, step: Step, t: State, capacity: nat, deliver: Verdict)
    requires Inv(s, deliver) && IsPumpStep(step) && Next(s, step, t, capacity, deliver)
    ensures t.log == s.log && t.unannounced == s.unannounced
    ensures Waiting(t) < Waiting(s) || (Waiting(t) == Waiting(s) && ToDo(t) < ToDo(s))
  {
    if step == Emit {
      NextAfter(s.log, s.start, s.cursor, deliver);
      assert s.phase.batch[0] == After(s.log, s.cursor)[0];
    }
  }

  lemma StuckMeansQuiet(s: State)
    requires s.phase !in {Connecting, Subscribed, Closed}
    requires forall step :: IsPumpStep(step) ==> !Enabled(s, step)
    ensures s.phase == Parked && !Pending(s)
  {
    assert !Enabled(s, Read) && !Enabled(s, Emit) && !Enabled(s, EndBatch) && !Enabled(s, Wake);
  }

  lemma {:induction false} AfterIsShorter(log: seq<Event>, cursor: nat)
    ensures |After(log, cursor)| <= |log|
  {
    if log != [] {
      AfterIsShorter(log[1..], cursor);
    }
  }

  /** How many steps the connection's own loop can still take while the writers rest. */
  function Budget(s: State): nat {
    Waiting(s) * (3 * |s.log| + 4) + ToDo(s)
  }

  lemma Less(waiting: nat, more: nat, size: nat, todo: nat)
    requires waiting < more && todo < size
    ensures waiting * size + todo < more * size
  {
    assert (waiting + 1) * size <= more * size;
  }

  lemma PumpStepSpends(s: State, step: Step, t: State, capacity: nat, deliver: Verdict)
    requires Inv(s, deliver) && IsPumpStep(step) && Next(s, step, t, capacity, deliver)
    ensures Budget(t) < Budget(s) && t.log == s.log && t.unannounced == s.unannounced
  {
    PumpStepsDecrease(s, step, t, capacity, deliver);
    AfterIsShorter(t.log, t.cursor);
    if Waiting(t) < Waiting(s) {
      Less(Waiting(t), Waiting(s), 3 * |s.log| + 4, ToDo(t));
    }
  }

  lemma {:induction false} PumpRunSpends(states: seq<State>, steps: seq<Step>, capacity: nat, deliver: Verdict, from: nat)
    requires IsRun(states, steps, capacity, deliver) && capacity > 0 && from <= |steps|
    requires forall i :: from <= i < |steps| ==> IsPumpStep(steps[i])
    ensures |steps| - from + Budget(states[|steps|]) <= Budget(states[from])
    ensures states[|steps|].log == states[from].log && states[|steps|].unannounced == states[from].unannounced
    decreases |steps| - from
  {
    if from < |steps| {
      RunKeeps(states, steps, capacity, deliver, from);
      PumpStepSpends(states[from], steps[from], states[from + 1], capacity, deliver);
      PumpRunSpends(states, steps, capacity, deliver, from + 1);
    }
  }

  /** Whatever happened before, from the moment the writers rest with everything announced the
      connection's own loop takes no more steps than its budget, and where it can take no further one it
      stands parked with every deliverable event past its start sent. */
  lemma LeftAloneItFinishes(states: seq<State>, steps: seq<Step>, capacity: nat, deliver: Verdict, from: nat)
    requires IsRun(states, steps, capacity, deliver) && capacity > 0 && from <= |steps|
    requires forall i :: from <= i < |steps| ==> IsPumpStep(steps[i])
    requires states[from].unannounced == {}
    ensures |steps| - from <= Budget(states[from])
    ensures var last := states[|steps|];
            last.phase !in {Connecting, Subscribed, Closed} && (forall step :: IsPumpStep(step) ==> !Enabled(last, step)) ==>
              && last.phase == Parked && Head(last.log) <= last.cursor
              && forall ev :: ev in last.log && ev.id > last.start && deliver(ev) ==> ev in last.frames
  {
    PumpRunSpends(states, steps, capacity, deliver, from);
    var last := states[|steps|];
    if last.phase !in {Connecting, Subscribed, Closed} && (forall step :: IsPumpStep(step) ==> !Enabled(last, step)) {
      StuckMeansQuiet(last);
      QuietMeansComplete(states, steps, capacity, deliver, |steps|);
    }
  }

  lemma InBatch(batch: seq<Event>, ahead: seq<Event>, i: nat)
    requires i < |batch| && batch <= ahead
    ensures ahead[i..] != [] && batch[i] == ahead[i..][0] && ahead[i..][1..] == ahead[i + 1..]
  {
  }

  /** One batch sent, frame by frame, the cursor advanced first each time. */
  method SendBatch(log: seq<Event>, from: nat, was: nat, had: seq<Event>, deliver: Verdict)
    returns (cursor: nat, sent: seq<Event>, drained: bool)
    requires Ordered(log) && from <= was && had == Due(log, from, was, deliver)
    ensures was <= cursor && (cursor == was || cursor <= Head(log)) && sent == Due(log, from, cursor, deliver)
    ensures drained ==> After(log, cursor) == []
    ensures !drained ==> |After(log, cursor)| < |After(log, was)|
  {
    var batch := EventsAfter(log, was);
    ghost var ahead := After(log, was);
    drained := |batch| < REPLAY_BATCH;
    cursor, sent := was, had;
    for i := 0 to |batch|
      invariant was <= cursor && (cursor == was || cursor <= Head(log))
      invariant After(log, cursor) == ahead[i..]
      invariant sent == Due(log, from, cursor, deliver)
    {
      NextAfter(log, from, cursor, deliver);
      InBatch(batch, ahead, i);
      var ev := batch[i];
      cursor := ev.id;
      sent := sent + if deliver(ev) then [ev] else [];
    }
  }

  /** `pump` against a log that stands still: it ends at the head, with everything due on the way. */
  method Pump(log: seq<Event>, from: nat, deliver: Verdict) returns (cursor: nat, sent: seq<Event>)
    requires Ordered(log)
    ensures After(log, cursor) == [] && cursor == if Head(log) > from then Head(log) else from
    ensures sent == Due(log, from, cursor, deliver)
  {
    cursor, sent := from, [];
    DueNone(log, from, from, deliver);
    var drained := false;
    while !drained
      invariant from <= cursor && (cursor == from || cursor <= Head(log))
      invariant sent == Due(log, from, cursor, deliver)
      invariant drained ==> After(log, cursor) == []
      decreases !drained, |After(log, cursor)|
    {
      cursor, sent, drained := SendBatch(log, from, cursor, sent, deliver);
    }
    AfterEndsAtHead(log, cursor);
  }

  // ---- Reconnecting --------------------------------------------------------------------------

  /** What a client got before it lost the connection, up to some frame of it, and what a connection
      from that frame's id sends on a log that has only grown. Permission is asked anew at each delivery,
      so each connection has its own verdict: together the frames are in order, no id comes twice, and
      each event stands there exactly if it is due on the connection whose stretch it is in. */
  lemma ResumeIsExact(log: seq<Event>, more: seq<Event>, start: nat, cursor: nat, got: nat, later: nat,
                      first: Verdict, second: Verdict, ev: Event)
    requires Ordered(log + more) && 0 < got <= |Due(log, start, cursor, first)|
    requires later >= Due(log, start, cursor, first)[got - 1].id
    ensures var frames := Due(log, start, cursor, first);
            var mid := frames[got - 1].id;
            var joined := frames[..got] + Due(log + more, mid, later, second);
            && Ordered(joined)
            && (ev in joined <==> ev in log + more && start < ev.id <= later && if ev.id <= mid then first(ev) else second(ev))
  {
    var frames := Due(log, start, cursor, first);
    var mid := frames[got - 1].id;
    var before, after := frames[..got], Due(log + more, mid, later, second);
    assert Ordered(log) by { assert forall i :: 0 <= i < |log| ==> (log + more)[i] == log[i]; }
    InDue(log, start, cursor, first, frames[got - 1]);
    HeadIsLast(log, frames[got - 1]);
    DuePrefix(log, start, cursor, got, first);
    DueGrown(log, more, start, mid, first);
    DueOrdered(log + more, start, mid, first);
    DueOrdered(log + more, mid, later, second);
    assert before == Due(log + more, start, mid, first);
    InDue(log + more, start, mid, first, ev);
    InDue(log + more, mid, later, second, ev);
    OrderedApart(log + more, start, mid, later, first, second);
  }

  /** Two runs: a connection, and one that reconnects with the id of the last frame the client got of
      the first, over a log that has only grown. In every state of the second run the frames of both
      together are in order, and each event stands there exactly if it was due on its connection. */
  lemma ReconnectIsExact(states: seq<State>, steps: seq<Step>, first: Verdict, i: nat, got: nat,
                         states2: seq<State>, steps2: seq<Step>, second: Verdict, j: nat, i2: nat,
                         capacity: nat, more: seq<Event>, ev: Event)
    requires IsRun(states, steps, capacity, first) && IsRun(states2, steps2, capacity, second) && capacity > 0
    requires i < |states| && 0 < got <= |states[i].frames|
    requires j < |steps2| && steps2[j] == Begin && j < i2 < |states2|
    requires states2[0].after == Some(states[i].frames[got - 1].id) && states2[i2].log == states[i].log + more
    ensures var s, t := states[i], states2[i2];
            var mid := s.frames[got - 1].id;
            var joined := s.frames[..got] + t.frames;
            && Ordered(joined)
            && (ev in joined <==>
                  ev in t.log && s.start < ev.id <= t.cursor && if ev.id <= mid then first(ev) else second(ev))
  {
    RunKeeps(states, steps, capacity, first, i);
    RunKeeps(states2, steps2, capacity, second, i2);
    RunKeeps(states2, steps2, capacity, second, j);
    StartIs(states2, steps2, capacity, second, j, i2);
    AfterStays(states2, steps2, capacity, second, j);
    var s, t := states[i], states2[i2];
    InDue(s.log, s.start, s.cursor, first, s.frames[got - 1]);
    ResumeIsExact(s.log, more, s.start, s.cursor, got, t.cursor, first, second, ev);
  }

  /** Two neighbouring stretches of a log, each with its own verdict, are in order together. */
  lemma OrderedApart(log: seq<Event>, from: nat, mid: nat, to: nat, first: Verdict, second: Verdict)
    requires Ordered(log)
    ensures Ordered(Due(log, from, mid, first) + Due(log, mid, to, second))
  {
    var a, b := Due(log, from, mid, first), Due(log, mid, to, second);
    DueOrdered(log, from, mid, first);
    DueOrdered(log, mid, to, second);
    forall i, j | 0 <= i < |a| && 0 <= j < |b| ensures a[i].id < b[j].id {
      InDue(log, from, mid, first, a[i]);
      InDue(log, mid, to, second, b[j]);
    }
  }

  /** Where the verdicts agree that is what one unbroken connection would have sent. */
  lemma ResumeLosesNothing(log: seq<Event>, more: seq<Event>, start: nat, cursor: nat, got: nat, later: nat, deliver: Verdict)
    requires Ordered(log + more) && 0 < got <= |Due(log, start, cursor, deliver)|
    requires later >= cursor
    ensures var frames := Due(log, start, cursor, deliver);
            frames[..got] + Due(log + more, frames[got - 1].id, later, deliver) == Due(log + more, start, later, deliver)
  {
    var frames := Due(log, start, cursor, deliver);
    var mid := frames[got - 1].id;
    assert Ordered(log) by { assert forall i :: 0 <= i < |log| ==> (log + more)[i] == log[i]; }
    DueOrdered(log, start, cursor, deliver);
    InDue(log, start, cursor, deliver, frames[got - 1]);
    DueSplits(log + more, start, mid, later, deliver);
    DuePrefix(log, start, cursor, got, deliver);
    DueGrown(log, more, start, mid, deliver);
  }

  /** The first `got` frames are what is due up to the last of them. */
  lemma DuePrefix(log: seq<Event>, start: nat, cursor: nat, got: nat, deliver: Verdict)
    requires Ordered(log) && 0 < got <= |Due(log, start, cursor, deliver)|
    ensures Due(log, start, Due(log, start, cursor, deliver)[got - 1].id, deliver) == Due(log, start, cursor, deliver)[..got]
  {
    var frames := Due(log, start, cursor, deliver);
    var mid := frames[got - 1].id;
    InDue(log, start, cursor, deliver, frames[got - 1]);
    DueSplits(log, start, mid, cursor, deliver);
    DueOrdered(log, start, cursor, deliver);
    var a, b := Due(log, start, mid, deliver), Due(log, mid, cursor, deliver);
    assert frames == a + b;
    if |a| < got {
      assert frames[got - 1] == b[got - 1 - |a|];
      InDue(log, mid, cursor, deliver, frames[got - 1]);
      assert false;
    }
    if |a| > got {
      assert a[got] == frames[got];
      InDue(log, start, mid, deliver, a[got]);
      assert false;
    }
  }

  lemma {:induction false} DueGrown(log: seq<Event>, more: seq<Event>, from: nat, to: nat, deliver: Verdict)
    requires Ordered(log + more) && log != [] && to <= Head(log)
    ensures Due(log + more, from, to, deliver) == Due(log, from, to, deliver)
    decreases |more|
  {
    if more == [] {
      assert log + more == log;
    } else {
      var n := |more| - 1;
      assert log + more == (log + more[..n]) + [more[n]];
      assert forall i :: 0 <= i < |log| + n ==> (log + more[..n])[i] == (log + more)[i];
      DueGrown(log, more[..n], from, to, deliver);
      DueAppend(log + more[..n], more[n], from, to, deliver);
      assert (log + more)[|log| - 1].id < (log + more)[|log| + n].id;
    }
  }
}
