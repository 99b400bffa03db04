/** The sweep that turns a timer's state into an alert, once, and the timeline that is its
    only memory. */
module SlaSweep {
  import opened Common
  import opened SlaClock

  datatype Priority = Low | Medium | High | Urgent

  datatype Kind = Warned | Missed   // SLA_WARNING, SLA_BREACHED

  /** One timeline entry. `timer` is None on a row whose timer cannot be read. */
  datatype Entry = Entry(ticket: nat, kind: Kind, timer: Option<Timer>, at: int)

  /** The alerts already on one ticket's timeline, each with its earliest entry. */
  datatype Recorded = Recorded(warnings: map<Timer, int>, breaches: map<Timer, int>)

  const NOTHING := Recorded(map[], map[])

  function Of(r: Recorded, kind: Kind): map<Timer, int> {
    if kind.Warned? then r.warnings else r.breaches
  }

  /** The timers an entry is recorded against: both, when its own cannot be read. */
  predicate Names(e: Entry, timer: Timer) {
    e.timer.None? || e.timer.value == timer
  }

  predicate SpeaksFor(e: Entry, ticket: nat, kind: Kind, timer: Timer) {
    e.ticket == ticket && e.kind == kind && Names(e, timer)
  }

  function Earlier(a: Option<int>, at: int): Option<int> {
    match a case None => Some(at) case Some(b) => Some(if at < b then at else b)
  }

  /** The earliest entry that speaks for a timer. */
  function Earliest(timeline: seq<Entry>, ticket: nat, kind: Kind, timer: Timer): Option<int> {
    if timeline == [] then None
    else
      var before := Earliest(timeline[..|timeline| - 1], ticket, kind, timer);
      var last := timeline[|timeline| - 1];
      if SpeaksFor(last, ticket, kind, timer) then Earlier(before, last.at) else before
  }

  /** It is the earliest in time, wherever on the timeline it stands. */
  lemma {:induction false} EarliestIsTheMinimum(timeline: seq<Entry>, ticket: nat, kind: Kind, timer: Timer)
    ensures Earliest(timeline, ticket, kind, timer).None?
            <==> forall i | 0 <= i < |timeline| :: !SpeaksFor(timeline[i], ticket, kind, timer)
    ensures Earliest(timeline, ticket, kind, timer).Some? ==>
              var first := Earliest(timeline, ticket, kind, timer).value;
              && (exists i | 0 <= i < |timeline| ::
                  SpeaksFor(timeline[i], ticket, kind, timer) && timeline[i].at == first)
              && (forall i | 0 <= i < |timeline| && SpeaksFor(timeline[i], ticket, kind, timer) ::
                    first <= timeline[i].at)
  {
    if timeline != [] {
      var n := |timeline| - 1;
      var front := timeline[..n];
      EarliestIsTheMinimum(front, ticket, kind, timer);
      if Earliest(front, ticket, kind, timer).Some? {
        var i: nat :| i < n && SpeaksFor(front[i], ticket, kind, timer)
                      && front[i].at == Earliest(front, ticket, kind, timer).value;
        assert timeline[i] == front[i];
      }
      forall i | 0 <= i < n && SpeaksFor(timeline[i], ticket, kind, timer)
        ensures SpeaksFor(front[i], ticket, kind, timer)
      {
      }
    }
  }

  function Lookup(m: map<Timer, int>, timer: Timer): Option<int> {
    if timer in m then Some(m[timer]) else None
  }

  ghost predicate Indexes(index: map<nat, Recorded>, timeline: seq<Entry>) {
    forall ticket: nat, kind: Kind, timer: Timer ::
      Lookup(Of(if ticket in index then index[ticket] else NOTHING, kind), timer)
      == Earliest(timeline, ticket, kind, timer)
  }

  function Note(m: map<Timer, int>, e: Entry, timer: Timer): map<Timer, int> {
    m[timer := if timer in m && m[timer] <= e.at then m[timer] else e.at]
  }

  function Noted(current: Recorded, e: Entry): Recorded {
    var m := Of(current, e.kind);
    var m1 := if Names(e, Response) then Note(m, e, Response) else m;
    var m2 := if Names(e, Resolution) then Note(m1, e, Resolution) else m1;
    if e.kind.Warned? then current.(warnings := m2) else current.(breaches := m2)
  }

  lemma NotedLookup(current: Recorded, e: Entry, kind: Kind, timer: Timer)
    ensures Lookup(Of(Noted(current, e), kind), timer) ==
            var before := Lookup(Of(current, kind), timer);
            if kind == e.kind && Names(e, timer) then Earlier(before, e.at) else before
  {
  }

  lemma IndexStep(index: map<nat, Recorded>, timeline: seq<Entry>, e: Entry)
    requires Indexes(index, timeline)
    ensures var current := if e.ticket in index then index[e.ticket] else NOTHING;
            Indexes(index[e.ticket := Noted(current, e)], timeline + [e])
  {
    hide Noted;
    var current := if e.ticket in index then index[e.ticket] else NOTHING;
    var next := index[e.ticket := Noted(current, e)];
    assert (timeline + [e])[..|timeline|] == timeline;
    forall ticket: nat, kind: Kind, timer: Timer
      ensures Lookup(Of(if ticket in next then next[ticket] else NOTHING, kind), timer)
              == Earliest(timeline + [e], ticket, kind, timer)
    {
      assert Lookup(Of(if ticket in index then index[ticket] else NOTHING, kind), timer)
          == Earliest(timeline, ticket, kind, timer);
      NotedLookup(current, e, kind, timer);
    }
  }

  /** `index_alerts`: one pass, and every question about what has been said has its answer. */
  method IndexAlerts(events: seq<Entry>) returns (index: map<nat, Recorded>)
    ensures Indexes(index, events)
  {
    index := map[];
    var i := 0;
    while i < |events|
      invariant i <= |events|
      invariant Indexes(index, events[..i])
    {
      var e := events[i];
      var current := if e.ticket in index then index[e.ticket] else NOTHING;
      assert events[..i + 1] == events[..i] + [e];
      IndexStep(index, events[..i], e);
      index := index[e.ticket := Noted(current, e)];
      i := i + 1;
    }
    assert events[..i] == events;
  }

  // ----- what is due -------------------------------------------------------------------------

  /** `due_alerts` for one timer: the alert its state earns, unless it has been given. */
  function Alert(position: Position, recorded: Recorded): Option<Kind> {
    match position.state
    case Warning => if position.timer in recorded.warnings then None else Some(Warned)
    case Breached => if position.timer in recorded.breaches then None else Some(Missed)
    case _ => None
  }

  function AlertEntry(ticket: nat, position: Position, recorded: Recorded, stamp: int): seq<Entry> {
    match Alert(position, recorded)
    case None => []
    case Some(kind) => [Entry(ticket, kind, Some(position.timer), stamp)]
  }

  /** The entries one ticket earns in a sweep: response first. */
  function NewEntries(ticket: nat, t: Ticket, p: Policy, recorded: Recorded, now: int, stamp: int): seq<Entry> {
    AlertEntry(ticket, Resolve(t, p, Response, now), recorded, stamp)
    + AlertEntry(ticket, Resolve(t, p, Resolution, now), recorded, stamp)
  }

  /** What the guard reads about a ticket. */
  function RecordedOf(timeline: seq<Entry>, ticket: nat): Recorded {
    Recorded(map timer: Timer | timer in {Response, Resolution} && Earliest(timeline, ticket, Warned, timer).Some?
                 :: Earliest(timeline, ticket, Warned, timer).value,
             map timer: Timer | timer in {Response, Resolution} && Earliest(timeline, ticket, Missed, timer).Some?
                 :: Earliest(timeline, ticket, Missed, timer).value)
  }

  lemma IndexedIsRecorded(index: map<nat, Recorded>, timeline: seq<Entry>, ticket: nat)
    requires Indexes(index, timeline)
    ensures (if ticket in index then index[ticket] else NOTHING) == RecordedOf(timeline, ticket)
  {
    hide Earliest;
    var r := if ticket in index then index[ticket] else NOTHING;
    forall kind: Kind, timer: Timer
      ensures timer in Of(r, kind) <==> Earliest(timeline, ticket, kind, timer).Some?
      ensures timer in Of(r, kind) ==> Of(r, kind)[timer] == Earliest(timeline, ticket, kind, timer).value
    {
      assert Lookup(Of(r, kind), timer) == Earliest(timeline, ticket, kind, timer);
    }
    var said := RecordedOf(timeline, ticket);
    forall timer: Timer
      ensures timer in r.warnings <==> timer in said.warnings
      ensures timer in r.warnings ==> r.warnings[timer] == said.warnings[timer]
      ensures timer in r.breaches <==> timer in said.breaches
      ensures timer in r.breaches ==> r.breaches[timer] == said.breaches[timer]
    {
      assert timer.Response? || timer.Resolution?;
      assert timer in Of(r, Warned) <==> Earliest(timeline, ticket, Warned, timer).Some?;
      assert timer in Of(r, Missed) <==> Earliest(timeline, ticket, Missed, timer).Some?;
    }
    assert r.warnings == said.warnings && r.breaches == said.breaches;
  }

  // ----- one sweep -----------------------------------------------------------------------------

  datatype Status = Open | Assigned | InProgress | Waiting | Resolved | Closed

  /** The edges of the lifecycle. Reopening is the one out of `Closed`. */
  predicate CanTransition(from: Status, to: Status) {
    match from
    case Open => to == Assigned
    case Assigned => to == InProgress
    case InProgress => to == Waiting || to == Resolved
    case Waiting => to == InProgress
    case Resolved => to == Closed
    case Closed => to == Open
  }

  predicate Terminal(status: Status) {
    status == Resolved || status == Closed
  }

  datatype Row = Row(ticket: Ticket, priority: Priority, status: Status)

  /** `find_pending`: open, under an active policy, and old enough for its earliest alert. */
  predicate Candidate(row: Row, policies: map<Priority, Policy>, now: int) {
    && row.priority in policies
    && !Terminal(row.status)
    && row.ticket.created <= now - EarliestAlertOffset(policies[row.priority])
  }

  /** Who is asked about: the open tickets under a policy in force that have used up the warning share
      of their response target. */
  lemma CandidatesAreOldEnough(row: Row, policies: map<Priority, Policy>, now: int)
    requires row.priority in policies ==> Valid(policies[row.priority])
    ensures Candidate(row, policies, now) <==>
              && row.priority in policies && row.status != Resolved && row.status != Closed
              && 100 * (now - row.ticket.created)
                 >= policies[row.priority].percent * (policies[row.priority].responseMinutes * MINUTE)
  {
    if row.priority in policies {
      WarningBand(policies[row.priority].responseMinutes, policies[row.priority].percent);
    }
  }

  /** The query leaves out a ticket with an alert due exactly when its work is over: its age
      never keeps it out, a late resolution between two sweeps does. */
  lemma LeftOutExactlyWhenTerminal(row: Row, policies: map<Priority, Policy>, recorded: Recorded, timer: Timer,
                                   now: int)
    requires row.priority in policies && Valid(policies[row.priority])
    requires Stopped(row.ticket, timer).Some? ==> Stopped(row.ticket, timer).value <= now
    requires Alert(Resolve(row.ticket, policies[row.priority], timer, now), recorded).Some?
    ensures !Candidate(row, policies, now) <==> Terminal(row.status)
  {
    hide Resolve;
    DueAlertsAreOldEnough(row.ticket, policies[row.priority], timer, now);
  }

  /** Every ticket of a batch exists and has an active policy. */
  predicate Sweepable(rows: seq<Row>, policies: map<Priority, Policy>, todo: seq<nat>) {
    forall k | 0 <= k < |todo| :: todo[k] < |rows| && rows[todo[k]].priority in policies
  }

  function SweepTicket(rows: seq<Row>, policies: map<Priority, Policy>, timeline: seq<Entry>, i: nat,
                       now: int, stamp: int): seq<Entry>
    requires i < |rows| && rows[i].priority in policies
  {
    timeline + NewEntries(i, rows[i].ticket, policies[rows[i].priority], RecordedOf(timeline, i), now, stamp)
  }

  /** A sweep, with the guard read afresh for every ticket. */
  function Swept(rows: seq<Row>, policies: map<Priority, Policy>, timeline: seq<Entry>, todo: seq<nat>,
                 now: int, stamp: int): seq<Entry>
    requires Sweepable(rows, policies, todo)
  {
    if todo == [] then timeline
    else
      var n := |todo| - 1;
      SweepTicket(rows, policies, Swept(rows, policies, timeline, todo[..n], now, stamp), todo[n], now, stamp)
  }

  lemma {:induction false} EarliestSkips(timeline: seq<Entry>, more: seq<Entry>, ticket: nat, kind: Kind, timer: Timer)
    requires forall k | 0 <= k < |more| :: more[k].ticket != ticket
    ensures Earliest(timeline + more, ticket, kind, timer) == Earliest(timeline, ticket, kind, timer)
  {
    if more == [] {
      assert timeline + more == timeline;
    } else {
      var n := |more| - 1;
      assert (timeline + more)[..|timeline + more| - 1] == timeline + more[..n];
      EarliestSkips(timeline, more[..n], ticket, kind, timer);
    }
  }

  lemma OtherTicketsAreNotHeard(timeline: seq<Entry>, more: seq<Entry>, ticket: nat)
    requires forall k | 0 <= k < |more| :: more[k].ticket != ticket
    ensures RecordedOf(timeline + more, ticket) == RecordedOf(timeline, ticket)
  {
    hide Earliest;
    forall kind: Kind, timer: Timer
      ensures Earliest(timeline + more, ticket, kind, timer) == Earliest(timeline, ticket, kind, timer)
    {
      EarliestSkips(timeline, more, ticket, kind, timer);
    }
  }

  lemma {:induction false} SweptAdds(rows: seq<Row>, policies: map<Priority, Policy>, timeline: seq<Entry>,
                                     todo: seq<nat>, now: int, stamp: int)
    requires Sweepable(rows, policies, todo)
    ensures var after := Swept(rows, policies, timeline, todo, now, stamp);
            && timeline <= after
            && forall k | |timeline| <= k < |after| :: after[k].ticket in todo
  {
    hide RecordedOf;
    if todo != [] {
      SweptAdds(rows, policies, timeline, todo[..|todo| - 1], now, stamp);
    }
  }

  lemma {:induction false} SweptConcat(rows: seq<Row>, policies: map<Priority, Policy>, timeline: seq<Entry>,
                                       a: seq<nat>, b: seq<nat>, now: int, stamp: int)
    requires Sweepable(rows, policies, a) && Sweepable(rows, policies, b)
    ensures Sweepable(rows, policies, a + b)
    ensures Swept(rows, policies, timeline, a + b, now, stamp)
            == Swept(rows, policies, Swept(rows, policies, timeline, a, now, stamp), b, now, stamp)
  {
    hide SweepTicket;
    if b == [] {
      assert a + b == a;
    } else {
      var n := |b| - 1;
      assert (a + b)[..|a + b| - 1] == a + b[..n];
      SweptConcat(rows, policies, timeline, a, b[..n], now, stamp);
    }
  }

  function Flatten(batches: seq<seq<nat>>): seq<nat> {
    if batches == [] then [] else Flatten(batches[..|batches| - 1]) + batches[|batches| - 1]
  }

  class Tenant {
    var rows: seq<Row>
    var policies: map<Priority, Policy>   // the active ones
    var timeline: seq<Entry>

    constructor (rows: seq<Row>, policies: map<Priority, Policy>)
      ensures this.rows == rows && this.policies == policies && timeline == []
    {
      this.rows, this.policies, timeline := rows, policies, [];
    }

    /** One priority's pass. The guard is read once, before the loop. */
    method SweepBatch(todo: seq<nat>, now: int, stamp: int)
      requires Sweepable(rows, policies, todo)
      requires forall j, k | 0 <= j < k < |todo| :: todo[j] != todo[k]
      modifies this`timeline
      ensures timeline == Swept(rows, policies, old(timeline), todo, now, stamp)
    {
      hide Swept, RecordedOf, NewEntries, Earliest, Indexes;
      var index := IndexAlerts(timeline);
      var k := 0;
      assert todo[..0] == [];
      SweptNothing(rows, policies, timeline, now, stamp);
      while k < |todo|
        invariant k <= |todo|
        invariant Sweepable(rows, policies, todo[..k])
        invariant timeline == Swept(rows, policies, old(timeline), todo[..k], now, stamp)
      {
        var i := todo[k];
        SweptAdds(rows, policies, old(timeline), todo[..k], now, stamp);
        var more := timeline[|old(timeline)|..];
        assert timeline == old(timeline) + more;
        forall j | 0 <= j < |more| ensures more[j].ticket != i {
          assert more[j] == timeline[|old(timeline)| + j];
        }
        OtherTicketsAreNotHeard(old(timeline), more, i);
        IndexedIsRecorded(index, old(timeline), i);
        var recorded := if i in index then index[i] else NOTHING;
        SweptStep(rows, policies, old(timeline), todo, k, now, stamp);
        timeline := timeline + NewEntries(i, rows[i].ticket, policies[rows[i].priority], recorded, now, stamp);
        k := k + 1;
      }
      assert todo[..k] == todo;
    }

    /** `_sweep`: the passes of all priorities, on what each finds, and one commit. */
    method Sweep(batches: seq<seq<nat>>, now: int, stamp: int)
      requires forall b | 0 <= b < |batches| :: Sweepable(rows, policies, batches[b])
      requires forall b, j, k | 0 <= b < |batches| && 0 <= j < k < |batches[b]| :: batches[b][j] != batches[b][k]
      modifies this`timeline
      ensures Sweepable(rows, policies, Flatten(batches))
      ensures timeline == Swept(rows, policies, old(timeline), Flatten(batches), now, stamp)
    {
      var b := 0;
      while b < |batches|
        invariant b <= |batches|
        invariant Sweepable(rows, policies, Flatten(batches[..b]))
        invariant timeline == Swept(rows, policies, old(timeline), Flatten(batches[..b]), now, stamp)
      {
        SweepBatch(batches[b], now, stamp);
        assert batches[..b + 1][..b] == batches[..b];
        SweptConcat(rows, policies, old(timeline), Flatten(batches[..b]), batches[b], now, stamp);
        b := b + 1;
      }
      assert batches[..b] == batches;
    }
  }

  lemma SweptNothing(rows: seq<Row>, policies: map<Priority, Policy>, timeline: seq<Entry>, now: int, stamp: int)
    ensures Swept(rows, policies, timeline, [], now, stamp) == timeline
  {
  }

  lemma SweptStep(rows: seq<Row>, policies: map<Priority, Policy>, timeline: seq<Entry>, todo: seq<nat>, k: nat,
                  now: int, stamp: int)
    requires Sweepable(rows, policies, todo) && k < |todo|
    ensures Sweepable(rows, policies, todo[..k]) && Sweepable(rows, policies, todo[..k + 1])
    ensures Swept(rows, policies, timeline, todo[..k + 1], now, stamp)
            == SweepTicket(rows, policies, Swept(rows, policies, timeline, todo[..k], now, stamp), todo[k], now, stamp)
  {
    assert todo[..k + 1][..k] == todo[..k];
  }

  // ----- what a sweep says ----------------------------------------------------------------------

  /** Has this been said of the ticket's timer? An entry whose timer cannot be read says it of both. */
  ghost predicate Said(timeline: seq<Entry>, ticket: nat, kind: Kind, timer: Timer) {
    exists k | 0 <= k < |timeline| :: timeline[k].ticket == ticket && timeline[k].kind == kind
                                      && (timeline[k].timer.None? || timeline[k].timer == Some(timer))
  }

  lemma SaidIsRecorded(timeline: seq<Entry>, ticket: nat, kind: Kind, timer: Timer)
    ensures timer in Of(RecordedOf(timeline, ticket), kind) <==> Said(timeline, ticket, kind, timer)
  {
    hide Earliest;
    EarliestIsTheMinimum(timeline, ticket, kind, timer);
    assert timer.Response? || timer.Resolution?;
    forall k | 0 <= k < |timeline|
      ensures SpeaksFor(timeline[k], ticket, kind, timer)
              <==> timeline[k].ticket == ticket && timeline[k].kind == kind
                   && (timeline[k].timer.None? || timeline[k].timer == Some(timer))
    {
    }
  }

  /** The state that calls for an alert. */
  function Cause(kind: Kind): State {
    if kind.Warned? then Warning else Breached
  }

  lemma TicketEntries(i: nat, t: Ticket, p: Policy, recorded: Recorded, now: int, stamp: int, e: Entry)
    ensures e in NewEntries(i, t, p, recorded, now, stamp)
            <==> e.ticket == i && e.at == stamp && e.timer.Some?
                 && Resolve(t, p, e.timer.value, now).state == Cause(e.kind)
                 && e.timer.value !in Of(recorded, e.kind)
    ensures |NewEntries(i, t, p, recorded, now, stamp)| <= 2
    ensures forall k, l | 0 <= k < l < |NewEntries(i, t, p, recorded, now, stamp)| ::
              NewEntries(i, t, p, recorded, now, stamp)[k].timer == Some(Response)
              && NewEntries(i, t, p, recorded, now, stamp)[l].timer == Some(Resolution)
  {
    var x, y := Resolve(t, p, Response, now), Resolve(t, p, Resolution, now);
    assert x.timer == Response && y.timer == Resolution;
    assert NewEntries(i, t, p, recorded, now, stamp)
        == AlertEntry(i, x, recorded, stamp) + AlertEntry(i, y, recorded, stamp);
  }

  /** An entry that should be written now: of a state that calls for it, and not said before. */
  ghost predicate Owed(rows: seq<Row>, policies: map<Priority, Policy>, timeline: seq<Entry>, now: int, stamp: int,
                       e: Entry) {
    && e.ticket < |rows| && rows[e.ticket].priority in policies && e.at == stamp && e.timer.Some?
    && Resolve(rows[e.ticket].ticket, policies[rows[e.ticket].priority], e.timer.value, now).state == Cause(e.kind)
    && !Said(timeline, e.ticket, e.kind, e.timer.value)
  }

  lemma TicketSays(rows: seq<Row>, policies: map<Priority, Policy>, timeline: seq<Entry>, before: seq<Entry>, i: nat,
                   now: int, stamp: int, e: Entry)
    requires i < |rows| && rows[i].priority in policies && timeline <= before
    requires forall k | |timeline| <= k < |before| :: before[k].ticket != i
    ensures SweepTicket(rows, policies, before, i, now, stamp)[..|before|] == before
    ensures e in SweepTicket(rows, policies, before, i, now, stamp)[|before|..]
            <==> e.ticket == i && Owed(rows, policies, timeline, now, stamp, e)
  {
    hide NewEntries, RecordedOf, Said, Resolve;
    var more := before[|timeline|..];
    assert before == timeline + more;
    OtherTicketsAreNotHeard(timeline, more, i);
    var recorded := RecordedOf(timeline, i);
    TicketEntries(i, rows[i].ticket, policies[rows[i].priority], recorded, now, stamp, e);
    if e.timer.Some? { SaidIsRecorded(timeline, i, e.kind, e.timer.value); }
  }

  lemma TwoEnds(timeline: seq<Entry>, before: seq<Entry>, after: seq<Entry>, e: Entry)
    requires timeline <= before && |before| <= |after| && after[..|before|] == before
    ensures timeline <= after
    ensures e in after[|timeline|..] <==> e in before[|timeline|..] || e in after[|before|..]
  {
    assert after[|timeline|..] == before[|timeline|..] + after[|before|..];
  }

  /** What a sweep adds, ticket by ticket and timer by timer: the alert of a state that calls for one
      and was not said before, stamped, and nothing else. */
  lemma {:induction false} SweepSays(rows: seq<Row>, policies: map<Priority, Policy>, timeline: seq<Entry>,
                                     todo: seq<nat>, now: int, stamp: int, e: Entry)
    requires Sweepable(rows, policies, todo) && forall j, k | 0 <= j < k < |todo| :: todo[j] != todo[k]
    ensures timeline <= Swept(rows, policies, timeline, todo, now, stamp)
    ensures e in Swept(rows, policies, timeline, todo, now, stamp)[|timeline|..]
            <==> e.ticket in todo && Owed(rows, policies, timeline, now, stamp, e)
  {
    hide SweepTicket, Owed;
    if todo != [] {
      var n := |todo| - 1;
      var before := Swept(rows, policies, timeline, todo[..n], now, stamp);
      SweepSays(rows, policies, timeline, todo[..n], now, stamp, e);
      SweptAdds(rows, policies, timeline, todo[..n], now, stamp);
      assert todo[n] !in todo[..n];
      TicketSays(rows, policies, timeline, before, todo[n], now, stamp, e);
      TicketGrows(rows, policies, before, todo[n], now, stamp);
      TwoEnds(timeline, before, SweepTicket(rows, policies, before, todo[n], now, stamp), e);
      assert todo == todo[..n] + [todo[n]];
    }
  }

  lemma TicketGrows(rows: seq<Row>, policies: map<Priority, Policy>, timeline: seq<Entry>, i: nat, now: int, stamp: int)
    requires i < |rows| && rows[i].priority in policies
    ensures |timeline| <= |SweepTicket(rows, policies, timeline, i, now, stamp)|
  {
  }

  // ----- the second sweep ------------------------------------------------------------------------

  /** Nothing is due for the ticket at this instant that has not been said. */
  ghost predicate Quiet(rows: seq<Row>, policies: map<Priority, Policy>, timeline: seq<Entry>, i: nat, now: int)
    requires i < |rows| && rows[i].priority in policies
  {
    forall timer: Timer ::
      Alert(Resolve(rows[i].ticket, policies[rows[i].priority], timer, now), RecordedOf(timeline, i)).None?
  }

  lemma {:induction false} EarliestStays(timeline: seq<Entry>, more: seq<Entry>, ticket: nat, kind: Kind, timer: Timer)
    ensures Earliest(timeline, ticket, kind, timer).Some? ==> Earliest(timeline + more, ticket, kind, timer).Some?
  {
    EarliestIsTheMinimum(timeline, ticket, kind, timer);
    EarliestIsTheMinimum(timeline + more, ticket, kind, timer);
    if Earliest(timeline, ticket, kind, timer).Some? {
      var i: nat :| i < |timeline| && SpeaksFor(timeline[i], ticket, kind, timer);
      assert (timeline + more)[i] == timeline[i];
    }
  }

  lemma QuietStays(rows: seq<Row>, policies: map<Priority, Policy>, timeline: seq<Entry>, more: seq<Entry>, i: nat,
                   now: int)
    requires i < |rows| && rows[i].priority in policies && Quiet(rows, policies, timeline, i, now)
    ensures Quiet(rows, policies, timeline + more, i, now)
  {
    hide Earliest, Resolve;
    forall timer: Timer
      ensures Alert(Resolve(rows[i].ticket, policies[rows[i].priority], timer, now),
              RecordedOf(timeline + more, i)).None?
    {
      var position := Resolve(rows[i].ticket, policies[rows[i].priority], timer, now);
      assert Alert(position, RecordedOf(timeline, i)).None?;
      EarliestStays(timeline, more, i, Warned, position.timer);
      EarliestStays(timeline, more, i, Missed, position.timer);
    }
  }

  lemma SpokenIsRecorded(timeline: seq<Entry>, k: nat, kind: Kind, timer: Timer)
    requires k < |timeline| && SpeaksFor(timeline[k], timeline[k].ticket, kind, timer)
    ensures timer in Of(RecordedOf(timeline, timeline[k].ticket), kind)
  {
    hide Earliest;
    EarliestIsTheMinimum(timeline, timeline[k].ticket, kind, timer);
    assert timer.Response? || timer.Resolution?;
  }

  lemma QuietAfterSweep(rows: seq<Row>, policies: map<Priority, Policy>, timeline: seq<Entry>, i: nat, now: int,
                        stamp: int)
    requires i < |rows| && rows[i].priority in policies
    ensures Quiet(rows, policies, SweepTicket(rows, policies, timeline, i, now, stamp), i, now)
  {
    hide RecordedOf, Resolve;
    var after := SweepTicket(rows, policies, timeline, i, now, stamp);
    forall timer: Timer
      ensures Alert(Resolve(rows[i].ticket, policies[rows[i].priority], timer, now), RecordedOf(after, i)).None?
    {
      AlertedOnce(rows, policies, timeline, i, timer, now, stamp);
    }
  }

  lemma AlertedOnce(rows: seq<Row>, policies: map<Priority, Policy>, timeline: seq<Entry>, i: nat, timer: Timer,
                    now: int, stamp: int)
    requires i < |rows| && rows[i].priority in policies
    ensures Alert(Resolve(rows[i].ticket, policies[rows[i].priority], timer, now),
                  RecordedOf(SweepTicket(rows, policies, timeline, i, now, stamp), i)).None?
  {
    hide Earliest;
    var p := policies[rows[i].priority];
    var position := Resolve(rows[i].ticket, p, timer, now);
    var recorded := RecordedOf(timeline, i);
    var a := AlertEntry(i, Resolve(rows[i].ticket, p, Response, now), recorded, stamp);
    var b := AlertEntry(i, Resolve(rows[i].ticket, p, Resolution, now), recorded, stamp);
    var after := SweepTicket(rows, policies, timeline, i, now, stamp);
    assert after == timeline + (a + b);
    match Alert(position, recorded)
    case None =>
      EarliestStays(timeline, a + b, i, Warned, timer);
      EarliestStays(timeline, a + b, i, Missed, timer);
    case Some(kind) =>
      var k := |timeline| + if timer.Response? then 0 else |a|;
      assert after[k] == Entry(i, kind, Some(timer), stamp);
      SpokenIsRecorded(after, k, kind, timer);
  }

  lemma {:induction false} SweptIsQuiet(rows: seq<Row>, policies: map<Priority, Policy>, timeline: seq<Entry>,
                                        todo: seq<nat>, now: int, stamp: int, i: nat)
    requires Sweepable(rows, policies, todo) && i in todo
    ensures i < |rows| && rows[i].priority in policies
    ensures Quiet(rows, policies, Swept(rows, policies, timeline, todo, now, stamp), i, now)
  {
    hide Quiet, NewEntries, RecordedOf;
    var n := |todo| - 1;
    var before := Swept(rows, policies, timeline, todo[..n], now, stamp);
    if todo[n] == i {
      QuietAfterSweep(rows, policies, before, i, now, stamp);
    } else {
      SweptIsQuiet(rows, policies, timeline, todo[..n], now, stamp, i);
      var p := policies[rows[todo[n]].priority];
      QuietStays(rows, policies, before,
          NewEntries(todo[n], rows[todo[n]].ticket, p, RecordedOf(before, todo[n]), now, stamp), i, now);
    }
  }

  /** A second sweep over any of the same tickets, with nothing changed, adds nothing. */
  lemma {:induction false} SecondSweepAddsNothing(rows: seq<Row>, policies: map<Priority, Policy>, timeline: seq<Entry>,
                                                  todo: seq<nat>, again: seq<nat>, now: int, stamp: int, later: int)
    requires Sweepable(rows, policies, todo) && forall k | 0 <= k < |again| :: again[k] in todo
    ensures Sweepable(rows, policies, again)
    ensures var after := Swept(rows, policies, timeline, todo, now, stamp);
            Swept(rows, policies, after, again, now, later) == after
  {
    hide Quiet, RecordedOf;
    if again != [] {
      var n := |again| - 1;
      SecondSweepAddsNothing(rows, policies, timeline, todo, again[..n], now, stamp, later);
      SweptIsQuiet(rows, policies, timeline, todo, now, stamp, again[n]);
      QuietAddsNothing(rows, policies, Swept(rows, policies, timeline, todo, now, stamp), again[n], now, later);
    }
  }

  lemma QuietAddsNothing(rows: seq<Row>, policies: map<Priority, Policy>, timeline: seq<Entry>, i: nat, now: int,
                         stamp: int)
    requires i < |rows| && rows[i].priority in policies && Quiet(rows, policies, timeline, i, now)
    ensures SweepTicket(rows, policies, timeline, i, now, stamp) == timeline
  {
    hide RecordedOf;
    var p := policies[rows[i].priority];
    assert Alert(Resolve(rows[i].ticket, p, Response, now), RecordedOf(timeline, i)).None?;
    assert Alert(Resolve(rows[i].ticket, p, Resolution, now), RecordedOf(timeline, i)).None?;
  }
}
