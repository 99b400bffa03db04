/** Replies, moves along the lifecycle, policy edits, priority changes and sweeps, in any order. */
module SlaRuns {
  import opened Common
  import opened SlaClock
  import opened SlaSweep

  datatype World = World(now: int, rows: seq<Row>, policies: map<Priority, Policy>, timeline: seq<Entry>)

  datatype Step =
    | Tick(us: nat)
    | Create(priority: Priority)
    | Reply(ticket: nat)                              // the first public staff reply
    | Move(ticket: nat, status: Status)               // one edge of the lifecycle
    | Reprioritize(ticket: nat, priority: Priority)
    | Edit(priority: Priority, policy: Option<Policy>) // None: switched off
    | Sweep(todo: seq<nat>, stamp: int)               // the tickets the candidate query returned
    | Foreign(ticket: nat, kind: Kind, at: int)       // a row this application did not write

  predicate Enabled(w: World, step: Step) {
    match step
    case Reply(i) => i < |w.rows| && w.rows[i].ticket.firstResponse.None? && w.rows[i].status != Closed
    case Move(i, status) => i < |w.rows| && CanTransition(w.rows[i].status, status)
    case Reprioritize(i, _) => i < |w.rows|
    case Edit(_, policy) => policy.None? || Valid(policy.value)
    case Sweep(todo, _) => Found(w, todo)
    case _ => true
  }

  /** Any tickets the candidate query can return, in any order. */
  predicate Found(w: World, todo: seq<nat>)
    ensures Found(w, todo) ==> Sweepable(w.rows, w.policies, todo)
  {
    forall k | 0 <= k < |todo| :: todo[k] < |w.rows| && Candidate(w.rows[todo[k]], w.policies, w.now)
  }

  function Change(w: World, i: nat, row: Row): World
    requires i < |w.rows|
  {
    w.(rows := w.rows[i := row])
  }

  /** `_transition` and `reopen_ticket`: a resolution sets its time, closing keeps the time there
      is, reopening clears it. */
  function Moved(row: Row, status: Status, now: int): Row {
    var resolved := match status
      case Resolved => Some(now)
      case Closed => if row.ticket.resolved.None? then Some(now) else row.ticket.resolved
      case Open => None
      case _ => row.ticket.resolved;
    row.(status := status, ticket := row.ticket.(resolved := resolved))
  }

  function Next(w: World, step: Step): World
    requires Enabled(w, step)
  {
    match step
    case Tick(us) => w.(now := w.now + us)
    case Create(priority) => w.(rows := w.rows + [Row(Ticket(w.now, None, None), priority, Open)])
    case Reply(i) => Change(w, i, w.rows[i].(ticket := w.rows[i].ticket.(firstResponse := Some(w.now))))
    case Move(i, status) => Change(w, i, Moved(w.rows[i], status, w.now))
    case Reprioritize(i, priority) => Change(w, i, w.rows[i].(priority := priority))
    case Edit(priority, policy) =>
      w.(policies := if policy.Some? then w.policies[priority := policy.value] else w.policies - {priority})
    case Sweep(todo, stamp) => w.(timeline := Swept(w.rows, w.policies, w.timeline, todo, w.now, stamp))
    case Foreign(i, kind, at) => w.(timeline := w.timeline + [Entry(i, kind, None, at)])
  }

  /** The world after a list of steps from `w`; a step that is not possible does nothing. */
  function After(w: World, steps: seq<Step>): World {
    if steps == [] then w
    else
      var before := After(w, steps[..|steps| - 1]);
      var step := steps[|steps| - 1];
      if Enabled(before, step) then Next(before, step) else before
  }

  /** A tenant as it starts: policies in force, tickets whose work is not in the future, and
      nothing said. */
  ghost predicate Fresh(w: World) {
    && w.timeline == []
    && (forall p | p in w.policies :: Valid(w.policies[p]))
    && (forall i, timer: Timer | 0 <= i < |w.rows| && Stopped(w.rows[i].ticket, timer).Some? ::
          Stopped(w.rows[i].ticket, timer).value <= w.now)
  }

  // ----- once per timer and state --------------------------------------------------------------

  ghost predicate SameAlert(a: Entry, b: Entry) {
    a.ticket == b.ticket && a.kind == b.kind && a.timer.Some? && a.timer == b.timer
  }

  ghost predicate Once(timeline: seq<Entry>) {
    forall a, b | 0 <= a < b < |timeline| :: !SameAlert(timeline[a], timeline[b])
  }

  lemma AppendOnce(timeline: seq<Entry>, e: Entry)
    requires Once(timeline) && e.timer.Some?
    requires Earliest(timeline, e.ticket, e.kind, e.timer.value).None?
    ensures Once(timeline + [e])
  {
    EarliestIsTheMinimum(timeline, e.ticket, e.kind, e.timer.value);
  }

  lemma UnsaidIsNone(timeline: seq<Entry>, ticket: nat, kind: Kind, timer: Timer)
    requires timer !in Of(RecordedOf(timeline, ticket), kind)
    ensures Earliest(timeline, ticket, kind, timer).None?
  {
    assert timer.Response? || timer.Resolution?;
  }

  lemma SweepTicketOnce(rows: seq<Row>, policies: map<Priority, Policy>, timeline: seq<Entry>, i: nat, now: int,
                        stamp: int)
    requires i < |rows| && rows[i].priority in policies && Once(timeline)
    ensures Once(SweepTicket(rows, policies, timeline, i, now, stamp))
  {
    hide Earliest, SlaClock.Resolve, RecordedOf;
    var p := policies[rows[i].priority];
    var recorded := RecordedOf(timeline, i);
    var x := SlaClock.Resolve(rows[i].ticket, p, Response, now);
    var y := SlaClock.Resolve(rows[i].ticket, p, Resolution, now);
    PositionTimer(rows[i].ticket, p, now);
    var a, b := AlertEntry(i, x, recorded, stamp), AlertEntry(i, y, recorded, stamp);
    if a != [] {
      UnsaidIsNone(timeline, i, a[0].kind, Response);
      AppendOnce(timeline, a[0]);
    } else {
      assert timeline + a == timeline;
    }
    assert Once(timeline + a);
    if b != [] {
      UnsaidIsNone(timeline, i, b[0].kind, Resolution);
      StillUnsaid(timeline, a, i, b[0].kind);
      AppendOnce(timeline + a, b[0]);
    }
    assert timeline + (a + b) == timeline + a + b;
    assert timeline + a + [] == timeline + a;
  }

  lemma PositionTimer(t: Ticket, p: Policy, now: int)
    ensures SlaClock.Resolve(t, p, Response, now).timer == Response
    ensures SlaClock.Resolve(t, p, Resolution, now).timer == Resolution
  {
  }

  lemma StillUnsaid(timeline: seq<Entry>, a: seq<Entry>, ticket: nat, kind: Kind)
    requires Earliest(timeline, ticket, kind, Resolution).None?
    requires a == [] || (|a| == 1 && a[0].timer == Some(Response))
    ensures Earliest(timeline + a, ticket, kind, Resolution).None?
  {
    if a == [] {
      assert timeline + a == timeline;
    } else {
      assert (timeline + a)[..|timeline|] == timeline;
    }
  }

  lemma {:induction false} SweptOnce(rows: seq<Row>, policies: map<Priority, Policy>, timeline: seq<Entry>,
                                     todo: seq<nat>, now: int, stamp: int)
    requires Sweepable(rows, policies, todo) && Once(timeline)
    ensures Once(Swept(rows, policies, timeline, todo, now, stamp))
  {
    hide SweepTicket, Once;
    if todo != [] {
      var n := |todo| - 1;
      SweptOnce(rows, policies, timeline, todo[..n], now, stamp);
      SweepTicketOnce(rows, policies, Swept(rows, policies, timeline, todo[..n], now, stamp), todo[n], now, stamp);
    }
  }

  /** At most one entry for a ticket, a timer and a state, in every run whatsoever. */
  lemma {:induction false} AlertsAreOnce(w: World, steps: seq<Step>)
    requires w.timeline == []
    ensures Once(After(w, steps).timeline)
  {
    hide Swept;
    if steps != [] {
      var n := |steps| - 1;
      AlertsAreOnce(w, steps[..n]);
      var before := After(w, steps[..n]);
      if Enabled(before, steps[n]) && steps[n].Sweep? {
        SweptOnce(before.rows, before.policies, before.timeline, steps[n].todo, before.now, steps[n].stamp);
      }
    }
  }

  function Code(e: Entry): nat
    requires e.timer.Some?
  {
    (if e.kind.Warned? then 0 else 1) + (if e.timer.value.Response? then 0 else 2)
  }

  /** The application's own entries about one ticket, as numbers below 4. */
  function Alerts(timeline: seq<Entry>, ticket: nat): seq<nat> {
    if timeline == [] then []
    else
      var n := |timeline| - 1;
      Alerts(timeline[..n], ticket)
      + (if timeline[n].ticket == ticket && timeline[n].timer.Some? then [Code(timeline[n])] else [])
  }

  ghost predicate ComesFrom(code: nat, timeline: seq<Entry>, ticket: nat, a: nat) {
    a < |timeline| && timeline[a].ticket == ticket && timeline[a].timer.Some? && Code(timeline[a]) == code
  }

  lemma {:induction false} AlertsAreDistinct(timeline: seq<Entry>, ticket: nat)
    requires Once(timeline)
    ensures forall k | 0 <= k < |Alerts(timeline, ticket)| ::
              Alerts(timeline, ticket)[k] < 4 && exists a: nat ::
                  ComesFrom(Alerts(timeline, ticket)[k], timeline, ticket, a)
    ensures forall k, l | 0 <= k < l < |Alerts(timeline, ticket)| ::
            Alerts(timeline, ticket)[k] != Alerts(timeline, ticket)[l]
  {
    if timeline != [] {
      var n := |timeline| - 1;
      var front := timeline[..n];
      AlertsAreDistinct(front, ticket);
      var before := Alerts(front, ticket);
      var own := timeline[n].ticket == ticket && timeline[n].timer.Some?;
      forall k | 0 <= k < |before|
        ensures exists a: nat :: ComesFrom(before[k], timeline, ticket, a)
        ensures own ==> before[k] != Code(timeline[n])
      {
        var a: nat :| ComesFrom(before[k], front, ticket, a);
        assert timeline[a] == front[a] && !SameAlert(timeline[a], timeline[n]);
        assert ComesFrom(before[k], timeline, ticket, a);
      }
      if own { assert ComesFrom(Code(timeline[n]), timeline, ticket, n); }
    }
  }

  /** However long a ticket is left, it earns four alerts at most. */
  lemma AtMostFourAlerts(w: World, steps: seq<Step>, ticket: nat)
    requires w.timeline == []
    ensures |Alerts(After(w, steps).timeline, ticket)| <= 4
  {
    hide After, Alerts, Once, ComesFrom;
    AlertsAreOnce(w, steps);
    AlertsAreDistinct(After(w, steps).timeline, ticket);
    DistinctFit(Alerts(After(w, steps).timeline, ticket), {0, 1, 2, 3});
  }

  // ----- what is reported ------------------------------------------------------------------------

  lemma {:induction false} TimelineGrows(w: World, steps: seq<Step>, i: nat)
    requires i <= |steps|
    ensures After(w, steps[..i]).timeline <= After(w, steps).timeline
  {
    hide Swept;
    if i == |steps| {
      assert steps[..i] == steps;
    } else {
      var n := |steps| - 1;
      assert steps[..n][..i] == steps[..i];
      TimelineGrows(w, steps[..n], i);
      var before := After(w, steps[..n]);
      if Enabled(before, steps[n]) && steps[n].Sweep? {
        SweptAdds(before.rows, before.policies, before.timeline, steps[n].todo, before.now, steps[n].stamp);
      }
    }
  }

  /** `warned_at` and `breached_at` are the time of the entry the guard reads, from the moment
      it is written and for ever after, on a timeline only this application writes. */
  lemma ReportedIsTheEntry(w: World, steps: seq<Step>, i: nat, a: nat)
    requires w.timeline == [] && i <= |steps| && a < |After(w, steps[..i]).timeline|
    requires forall k | 0 <= k < |After(w, steps).timeline| :: After(w, steps).timeline[k].timer.Some?
    ensures var e := After(w, steps[..i]).timeline[a];
            e.timer.Some?
                && Lookup(Of(RecordedOf(After(w, steps).timeline, e.ticket), e.kind), e.timer.value) == Some(e.at)
  {
    hide Earliest, After;
    var timeline := After(w, steps).timeline;
    AlertsAreOnce(w, steps);
    TimelineGrows(w, steps, i);
    var e := After(w, steps[..i]).timeline[a];
    assert timeline[a] == e;
    EarliestIsTheMinimum(timeline, e.ticket, e.kind, e.timer.value);
    assert e.timer.value.Response? || e.timer.value.Resolution?;
    forall k | 0 <= k < |timeline| && SpeaksFor(timeline[k], e.ticket, e.kind, e.timer.value)
      ensures k == a
    {
      assert k < a ==> !SameAlert(timeline[k], timeline[a]);
      assert a < k ==> !SameAlert(timeline[a], timeline[k]);
    }
  }

  // ----- no warning after a breach -----------------------------------------------------------

  /** No step of the run moves a deadline. */
  predicate FixedTargets(steps: seq<Step>) {
    forall k | 0 <= k < |steps| :: !steps[k].Edit? && !steps[k].Reprioritize?
  }

  ghost predicate InOrder(timeline: seq<Entry>) {
    forall a, b | 0 <= a < b < |timeline| ::
      !(timeline[a].ticket == timeline[b].ticket && timeline[a].timer == timeline[b].timer && timeline[a].timer.Some?
        && timeline[a].kind.Missed? && timeline[b].kind.Warned?)
  }

  /** Can no warning of this timer come any more while deadlines stay where they are? It has
      been given, its priority has no clock, its deadline has passed, or it is a response timer,
      which once stopped never runs again. */
  ghost predicate Harmless(rows: seq<Row>, policies: map<Priority, Policy>, timeline: seq<Entry>, now: int,
                           i: nat, timer: Timer)
    requires i < |rows|
  {
    || timer in RecordedOf(timeline, i).warnings
    || rows[i].priority !in policies
    || now >= rows[i].ticket.created + Target(policies[rows[i].priority], timer) * MINUTE
    || (timer.Response? && rows[i].ticket.firstResponse.Some?)
  }

  /** Every alert of ours is about a ticket there is. */
  ghost predicate Placed(rows: seq<Row>, timeline: seq<Entry>) {
    forall a | 0 <= a < |timeline| && timeline[a].timer.Some? :: timeline[a].ticket < |rows|
  }

  /** No timer whose breach has been told can still be warned about. */
  ghost predicate Settled(rows: seq<Row>, policies: map<Priority, Policy>, timeline: seq<Entry>, now: int)
    requires Placed(rows, timeline)
  {
    forall a | 0 <= a < |timeline| && timeline[a].kind.Missed? && timeline[a].timer.Some? ::
      Harmless(rows, policies, timeline, now, timeline[a].ticket, timeline[a].timer.value)
  }

  ghost predicate StopsArePast(rows: seq<Row>, now: int) {
    forall i, timer: Timer | 0 <= i < |rows| && Stopped(rows[i].ticket, timer).Some? ::
      Stopped(rows[i].ticket, timer).value <= now
  }

  ghost predicate Calm(rows: seq<Row>, policies: map<Priority, Policy>, timeline: seq<Entry>, now: int) {
    InOrder(timeline) && StopsArePast(rows, now) && Placed(rows, timeline) && Settled(rows, policies, timeline, now)
  }

  lemma StillHarmless(rows: seq<Row>, policies: map<Priority, Policy>, timeline: seq<Entry>, more: seq<Entry>, now: int,
                      i: nat, timer: Timer)
    requires i < |rows| && Harmless(rows, policies, timeline, now, i, timer)
    ensures Harmless(rows, policies, timeline + more, now, i, timer)
  {
    hide Earliest;
    EarliestStays(timeline, more, i, Warned, timer);
    assert timer.Response? || timer.Resolution?;
  }

  /** A sweep's next entry about a timer: a breach is of a deadline that has passed, and a
      warning is never of a timer that is harmless. */
  lemma NextEntry(rows: seq<Row>, policies: map<Priority, Policy>, timeline: seq<Entry>, now: int, i: nat, timer: Timer,
                  recorded: Recorded, stamp: int)
    requires i < |rows| && rows[i].priority in policies && StopsArePast(rows, now)
    requires timer in RecordedOf(timeline, i).warnings ==> timer in recorded.warnings
    ensures var position := SlaClock.Resolve(rows[i].ticket, policies[rows[i].priority], timer, now);
            var e := AlertEntry(i, position, recorded, stamp);
            && |e| <= 1
            && (e != [] ==> e[0].ticket == i && e[0].timer == Some(timer))
            && (e != [] && e[0].kind.Missed? ==> forall any: seq<Entry> :: Harmless(rows, policies, any, now, i, timer))
            && (e != [] && e[0].kind.Warned? ==> !Harmless(rows, policies, timeline, now, i, timer))
  {
    hide RecordedOf;
    assert Stopped(rows[i].ticket, timer).Some? ==> Stopped(rows[i].ticket, timer).value <= now;
  }

  lemma EntryKeepsCalm(rows: seq<Row>, policies: map<Priority, Policy>, timeline: seq<Entry>, i: nat, timer: Timer,
                       recorded: Recorded, now: int, stamp: int)
    requires i < |rows| && rows[i].priority in policies && Calm(rows, policies, timeline, now)
    requires timer in RecordedOf(timeline, i).warnings ==> timer in recorded.warnings
    ensures var position := SlaClock.Resolve(rows[i].ticket, policies[rows[i].priority], timer, now);
            var e := AlertEntry(i, position, recorded, stamp);
            Calm(rows, policies, timeline + e, now)
  {
    hide Harmless, AlertEntry;
    var e := AlertEntry(i, SlaClock.Resolve(rows[i].ticket, policies[rows[i].priority], timer, now), recorded, stamp);
    NextEntry(rows, policies, timeline, now, i, timer, recorded, stamp);
    var after := timeline + e;
    forall a | 0 <= a < |after| && after[a].kind.Missed? && after[a].timer.Some?
      ensures Harmless(rows, policies, after, now, after[a].ticket, after[a].timer.value)
    {
      if a < |timeline| {
        assert after[a] == timeline[a];
        StillHarmless(rows, policies, timeline, e, now, after[a].ticket, after[a].timer.value);
      }
    }
  }

  lemma SweepTicketKeepsCalm(rows: seq<Row>, policies: map<Priority, Policy>, timeline: seq<Entry>, i: nat, now: int,
                             stamp: int)
    requires i < |rows| && rows[i].priority in policies && Calm(rows, policies, timeline, now)
    ensures Calm(rows, policies, SweepTicket(rows, policies, timeline, i, now, stamp), now)
  {
    hide Calm, RecordedOf, AlertEntry;
    var recorded := RecordedOf(timeline, i);
    var p := policies[rows[i].priority];
    var a := AlertEntry(i, SlaClock.Resolve(rows[i].ticket, p, Response, now), recorded, stamp);
    var b := AlertEntry(i, SlaClock.Resolve(rows[i].ticket, p, Resolution, now), recorded, stamp);
    EntryKeepsCalm(rows, policies, timeline, i, Response, recorded, now, stamp);
    ResponseSaysNothingOfResolution(timeline, a, i, SlaClock.Resolve(rows[i].ticket, p, Response, now), recorded,
        stamp);
    EntryKeepsCalm(rows, policies, timeline + a, i, Resolution, recorded, now, stamp);
    assert timeline + (a + b) == timeline + a + b;
  }

  lemma ResponseSaysNothingOfResolution(timeline: seq<Entry>, a: seq<Entry>, i: nat, position: Position,
                                        recorded: Recorded, stamp: int)
    requires position.timer == Response && a == AlertEntry(i, position, recorded, stamp)
    ensures Resolution in RecordedOf(timeline + a, i).warnings <==> Resolution in RecordedOf(timeline, i).warnings
  {
    if a == [] {
      assert timeline + a == timeline;
    } else {
      assert (timeline + a)[..|timeline|] == timeline;
    }
  }

  lemma {:induction false} SweptKeepsCalm(rows: seq<Row>, policies: map<Priority, Policy>, timeline: seq<Entry>,
                                          todo: seq<nat>, now: int, stamp: int)
    requires Sweepable(rows, policies, todo) && Calm(rows, policies, timeline, now)
    ensures Calm(rows, policies, Swept(rows, policies, timeline, todo, now, stamp), now)
  {
    hide Calm, SweepTicket;
    if todo != [] {
      var n := |todo| - 1;
      SweptKeepsCalm(rows, policies, timeline, todo[..n], now, stamp);
      SweepTicketKeepsCalm(rows, policies, Swept(rows, policies, timeline, todo[..n], now, stamp), todo[n], now, stamp);
    }
  }

  lemma QuietStep(w: World, step: Step)
    requires Enabled(w, step) && !step.Sweep? && !step.Edit? && !step.Reprioritize?
    requires Calm(w.rows, w.policies, w.timeline, w.now)
    ensures var v := Next(w, step); Calm(v.rows, v.policies, v.timeline, v.now) && v.policies == w.policies
  {
    hide RecordedOf;
    var v := Next(w, step);
    forall i, timer: Timer | 0 <= i < |v.rows| && Stopped(v.rows[i].ticket, timer).Some?
      ensures Stopped(v.rows[i].ticket, timer).value <= v.now
    {
      if i < |w.rows| && Stopped(w.rows[i].ticket, timer).Some? {
        assert Stopped(w.rows[i].ticket, timer).value <= w.now;
      }
    }
    forall a | 0 <= a < |v.timeline| && v.timeline[a].kind.Missed? && v.timeline[a].timer.Some?
      ensures Harmless(v.rows, v.policies, v.timeline, v.now, v.timeline[a].ticket, v.timeline[a].timer.value)
    {
      assert v.timeline[a] == w.timeline[a];
      var i, timer := w.timeline[a].ticket, w.timeline[a].timer.value;
      assert Harmless(w.rows, w.policies, w.timeline, w.now, i, timer);
      if step.Foreign? {
        StillHarmless(w.rows, w.policies, w.timeline, [Entry(step.ticket, step.kind, None, step.at)], w.now, i, timer);
      }
    }
  }

  lemma {:induction false} CalmStays(w: World, steps: seq<Step>)
    requires Calm(w.rows, w.policies, w.timeline, w.now) && FixedTargets(steps)
    ensures var v := After(w, steps); Calm(v.rows, v.policies, v.timeline, v.now) && v.policies == w.policies
  {
    hide Swept, Calm;
    if steps != [] {
      var n := |steps| - 1;
      CalmStays(w, steps[..n]);
      var before := After(w, steps[..n]);
      var step := steps[n];
      if Enabled(before, step) {
        if step.Sweep? {
          SweptKeepsCalm(before.rows, before.policies, before.timeline, step.todo, before.now, step.stamp);
        } else {
          QuietStep(before, step);
        }
      }
    }
  }

  /** With fixed targets, no warning follows a breach of the same timer: not after a stop, a
      reopening or any number of sweeps. */
  lemma NoWarningAfterBreach(w: World, steps: seq<Step>)
    requires Fresh(w) && FixedTargets(steps)
    ensures InOrder(After(w, steps).timeline)
  {
    CalmStays(w, steps);
  }

  /** A ticket is resolved exactly when its status says so. */
  ghost predicate StatusesAgree(rows: seq<Row>) {
    forall i | 0 <= i < |rows| :: rows[i].ticket.resolved.Some? <==> Terminal(rows[i].status)
  }

  lemma {:induction false} StatusesStay(w: World, steps: seq<Step>)
    requires StatusesAgree(w.rows)
    ensures StatusesAgree(After(w, steps).rows)
  {
    hide Swept, Found;
    if steps != [] { StatusesStay(w, steps[..|steps| - 1]); }
  }

  /** The steps that bring a ticket back to work. */
  function Revive(w: World, i: nat): seq<Step>
    requires i < |w.rows|
  {
    match w.rows[i].status
    case Resolved => [Move(i, Closed), Move(i, Open)]
    case Closed => [Move(i, Open)]
    case _ => []
  }

  /** The steps that bring a ticket's timer into its warning band. */
  function Approach(w: World, i: nat, timer: Timer): seq<Step>
    requires i < |w.rows| && w.rows[i].priority in w.policies
  {
    var p := w.policies[w.rows[i].priority];
    var warnAt := w.rows[i].ticket.created + WarningOffset(Target(p, timer), p.percent);
    Revive(w, i) + [Tick(if warnAt > w.now then warnAt - w.now else 0)]
  }

  lemma Revived(w: World, i: nat)
    requires i < |w.rows| && StatusesAgree(w.rows)
    ensures var v := After(w, Revive(w, i));
            && |v.rows| == |w.rows| && v.rows[i].priority == w.rows[i].priority
            && v.rows[i].ticket == w.rows[i].ticket.(resolved := None) && !Terminal(v.rows[i].status)
            && v.timeline == w.timeline && v.policies == w.policies && v.now == w.now
  {
    hide After, Swept, Found;
    AtStart(w);
    if w.rows[i].status == Resolved {
      assert [] + [Move(i, Closed)] == [Move(i, Closed)];
      Snoc(w, [], Move(i, Closed));
      assert [Move(i, Closed)] + [Move(i, Open)] == Revive(w, i);
      Snoc(w, [Move(i, Closed)], Move(i, Open));
    } else if w.rows[i].status == Closed {
      assert [] + [Move(i, Open)] == Revive(w, i);
      Snoc(w, [], Move(i, Open));
    }
  }

  lemma Approached(w: World, i: nat, timer: Timer)
    requires i < |w.rows| && w.rows[i].priority in w.policies && Valid(w.policies[w.rows[i].priority])
    requires StatusesAgree(w.rows) && (timer.Response? ==> w.rows[i].ticket.firstResponse.None?)
    requires w.now < w.rows[i].ticket.created + Target(w.policies[w.rows[i].priority], timer) * MINUTE
    ensures var u := After(w, Approach(w, i, timer));
            && i < |u.rows| && Candidate(u.rows[i], u.policies, u.now) && u.timeline == w.timeline
            && u.rows[i].priority in u.policies
            && SlaClock.Resolve(u.rows[i].ticket, u.policies[u.rows[i].priority], timer, u.now).state
               == SlaClock.Warning
  {
    hide After, Swept, Revive, Found;
    var p := w.policies[w.rows[i].priority];
    var start := Revive(w, i);
    Revived(w, i);
    Snoc(w, start, Approach(w, i, timer)[|start|]);
    WarningBand(Target(p, timer), p.percent);
    var u := After(w, Approach(w, i, timer));
    DueAlertsAreOldEnough(u.rows[i].ticket, p, timer, u.now);
  }

  lemma WarningComes(w: World, a: nat)
    requires Placed(w.rows, w.timeline) && StatusesAgree(w.rows) && forall p | p in w.policies :: Valid(w.policies[p])
    requires a < |w.timeline| && w.timeline[a].kind.Missed? && w.timeline[a].timer.Some?
    requires !Harmless(w.rows, w.policies, w.timeline, w.now, w.timeline[a].ticket, w.timeline[a].timer.value)
    ensures exists steps :: FixedTargets(steps) && !InOrder(After(w, steps).timeline)
  {
    hide RecordedOf, After, Swept, Approach, SlaClock.Resolve, Candidate;
    var i, timer := w.timeline[a].ticket, w.timeline[a].timer.value;
    var start := Approach(w, i, timer);
    ApproachIsCalm(w, i, timer);
    Approached(w, i, timer);
    var u := After(w, start);
    var steps := start + [Sweep([i], 0)];
    Snoc(w, start, Sweep([i], 0));
    SweepOneOf(u.rows, u.policies, u.timeline, i, u.now, 0);
    WarningIsAdded(u.rows, u.policies, u.timeline, i, timer, u.now);
    var last := After(w, steps).timeline;
    var k: nat :| |w.timeline| <= k < |last| && last[k] == Entry(i, Warned, Some(timer), 0);
    assert last[a] == w.timeline[a];
    assert FixedTargets(steps) && !InOrder(last);
  }

  lemma ApproachIsCalm(w: World, i: nat, timer: Timer)
    requires i < |w.rows| && w.rows[i].priority in w.policies
    ensures FixedTargets(Approach(w, i, timer))
  {
  }

  lemma SweepOneOf(rows: seq<Row>, policies: map<Priority, Policy>, timeline: seq<Entry>, i: nat, now: int, stamp: int)
    requires i < |rows| && rows[i].priority in policies
    ensures Swept(rows, policies, timeline, [i], now, stamp) == SweepTicket(rows, policies, timeline, i, now, stamp)
  {
    assert [i][..0] == [];
  }

  lemma WarningIsAdded(rows: seq<Row>, policies: map<Priority, Policy>, timeline: seq<Entry>, i: nat, timer: Timer,
                       now: int)
    requires i < |rows| && rows[i].priority in policies && timer !in RecordedOf(timeline, i).warnings
    requires SlaClock.Resolve(rows[i].ticket, policies[rows[i].priority], timer, now).state == SlaClock.Warning
    ensures var after := SweepTicket(rows, policies, timeline, i, now, 0);
            && timeline <= after
            && exists k: nat :: |timeline| <= k < |after| && after[k] == Entry(i, Warned, Some(timer), 0)
  {
    hide RecordedOf;
    var recorded := RecordedOf(timeline, i);
    var p := policies[rows[i].priority];
    var a := AlertEntry(i, SlaClock.Resolve(rows[i].ticket, p, Response, now), recorded, 0);
    var k := |timeline| + if timer.Response? then 0 else |a|;
    assert SweepTicket(rows, policies, timeline, i, now, 0)[k] == Entry(i, Warned, Some(timer), 0);
  }

  /** From any state, whatever edits led to it, no warning will follow a breach while deadlines
      stay where they are, exactly when every timer told as breached is harmless: the thing to
      look at before an edit takes effect. */
  lemma WarningsStayInOrderExactly(w: World)
    requires Placed(w.rows, w.timeline) && StopsArePast(w.rows, w.now) && StatusesAgree(w.rows)
    requires forall p | p in w.policies :: Valid(w.policies[p])
    ensures (forall steps | FixedTargets(steps) :: InOrder(After(w, steps).timeline))
            <==> InOrder(w.timeline) && Settled(w.rows, w.policies, w.timeline, w.now)
  {
    hide After, InOrder, Harmless;
    if InOrder(w.timeline) && Settled(w.rows, w.policies, w.timeline, w.now) {
      forall steps | FixedTargets(steps) ensures InOrder(After(w, steps).timeline) {
        CalmStays(w, steps);
      }
    } else if !InOrder(w.timeline) {
      AtStart(w);
      assert FixedTargets([]) && !InOrder(After(w, []).timeline);
    } else {
      var a: nat :| a < |w.timeline| && w.timeline[a].kind.Missed? && w.timeline[a].timer.Some?
        && !Harmless(w.rows, w.policies, w.timeline, w.now, w.timeline[a].ticket, w.timeline[a].timer.value);
      WarningComes(w, a);
    }
  }

  /** Moving a deadline after its breach lets a warning follow it. */
  function Extended(): seq<Step> {
    [Create(Urgent), Tick(30 * MINUTE), Sweep([0], 0), Edit(Urgent, Some(Policy(36, 240, 80))), Sweep([0], 1)]
  }

  lemma Snoc(w: World, steps: seq<Step>, step: Step)
    ensures After(w, steps + [step])
            == var v := After(w, steps); if Enabled(v, step) then Next(v, step) else v
  {
    assert (steps + [step])[..|steps|] == steps;
  }

  lemma AtStart(w: World)
    ensures After(w, []) == w
  {
  }

  lemma SweepOne(rows: seq<Row>, policies: map<Priority, Policy>, timeline: seq<Entry>, now: int, stamp: int)
    requires |rows| == 1 && rows[0].priority in policies
    ensures Swept(rows, policies, timeline, [0], now, stamp) == SweepTicket(rows, policies, timeline, 0, now, stamp)
  {
    assert [0][..0] == [];
  }

  lemma UntilTheEdit()
    ensures After(World(0, [], map[Urgent := Policy(30, 240, 80)], []), Extended()[..4])
            == World(30 * MINUTE, [Row(Ticket(0, None, None), Urgent, Open)], map[Urgent := Policy(36, 240, 80)],
                     [LATE])
  {
    hide After, Swept;
    var w := World(0, [], map[Urgent := Policy(30, 240, 80)], []);
    var s := Extended();
    AtStart(w);
    assert s[..1] == [] + [s[0]] && s[..2] == s[..1] + [s[1]] && s[..3] == s[..2] + [s[2]];
    assert s[..4] == s[..3] + [s[3]];
    Snoc(w, [], s[0]);
    Snoc(w, s[..1], s[1]);
    var rows := [Row(Ticket(0, None, None), Urgent, Open)];
    assert After(w, s[..2]) == World(30 * MINUTE, rows, w.policies, []);
    FirstSweep(rows, w.policies);
    Snoc(w, s[..2], s[2]);
    assert After(w, s[..3]) == World(30 * MINUTE, rows, w.policies, [LATE]);
    Snoc(w, s[..3], s[3]);
  }

  lemma ExtendedRun()
    ensures var w := World(0, [], map[Urgent := Policy(30, 240, 80)], []);
            Fresh(w) && !InOrder(After(w, Extended()).timeline)
  {
    hide After, Swept;
    var w := World(0, [], map[Urgent := Policy(30, 240, 80)], []);
    var s := Extended();
    UntilTheEdit();
    assert s == s[..4] + [s[4]];
    Snoc(w, s[..4], s[4]);
    SecondSweep(After(w, s[..4]).rows, After(w, s[..4]).policies);
    var last := After(w, s).timeline;
    assert last[0] == LATE && last[1] == Entry(0, Warned, Some(Response), 1);
  }

  const LATE := Entry(0, Missed, Some(Response), 0)

  lemma FirstSweep(rows: seq<Row>, p: map<Priority, Policy>)
    requires rows == [Row(Ticket(0, None, None), Urgent, Open)] && p == map[Urgent := Policy(30, 240, 80)]
    ensures Swept(rows, p, [], [0], 30 * MINUTE, 0) == [LATE]
  {
    hide Swept;
    SweepOne(rows, p, [], 30 * MINUTE, 0);
    assert RecordedOf([], 0) == NOTHING;
  }

  lemma SecondSweep(rows: seq<Row>, q: map<Priority, Policy>)
    requires rows == [Row(Ticket(0, None, None), Urgent, Open)] && q == map[Urgent := Policy(36, 240, 80)]
    ensures Swept(rows, q, [LATE], [0], 30 * MINUTE, 1) == [LATE, Entry(0, Warned, Some(Response), 1)]
  {
    hide Swept;
    SweepOne(rows, q, [LATE], 30 * MINUTE, 1);
    assert [LATE][..0] == [];
    assert Earliest([LATE], 0, Warned, Response).None?;
    assert Response !in RecordedOf([LATE], 0).warnings;
    assert Alert(SlaClock.Resolve(rows[0].ticket, q[Urgent], Resolution, 30 * MINUTE), RecordedOf([LATE], 0)).None?;
  }

  // ----- work that ends late between two sweeps ------------------------------------------------

  /** No step of the run takes the ticket up again, or writes about it from outside. */
  predicate LeftAlone(steps: seq<Step>, i: nat) {
    forall k | 0 <= k < |steps| :: steps[k] != Move(i, Open) && !(steps[k].Foreign? && steps[k].ticket == i)
  }

  lemma DoneStep(w: World, step: Step, i: nat)
    requires i < |w.rows| && Terminal(w.rows[i].status) && Enabled(w, step)
    requires step != Move(i, Open) && !(step.Foreign? && step.ticket == i)
    ensures var v := Next(w, step);
            i < |v.rows| && Terminal(v.rows[i].status) && RecordedOf(v.timeline, i) == RecordedOf(w.timeline, i)
  {
    hide RecordedOf, Swept;
    var v := Next(w, step);
    if step.Sweep? {
      SweptAdds(w.rows, w.policies, w.timeline, step.todo, w.now, step.stamp);
      assert i !in step.todo;
    }
    var more := v.timeline[|w.timeline|..];
    assert v.timeline == w.timeline + more;
    forall k | 0 <= k < |more| ensures more[k].ticket != i {
      assert more[k] == v.timeline[|w.timeline| + k];
    }
    OtherTicketsAreNotHeard(w.timeline, more, i);
  }

  /** Nothing is said about a resolved or closed ticket until it is reopened. */
  lemma {:induction false} DoneIsSilent(w: World, steps: seq<Step>, i: nat)
    requires i < |w.rows| && Terminal(w.rows[i].status) && LeftAlone(steps, i)
    ensures var v := After(w, steps);
            i < |v.rows| && Terminal(v.rows[i].status) && RecordedOf(v.timeline, i) == RecordedOf(w.timeline, i)
  {
    hide RecordedOf, Enabled, Next;
    if steps != [] {
      var n := |steps| - 1;
      DoneIsSilent(w, steps[..n], i);
      if Enabled(After(w, steps[..n]), steps[n]) { DoneStep(After(w, steps[..n]), steps[n], i); }
    }
  }

  /** What stops a timer: the first staff reply, on a ticket that is not closed, and the move to
      resolved; what starts the clock is the creation, and what restarts the resolution is the
      reopening. */
  lemma StepsStamp(w: World, i: nat, priority: Priority)
    requires i < |w.rows|
    ensures Next(w, Create(priority)).rows == w.rows + [Row(Ticket(w.now, None, None), priority, Open)]
    ensures Enabled(w, Reply(i)) <==> w.rows[i].ticket.firstResponse.None? && w.rows[i].status != Closed
    ensures Enabled(w, Reply(i)) ==>
              Next(w, Reply(i)).rows[i] == w.rows[i].(ticket := w.rows[i].ticket.(firstResponse := Some(w.now)))
    ensures Enabled(w, Move(i, Resolved)) <==> w.rows[i].status == InProgress
    ensures Enabled(w, Move(i, Resolved)) ==> Next(w, Move(i, Resolved)).rows[i].ticket.resolved == Some(w.now)
    ensures Enabled(w, Move(i, Open)) <==> w.rows[i].status == Closed
    ensures Enabled(w, Move(i, Open)) ==> Next(w, Move(i, Open)).rows[i].ticket.resolved == None
  {
  }

  lemma TimesStandStep(w: World, step: Step, i: nat)
    requires i < |w.rows| && Enabled(w, step)
    ensures var v := Next(w, step);
            && i < |v.rows| && v.rows[i].ticket.created == w.rows[i].ticket.created
            && (w.rows[i].ticket.firstResponse.Some? ==>
                  v.rows[i].ticket.firstResponse == w.rows[i].ticket.firstResponse)
            && (Terminal(w.rows[i].status) && w.rows[i].ticket.resolved.Some? && step != Move(i, Open) ==>
                  Terminal(v.rows[i].status) && v.rows[i].ticket.resolved == w.rows[i].ticket.resolved)
  {
    hide Swept, Found;
  }

  /** In every run, a ticket's creation and its first reply stay where they are, and so does its
      resolution until it is reopened: closing does not move it. */
  lemma {:induction false} TimesStand(w: World, steps: seq<Step>, i: nat)
    requires i < |w.rows|
    ensures var v := After(w, steps);
            && i < |v.rows| && v.rows[i].ticket.created == w.rows[i].ticket.created
            && (w.rows[i].ticket.firstResponse.Some? ==>
                  v.rows[i].ticket.firstResponse == w.rows[i].ticket.firstResponse)
            && (Terminal(w.rows[i].status) && w.rows[i].ticket.resolved.Some?
                && (forall k | 0 <= k < |steps| :: steps[k] != Move(i, Open)) ==>
                  Terminal(v.rows[i].status) && v.rows[i].ticket.resolved == w.rows[i].ticket.resolved)
  {
    hide Enabled, Next;
    if steps != [] {
      var n := |steps| - 1;
      TimesStand(w, steps[..n], i);
      if Enabled(After(w, steps[..n]), steps[n]) { TimesStandStep(After(w, steps[..n]), steps[n], i); }
    }
  }

  /** A breach nobody was told of is told, by the next sweep, exactly when the ticket is still
      open: a reply that came too late is, a resolution or a close is not, in any run that does
      not reopen the ticket. */
  lemma BreachIsToldExactlyWhenOpen(w: World, i: nat, timer: Timer)
    requires i < |w.rows| && w.rows[i].priority in w.policies && Valid(w.policies[w.rows[i].priority])
    requires StopsArePast(w.rows, w.now)
    requires SlaClock.Resolve(w.rows[i].ticket, w.policies[w.rows[i].priority], timer, w.now).state == SlaClock.Breached
    requires timer !in RecordedOf(w.timeline, i).breaches
    ensures (exists steps | LeftAlone(steps, i) :: timer in RecordedOf(After(w, steps).timeline, i).breaches)
            <==> !Terminal(w.rows[i].status)
    ensures timer in RecordedOf(After(w, [Sweep([i], 0)]).timeline, i).breaches <==> !Terminal(w.rows[i].status)
  {
    hide RecordedOf, After, Enabled, Next, SlaClock.Resolve;
    var sweep := [Sweep([i], 0)];
    assert LeftAlone(sweep, i);
    if Terminal(w.rows[i].status) {
      forall steps | LeftAlone(steps, i) ensures timer !in RecordedOf(After(w, steps).timeline, i).breaches {
        DoneIsSilent(w, steps, i);
      }
    } else {
      OpenIsTold(w, i, timer);
    }
  }

  lemma OpenIsTold(w: World, i: nat, timer: Timer)
    requires i < |w.rows| && w.rows[i].priority in w.policies && Valid(w.policies[w.rows[i].priority])
    requires StopsArePast(w.rows, w.now) && !Terminal(w.rows[i].status)
    requires SlaClock.Resolve(w.rows[i].ticket, w.policies[w.rows[i].priority], timer, w.now).state == SlaClock.Breached
    ensures timer in RecordedOf(After(w, [Sweep([i], 0)]).timeline, i).breaches
  {
    hide RecordedOf, After, SlaClock.Resolve, Swept;
    var p := w.policies[w.rows[i].priority];
    DueAlertsAreOldEnough(w.rows[i].ticket, p, timer, w.now);
    AtStart(w);
    assert [] + [Sweep([i], 0)] == [Sweep([i], 0)];
    Snoc(w, [], Sweep([i], 0));
    SweepOneOf(w.rows, w.policies, w.timeline, i, w.now, 0);
    QuietAfterSweep(w.rows, w.policies, w.timeline, i, w.now, 0);
    PositionTimer(w.rows[i].ticket, p, w.now);
    assert Alert(SlaClock.Resolve(w.rows[i].ticket, p, timer, w.now),
                 RecordedOf(SweepTicket(w.rows, w.policies, w.timeline, i, w.now, 0), i)).None?;
  }

  /** Resolved a minute late, between a sweep and the next. */
  const LATE_RESOLUTION := [
    Create(Urgent), Tick(1), Reply(0), Move(0, Assigned), Move(0, InProgress), Tick(239 * MINUTE - 1),
    Sweep([0], 0), Tick(2 * MINUTE), Move(0, Resolved), Tick(59 * MINUTE)]

  const SLOW := Ticket(0, Some(1), Some(241 * MINUTE))

  lemma TheWarningSweep(rows: seq<Row>, p: map<Priority, Policy>)
    requires rows == [Row(Ticket(0, Some(1), None), Urgent, InProgress)] && p == map[Urgent := Policy(30, 240, 80)]
    ensures Candidate(rows[0], p, 239 * MINUTE)
    ensures Swept(rows, p, [], [0], 239 * MINUTE, 0) == [Entry(0, Warned, Some(Resolution), 0)]
  {
    hide Swept;
    SweepOne(rows, p, [], 239 * MINUTE, 0);
    assert RecordedOf([], 0) == NOTHING;
  }

  lemma UntilTheSweep()
    ensures After(World(0, [], map[Urgent := Policy(30, 240, 80)], []), LATE_RESOLUTION[..6])
            == World(239 * MINUTE, [Row(Ticket(0, Some(1), None), Urgent, InProgress)],
                map[Urgent := Policy(30, 240, 80)], [])
  {
    hide After, Swept, Found;
    var w := World(0, [], map[Urgent := Policy(30, 240, 80)], []);
    var s := LATE_RESOLUTION;
    AtStart(w);
    assert s[..1] == [] + [s[0]] && s[..2] == s[..1] + [s[1]] && s[..3] == s[..2] + [s[2]];
    assert s[..4] == s[..3] + [s[3]] && s[..5] == s[..4] + [s[4]] && s[..6] == s[..5] + [s[5]];
    Snoc(w, [], s[0]);
    Snoc(w, s[..1], s[1]);
    Snoc(w, s[..2], s[2]);
    Snoc(w, s[..3], s[3]);
    Snoc(w, s[..4], s[4]);
    Snoc(w, s[..5], s[5]);
  }

  /** A breach is due for the ticket, it was never told, and it is no candidate: the sweeps to
      come say nothing. */
  lemma LateResolutionIsMissed()
    ensures var w := World(0, [], map[Urgent := Policy(30, 240, 80)], []);
            var v := After(w, LATE_RESOLUTION);
            && v == World(300 * MINUTE, [Row(SLOW, Urgent, Resolved)], w.policies,
               [Entry(0, Warned, Some(Resolution), 0)])
            && Alert(SlaClock.Resolve(SLOW, v.policies[Urgent], Resolution, v.now), RecordedOf(v.timeline, 0))
               == Some(Missed)
            && !Candidate(v.rows[0], v.policies, v.now)
  {
    hide After, Swept, RecordedOf;
    var w := World(0, [], map[Urgent := Policy(30, 240, 80)], []);
    var s := LATE_RESOLUTION;
    UntilTheSweep();
    assert s[..7] == s[..6] + [s[6]] && s[..8] == s[..7] + [s[7]] && s[..9] == s[..8] + [s[8]] && s == s[..9] + [s[9]];
    TheWarningSweep(After(w, s[..6]).rows, w.policies);
    Snoc(w, s[..6], s[6]);
    Snoc(w, s[..7], s[7]);
    Snoc(w, s[..8], s[8]);
    Snoc(w, s[..9], s[9]);
    OnlyTheWarning();
  }

  lemma OnlyTheWarning()
    ensures Resolution !in RecordedOf([Entry(0, Warned, Some(Resolution), 0)], 0).breaches
  {
    assert [Entry(0, Warned, Some(Resolution), 0)][..0] == [];
  }
}
