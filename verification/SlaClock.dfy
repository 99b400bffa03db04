/** The SLA clock: where a ticket's two timers stand. Instants are whole microseconds. */
module SlaClock {
  import opened Common

  datatype Timer = Response | Resolution
  datatype State = OnTrack | Warning | Met | Breached

  const SECOND: int := 1_000_000
  const MINUTE: int := 60_000_000

  datatype Policy = Policy(responseMinutes: int, resolutionMinutes: int, percent: int)

  /** The table's check constraints on a policy. */
  predicate Valid(p: Policy) {
    1 <= p.responseMinutes <= p.resolutionMinutes && 1 <= p.percent <= 99
  }

  datatype Ticket = Ticket(created: int, firstResponse: Option<int>, resolved: Option<int>)

  datatype Position = Position(timer: Timer, state: State, due: int, remaining: int, stopped: Option<int>)

  /** `int(...)` of a duration in seconds truncates towards zero. */
  function WholeSeconds(us: int): int {
    if us >= 0 then us / SECOND else -(-us / SECOND)
  }

  function WarningOffset(minutes: int, percent: int): int {
    minutes * (MINUTE / 100) * percent
  }

  function ResolveTimer(timer: Timer, started: int, stopped: Option<int>, minutes: int, percent: int,
                        now: int): Position {
    var due := started + minutes * MINUTE;
    var warning := started + WarningOffset(minutes, percent);
    match stopped
    case Some(at) => Position(timer, if at <= due then Met else Breached, due, WholeSeconds(due - at), stopped)
    case None =>
      var state := if now >= due then Breached else if now >= warning then Warning else OnTrack;
      Position(timer, state, due, WholeSeconds(due - now), stopped)
  }

  function Target(p: Policy, timer: Timer): int {
    if timer.Response? then p.responseMinutes else p.resolutionMinutes
  }

  function Stopped(t: Ticket, timer: Timer): Option<int> {
    if timer.Response? then t.firstResponse else t.resolved
  }

  /** `resolve_position`, one timer at a time. */
  function Resolve(t: Ticket, p: Policy, timer: Timer, now: int): Position {
    ResolveTimer(timer, t.created, Stopped(t, timer), Target(p, timer), p.percent, now)
  }

  function EarliestAlertOffset(p: Policy): int {
    WarningOffset(p.responseMinutes, p.percent)
  }

  function Given(change: Option<int>, current: int): int {
    match change case None => current case Some(value) => value
  }

  /** `update_policy`: a partial edit, checked on the merged row. The fields a request may hold
      are already inside the bounds of the table. */
  function Edited(p: Policy, response: Option<int>, resolution: Option<int>, percent: Option<int>): (r: Option<Policy>)
    requires Valid(p)
    requires 1 <= Given(response, p.responseMinutes) && 1 <= Given(resolution, p.resolutionMinutes)
    requires 1 <= Given(percent, p.percent) <= 99
    ensures r.Some? ==> Valid(r.value)
    ensures r.None? ==> !(exists q: Policy :: Valid(q) && q.responseMinutes == Given(response, p.responseMinutes)
                                              && q.resolutionMinutes == Given(resolution, p.resolutionMinutes))
    ensures response.None? && resolution.None? ==> r.Some?
    ensures r.Some? ==>
              && r.value.responseMinutes == (if response.Some? then response.value else p.responseMinutes)
              && r.value.resolutionMinutes == (if resolution.Some? then resolution.value else p.resolutionMinutes)
              && r.value.percent == (if percent.Some? then percent.value else p.percent)
  {
    var merged := Policy(Given(response, p.responseMinutes), Given(resolution, p.resolutionMinutes),
        Given(percent, p.percent));
    if merged.resolutionMinutes < merged.responseMinutes then None else Some(merged)
  }

  // ----- what the numbers mean -------------------------------------------------------------

  /** How long the timer ran, or has run so far. */
  function Elapsed(t: Ticket, timer: Timer, now: int): int {
    match Stopped(t, timer) case Some(at) => at - t.created case None => now - t.created
  }

  lemma WarningBand(minutes: int, percent: int)
    requires minutes >= 1 && 1 <= percent <= 99
    ensures 100 * WarningOffset(minutes, percent) == percent * (minutes * MINUTE)
    ensures 0 < WarningOffset(minutes, percent) < minutes * MINUTE
  {
    var k := minutes * (MINUTE / 100);
    assert 100 * k == minutes * MINUTE && k > 0;
    Scaled(k, percent);
  }

  lemma Scaled(k: int, percent: int)
    requires k > 0 && 1 <= percent <= 99
    ensures 0 < k * percent < 100 * k && 100 * (k * percent) == percent * (100 * k)
  {
    assert (percent - 1) * k >= 0 && (99 - percent) * k >= 0;
  }

  /** The state told by how much of the target is used up: a breach is the target reached, or
      passed if the work was done; a warning is the threshold reached, and the target not. */
  lemma StateByElapsed(t: Ticket, p: Policy, timer: Timer, now: int)
    requires Valid(p)
    ensures var s := Resolve(t, p, timer, now).state;
            var target := Target(p, timer) * MINUTE;
            var done := Stopped(t, timer).Some?;
            && (s == Breached <==> Elapsed(t, timer, now) > target || (!done && Elapsed(t, timer, now) == target))
            && (s == Met <==> done && Elapsed(t, timer, now) <= target)
            && (s == Warning <==> !done && p.percent * target <= 100 * Elapsed(t, timer, now) < 100 * target)
            && (s == OnTrack <==> !done && 100 * Elapsed(t, timer, now) < p.percent * target)
  {
    WarningBand(Target(p, timer), p.percent);
  }

  /** A position reports its own timer, the deadline set by the priority's target for it, whether the
      work is done, and the whole seconds between deadline and work, or deadline and now: what is
      left, negative when it is over, truncated in both cases. */
  lemma PositionReports(t: Ticket, p: Policy, timer: Timer, now: int)
    ensures var r := Resolve(t, p, timer, now);
            var end := match timer case Response => t.firstResponse case Resolution => t.resolved;
            var left := r.due - (if end.Some? then end.value else now);
            && r.timer == timer && r.stopped == end
            && r.due == t.created
                        + (match timer case Response => p.responseMinutes case Resolution => p.resolutionMinutes)
                          * 60_000_000
            && (left >= 0 ==> 0 <= left - r.remaining * 1_000_000 < 1_000_000 && r.remaining >= 0)
            && (left <= 0 ==> -1_000_000 < left - r.remaining * 1_000_000 <= 0 && r.remaining <= 0)
  {
  }

  lemma WholeSecondsSign(us: int)
    ensures WholeSeconds(us) <= 0 <==> us < SECOND
    ensures WholeSeconds(us) >= 0 <==> us > -SECOND
  {
  }

  lemma WholeSecondsMonotone(a: int, b: int)
    requires a <= b
    ensures WholeSeconds(a) <= WholeSeconds(b)
  {
  }

  /** A ticket with a timer in its warning band or in breach is as old as the sweep's candidate
      query asks. */
  lemma DueAlertsAreOldEnough(t: Ticket, p: Policy, timer: Timer, now: int)
    requires Valid(p) && (Stopped(t, timer).Some? ==> Stopped(t, timer).value <= now)
    requires Resolve(t, p, timer, now).state in {Warning, Breached}
    ensures t.created <= now - EarliestAlertOffset(p)
  {
    WarningBand(p.responseMinutes, p.percent);
    WarningBand(Target(p, timer), p.percent);
    assert p.responseMinutes * (MINUTE / 100) * p.percent <= Target(p, timer) * (MINUTE / 100) * p.percent;
  }

  /** The bound is the best one: a ticket just old enough is one an alert is due for. */
  lemma CandidateBoundIsTight(p: Policy, now: int)
    requires Valid(p)
    ensures var t := Ticket(now - EarliestAlertOffset(p), None, None);
            Resolve(t, p, Response, now).state == Warning
  {
    WarningBand(p.responseMinutes, p.percent);
  }

  // ----- the SQL due instant ---------------------------------------------------------------

  /** CASE WHEN stopped IS NULL THEN created + target END. */
  function UnstoppedDue(t: Ticket, p: Policy, timer: Timer): Option<int> {
    if Stopped(t, timer).None? then Some(t.created + Target(p, timer) * MINUTE) else None
  }

  /** LEAST(...), which ignores NULL. */
  function Least(a: Option<int>, b: Option<int>): Option<int> {
    match (a, b)
    case (None, _) => b
    case (_, None) => a
    case (Some(x), Some(y)) => Some(if x <= y then x else y)
  }

  function SqlDue(t: Ticket, p: Policy): Option<int> {
    Least(UnstoppedDue(t, p, Response), UnstoppedDue(t, p, Resolution))
  }

  /** `_binding_timer`: the running timer with the fewest seconds left, the first on a tie. */
  function BindingTimer(t: Ticket, p: Policy, now: int): Option<Position> {
    var response, resolution := Resolve(t, p, Response, now), Resolve(t, p, Resolution, now);
    if response.stopped.None? && (resolution.stopped.Some? || response.remaining <= resolution.remaining)
    then Some(response)
    else if resolution.stopped.None? then Some(resolution)
    else None
  }

  /** The query orders by exactly the deadline the clock reports. */
  lemma SqlDueIsBinding(t: Ticket, p: Policy, now: int)
    requires Valid(p)
    ensures SqlDue(t, p).Some? <==> BindingTimer(t, p, now).Some?
    ensures SqlDue(t, p).Some? ==>
              var b := BindingTimer(t, p, now).value;
              b.due == SqlDue(t, p).value && b.remaining == WholeSeconds(b.due - now) && b.stopped.None?
  {
    var a, b := t.created + p.responseMinutes * MINUTE, t.created + p.resolutionMinutes * MINUTE;
    assert a <= b;
    WholeSecondsMonotone(a - now, b - now);
  }

  /** The binding timer is the ticket's own position of a timer still running, with no more seconds
      left than the other if that runs too; on a tie the response timer binds. */
  lemma BindingIsTheSoonest(t: Ticket, p: Policy, now: int)
    ensures var b := BindingTimer(t, p, now);
            && (b.None? <==> t.firstResponse.Some? && t.resolved.Some?)
            && (b.Some? ==>
                  && b.value == Resolve(t, p, b.value.timer, now)
                  && (b.value.timer.Response? ==> t.firstResponse.None?)
                  && (b.value.timer.Resolution? ==> t.resolved.None?)
                  && (t.firstResponse.None? && t.resolved.None? ==>
                        (b.value.timer.Response? <==>
                           Resolve(t, p, Response, now).remaining <= Resolve(t, p, Resolution, now).remaining)))
  {
  }

  /** `overdue_count` and the countdown beside it agree, except in a deadline's last second. */
  lemma OverdueAgrees(t: Ticket, p: Policy, now: int)
    requires Valid(p) && SqlDue(t, p).Some?
    ensures SqlDue(t, p).value <= now <==> BindingTimer(t, p, now).value.state == Breached
    ensures SqlDue(t, p).value <= now ==> BindingTimer(t, p, now).value.remaining <= 0
    ensures (SqlDue(t, p).value <= now <==> BindingTimer(t, p, now).value.remaining <= 0)
            <==> !(0 < SqlDue(t, p).value - now < SECOND)
  {
    SqlDueIsBinding(t, p, now);
    WholeSecondsSign(SqlDue(t, p).value - now);
  }

  /** The walkthrough's own oracle for an unresolved ticket: the resolution deadline once a
      reply has stopped the response timer, the response deadline otherwise. */
  lemma SqlDueIsTheOracles(t: Ticket, p: Policy)
    requires Valid(p) && t.resolved.None?
    ensures SqlDue(t, p)
            == Some(t.created + (if t.firstResponse.Some? then p.resolutionMinutes else p.responseMinutes) * MINUTE)
  {
    assert p.responseMinutes * MINUTE <= p.resolutionMinutes * MINUTE;
  }
}
