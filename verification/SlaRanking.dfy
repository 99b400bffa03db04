/** The risk list and the overdue count beside it. The list is the head of the ranking at the
    request's instant; the count is of all the rows, at an instant of its own. */
module SlaRanking {
  import opened Common
  import opened SlaClock

  /** A row of the candidate query: an open ticket joined to its active policy. */
  datatype Row = Row(id: nat, ticket: Ticket, policy: Policy)

  datatype Risk = Risk(id: nat, timer: Timer, state: State, due: int, remaining: int)

  function Due(row: Row): Option<int> {
    SqlDue(row.ticket, row.policy)
  }

  /** ORDER BY due ASC NULLS LAST, id. */
  ghost predicate Ordered(rows: seq<Row>) {
    forall i, j | 0 <= i < j < |rows| ::
      && (Due(rows[j]).Some? ==> Due(rows[i]).Some? && Due(rows[i]).value <= Due(rows[j]).value)
      && (Due(rows[i]) == Due(rows[j]) ==> rows[i].id < rows[j].id)
  }

  ghost predicate AllValid(rows: seq<Row>) {
    forall i | 0 <= i < |rows| :: Valid(rows[i].policy)
  }

  predicate Overdue(row: Row, now: int) {
    Due(row).Some? && Due(row).value <= now
  }

  /** The ranking is cut off: ORDER BY ... LIMIT. */
  function Candidates(rows: seq<Row>, limit: nat): seq<Row> {
    rows[..Min(limit, |rows|)]
  }

  function Min(a: nat, b: nat): nat {
    if a <= b then a else b
  }

  /** SELECT count(*) WHERE due <= now; NULL is not counted, and nothing is cut off. */
  function OverdueCount(rows: seq<Row>, now: int): nat {
    if rows == [] then 0 else (if Overdue(rows[0], now) then 1 else 0) + OverdueCount(rows[1..], now)
  }

  /** A risk is one ticket's, and every number on it is that of one of its running timers: the
      binding one. */
  ghost predicate Tells(risk: Risk, row: Row, now: int) {
    && risk.id == row.id
    && Resolve(row.ticket, row.policy, risk.timer, now)
       == Position(risk.timer, risk.state, risk.due, risk.remaining, None)
    && BindingTimer(row.ticket, row.policy, now) == Some(Resolve(row.ticket, row.policy, risk.timer, now))
  }

  /** How many of the risks shown are in breach. */
  function Breaches(risks: seq<Risk>): nat {
    if risks == [] then 0 else (if risks[0].state == Breached then 1 else 0) + Breaches(risks[1..])
  }

  /** How many of them show no seconds left. */
  function NonPositive(risks: seq<Risk>): nat {
    if risks == [] then 0 else (if risks[0].remaining <= 0 then 1 else 0) + NonPositive(risks[1..])
  }

  /** The rows of the answer are the ranked tickets with a deadline, each with the clock's own
      numbers, and the time remaining ascends along it. */
  ghost predicate Ranked(risks: seq<Risk>, rows: seq<Row>, now: int)
    requires AllValid(rows)
  {
    && |risks| <= |rows|
    && (forall i | 0 <= i < |rows| :: i < |risks| <==> Due(rows[i]).Some?)
    && (forall i | 0 <= i < |risks| :: Tells(risks[i], rows[i], now))
    && (forall i | 0 <= i < |risks| :: risks[i].due == Due(rows[i]).value)
    && (forall i, j | 0 <= i < j < |risks| :: risks[i].remaining <= risks[j].remaining)
  }

  lemma ResolvedTimer(t: Ticket, p: Policy, timer: Timer, now: int)
    ensures var r := Resolve(t, p, timer, now);
            r == Position(timer, r.state, r.due, r.remaining, Stopped(t, timer))
  {
  }

  /** `risk_list`: the order is the query's, every number is the clock's. */
  method RiskList(rows: seq<Row>, now: int, limit: nat) returns (risks: seq<Risk>)
    requires Ordered(rows) && AllValid(rows)
    ensures Ranked(risks, Candidates(rows, limit), now)
  {
    hide SqlDue, BindingTimer, Resolve;
    var tickets := Candidates(rows, limit);
    risks := [];
    var i := 0;
    while i < |tickets|
      invariant i <= |tickets| && |risks| <= i
      invariant forall k | 0 <= k < i :: k < |risks| <==> Due(tickets[k]).Some?
      invariant forall k | 0 <= k < |risks| :: Tells(risks[k], tickets[k], now)
      invariant forall k | 0 <= k < |risks| :: risks[k].due == Due(tickets[k]).value
      invariant forall k, l | 0 <= k < l < |risks| :: risks[k].remaining <= risks[l].remaining
    {
      var row := tickets[i];
      SqlDueIsBinding(row.ticket, row.policy, now);
      var binding := BindingTimer(row.ticket, row.policy, now);
      if binding.None? {
        i := i + 1;
        continue;
      }
      var b := binding.value;
      BindingIsTheSoonest(row.ticket, row.policy, now);
      ResolvedTimer(row.ticket, row.policy, b.timer, now);
      if i > 0 { assert Due(tickets[i - 1]).Some?; }
      assert |risks| == i;
      forall k | 0 <= k < |risks| ensures risks[k].remaining <= b.remaining {
        SqlDueIsBinding(tickets[k].ticket, tickets[k].policy, now);
        assert risks[k].due == Due(tickets[k]).value <= Due(tickets[i]).value;
        WholeSecondsMonotone(risks[k].due - now, b.due - now);
      }
      risks := risks + [Risk(row.id, b.timer, b.state, b.due, b.remaining)];
      i := i + 1;
    }
  }

  // ----- the counts are prefixes -------------------------------------------------------------

  lemma {:induction false} OverdueIsAPrefix(rows: seq<Row>, now: int)
    requires Ordered(rows)
    ensures OverdueCount(rows, now) <= |rows|
    ensures forall i | 0 <= i < |rows| :: i < OverdueCount(rows, now) <==> Overdue(rows[i], now)
  {
    hide Due;
    if rows != [] {
      OverdueIsAPrefix(rows[1..], now);
      forall i | 0 < i < |rows|
        ensures i < OverdueCount(rows, now) <==> Overdue(rows[i], now)
      {
        assert rows[i] == rows[1..][i - 1];
      }
      if !Overdue(rows[0], now) && |rows| > 1 { assert !Overdue(rows[1], now); }
    }
  }

  /** Counting the leading risks that satisfy a test is measuring how far it holds. */
  lemma {:induction false} BreachesIs(risks: seq<Risk>, n: nat)
    requires n <= |risks| && forall i | 0 <= i < |risks| :: risks[i].state == Breached <==> i < n
    ensures Breaches(risks) == n
  {
    if risks != [] { BreachesIs(risks[1..], if n == 0 then 0 else n - 1); }
  }

  lemma {:induction false} NonPositiveIs(risks: seq<Risk>, n: nat)
    requires n <= |risks| && forall i | 0 <= i < |risks| :: risks[i].remaining <= 0 <==> i < n
    ensures NonPositive(risks) == n
  {
    if risks != [] { NonPositiveIs(risks[1..], if n == 0 then 0 else n - 1); }
  }

  lemma HeadOfOrdered(rows: seq<Row>, limit: nat)
    requires Ordered(rows) && AllValid(rows)
    ensures Ordered(Candidates(rows, limit)) && AllValid(Candidates(rows, limit))
  {
  }

  /** Of the overdue tickets the ranking shows as many as fit. */
  lemma OverdueAmongTheFirst(rows: seq<Row>, limit: nat, now: int)
    requires Ordered(rows) && AllValid(rows)
    ensures Ordered(Candidates(rows, limit))
    ensures OverdueCount(Candidates(rows, limit), now) == Min(OverdueCount(rows, now), limit)
  {
    hide Due, OverdueCount, Overdue, Ordered;
    HeadOfOrdered(rows, limit);
    var head := Candidates(rows, limit);
    OverdueIsAPrefix(rows, now);
    OverdueIsAPrefix(head, now);
    var m, n := OverdueCount(rows, now), OverdueCount(head, now);
    if m < |head| { assert Overdue(head[m], now) <==> Overdue(rows[m], now); }
    if n < |head| { assert Overdue(head[n], now) <==> Overdue(rows[n], now); }
  }

  /** The risks with a deadline up to an instant, when the ranking is in order. */
  lemma RankedOverdue(risks: seq<Risk>, rows: seq<Row>, now: int, at: int)
    requires Ordered(rows) && AllValid(rows) && Ranked(risks, rows, now)
    ensures OverdueCount(rows, at) <= |risks|
    ensures forall i | 0 <= i < |risks| :: i < OverdueCount(rows, at) <==> risks[i].due <= at
  {
    hide Ordered, OverdueCount, Tells, SqlDue;
    OverdueIsAPrefix(rows, at);
    if OverdueCount(rows, at) > 0 { assert Overdue(rows[OverdueCount(rows, at) - 1], at); }
  }

  lemma BreachedAreOverdue(risks: seq<Risk>, rows: seq<Row>, now: int)
    requires Ordered(rows) && AllValid(rows) && Ranked(risks, rows, now)
    ensures Breaches(risks) == OverdueCount(rows, now)
    ensures NonPositive(risks) == OverdueCount(rows, now + SECOND - 1)
  {
    hide Ordered, OverdueCount, SqlDue, BindingTimer, Breaches, NonPositive, Resolve;
    RankedOverdue(risks, rows, now, now);
    RankedOverdue(risks, rows, now, now + SECOND - 1);
    forall i | 0 <= i < |risks|
      ensures risks[i].state == Breached <==> i < OverdueCount(rows, now)
      ensures risks[i].remaining <= 0 <==> i < OverdueCount(rows, now + SECOND - 1)
    {
      SqlDueIsBinding(rows[i].ticket, rows[i].policy, now);
      OverdueAgrees(rows[i].ticket, rows[i].policy, now);
      WholeSecondsSign(risks[i].due - now);
    }
    BreachesIs(risks, OverdueCount(rows, now));
    NonPositiveIs(risks, OverdueCount(rows, now + SECOND - 1));
  }

  // ----- the count and the list, each at its own instant -------------------------------------

  /** A deadline passes between two instants, whichever of them is the earlier. */
  predicate Crossed(row: Row, a: int, b: int) {
    Due(row).Some? && (a < Due(row).value <= b || b < Due(row).value <= a)
  }

  lemma SameCountExactly(rows: seq<Row>, a: int, b: int)
    requires Ordered(rows)
    ensures OverdueCount(rows, a) == OverdueCount(rows, b)
            <==> forall i | 0 <= i < |rows| :: !Crossed(rows[i], a, b)
  {
    hide Due, OverdueCount, Ordered;
    OverdueIsAPrefix(rows, a);
    OverdueIsAPrefix(rows, b);
    var m, n := OverdueCount(rows, a), OverdueCount(rows, b);
    if m < n { assert Crossed(rows[m], a, b); }
    if n < m { assert Crossed(rows[n], a, b); }
    forall i | 0 <= i < |rows|
      ensures Crossed(rows[i], a, b) <==> (i < m <==> i >= n)
    {
    }
  }

  /** The count is taken at `counted` and may come from the cache; the list is of `now`. As many
      risks are shown in breach as the count says, or as fit, exactly when no ranked deadline
      passes between the two instants; all of the count is there exactly when it fits too. */
  lemma CountIsTheBreachesExactly(rows: seq<Row>, risks: seq<Risk>, limit: nat, counted: int, now: int)
    requires Ordered(rows) && AllValid(rows) && Ranked(risks, Candidates(rows, limit), now)
    ensures Breaches(risks) == Min(OverdueCount(rows, counted), limit)
            <==> forall i | 0 <= i < Min(limit, |rows|) :: !Crossed(rows[i], counted, now)
    ensures Breaches(risks) == OverdueCount(rows, counted)
            <==> OverdueCount(rows, counted) <= limit
                 && forall i | 0 <= i < Min(limit, |rows|) :: !Crossed(rows[i], counted, now)
  {
    hide Ordered, OverdueCount, Breaches, NonPositive, Crossed, Ranked;
    var head := Candidates(rows, limit);
    HeadOfOrdered(rows, limit);
    BreachedAreOverdue(risks, head, now);
    OverdueAmongTheFirst(rows, limit, counted);
    OverdueAmongTheFirst(rows, limit, now);
    SameCountExactly(head, counted, now);
  }

  /** The same of the risks that show no seconds left: these run a second ahead, since the
      seconds shown are truncated. */
  lemma CountIsTheNonPositiveExactly(rows: seq<Row>, risks: seq<Risk>, limit: nat, counted: int, now: int)
    requires Ordered(rows) && AllValid(rows) && Ranked(risks, Candidates(rows, limit), now)
    ensures NonPositive(risks) == Min(OverdueCount(rows, counted), limit)
            <==> forall i | 0 <= i < Min(limit, |rows|) :: !Crossed(rows[i], counted, now + SECOND - 1)
    ensures NonPositive(risks) == OverdueCount(rows, counted)
            <==> OverdueCount(rows, counted) <= limit
                 && forall i | 0 <= i < Min(limit, |rows|) :: !Crossed(rows[i], counted, now + SECOND - 1)
  {
    hide Ordered, OverdueCount, Breaches, NonPositive, Crossed, Ranked;
    var head := Candidates(rows, limit);
    HeadOfOrdered(rows, limit);
    BreachedAreOverdue(risks, head, now);
    OverdueAmongTheFirst(rows, limit, counted);
    OverdueAmongTheFirst(rows, limit, now + SECOND - 1);
    SameCountExactly(head, counted, now + SECOND - 1);
  }

  // ----- where they differ -------------------------------------------------------------------

  const DEFAULT_LIMIT: nat := 10

  /** So many tickets of one age, each due after half an hour. */
  function Alike(n: nat): seq<Row> {
    seq(n, i requires 0 <= i < n => Row(i, Ticket(0, None, None), Policy(30, 240, 80)))
  }

  lemma AlikeAreRanked(n: nat)
    ensures Ordered(Alike(n)) && AllValid(Alike(n))
    ensures forall i | 0 <= i < n :: Due(Alike(n)[i]) == Some(30 * MINUTE)
  {
  }

  lemma AllOrNothing(n: nat, at: int)
    ensures OverdueCount(Alike(n), at) == if 30 * MINUTE <= at then n else 0
  {
    hide OverdueCount, Ordered;
    AlikeAreRanked(n);
    OverdueIsAPrefix(Alike(n), at);
    if n > 0 { assert Overdue(Alike(n)[0], at) <==> 30 * MINUTE <= at; }
    if n > 0 { assert Overdue(Alike(n)[n - 1], at) <==> 30 * MINUTE <= at; }
  }

  /** With one ticket overdue more than the list has room for, the count is ahead of the list by
      one: eleven against ten by default, at one and the same instant. */
  lemma ElevenAgainstTen(risks: seq<Risk>, now: int)
    requires AllValid(Alike(DEFAULT_LIMIT + 1)) && now >= 30 * MINUTE
    requires Ranked(risks, Candidates(Alike(DEFAULT_LIMIT + 1), DEFAULT_LIMIT), now)
    ensures OverdueCount(Alike(DEFAULT_LIMIT + 1), now) == 11 && Breaches(risks) == 10 && NonPositive(risks) == 10
  {
    hide Ordered, OverdueCount, Breaches, NonPositive, Ranked, Alike;
    var rows := Alike(DEFAULT_LIMIT + 1);
    AlikeAreRanked(DEFAULT_LIMIT + 1);
    AllOrNothing(DEFAULT_LIMIT + 1, now);
    AllOrNothing(DEFAULT_LIMIT + 1, now + SECOND - 1);
    OverdueAmongTheFirst(rows, DEFAULT_LIMIT, now);
    OverdueAmongTheFirst(rows, DEFAULT_LIMIT, now + SECOND - 1);
    BreachedAreOverdue(risks, Candidates(rows, DEFAULT_LIMIT), now);
  }

  /** Half a second before the only deadline the count is none and one ticket shows no seconds
      left. */
  lemma HalfASecondAhead(risks: seq<Risk>)
    requires AllValid(Alike(1)) && Ranked(risks, Candidates(Alike(1), DEFAULT_LIMIT), 30 * MINUTE - SECOND / 2)
    ensures OverdueCount(Alike(1), 30 * MINUTE - SECOND / 2) == 0 && Breaches(risks) == 0 && NonPositive(risks) == 1
  {
    hide Ordered, OverdueCount, Breaches, NonPositive, Ranked, Alike;
    var now := 30 * MINUTE - SECOND / 2;
    AlikeAreRanked(1);
    AllOrNothing(1, now);
    AllOrNothing(1, now + SECOND - 1);
    OverdueAmongTheFirst(Alike(1), DEFAULT_LIMIT, now);
    OverdueAmongTheFirst(Alike(1), DEFAULT_LIMIT, now + SECOND - 1);
    BreachedAreOverdue(risks, Candidates(Alike(1), DEFAULT_LIMIT), now);
  }

  /** A count from the cache, taken before the deadline, misses a breach the list shows. */
  lemma CachedCountIsBehind(risks: seq<Risk>, counted: int, now: int)
    requires AllValid(Alike(1)) && Ranked(risks, Candidates(Alike(1), DEFAULT_LIMIT), now)
    requires counted < 30 * MINUTE <= now
    ensures OverdueCount(Alike(1), counted) == 0 && Breaches(risks) == 1
  {
    hide Ordered, OverdueCount, Breaches, NonPositive, Ranked, Alike;
    AlikeAreRanked(1);
    AllOrNothing(1, counted);
    AllOrNothing(1, now);
    OverdueAmongTheFirst(Alike(1), DEFAULT_LIMIT, now);
    BreachedAreOverdue(risks, Candidates(Alike(1), DEFAULT_LIMIT), now);
  }
}
