/** Spreading the demo's tickets over the last 45 days. Instants are whole microseconds. */
module Backdate {
  import opened Common

  datatype Ticket = Ticket(created: int, firstResponse: Option<int>, resolved: Option<int>, closed: Option<int>)

  /** A message or an event. */
  datatype Child = Child(ticket: nat, created: int)

  const SPAN: int := 45 * 86_400_000_000

  /** `timedelta / int`: to the nearest microsecond, a half to the even neighbour. */
  function DivideHalfEven(a: nat, b: nat): nat
    requires b > 0
  {
    var q, r := a / b, a % b;
    if 2 * r < b || (2 * r == b && q % 2 == 0) then q else q + 1
  }

  function Pace(n: nat): nat
    requires n > 0
  {
    DivideHalfEven(SPAN, n)
  }

  function Target(now: int, n: nat, position: nat): int
    requires n > 0
  {
    now - SPAN + Pace(n) * position
  }

  function Shift(at: Option<int>, delta: int): Option<int> {
    match at case None => None case Some(t) => Some(t + delta)
  }

  /** One ticket, moved as a whole. */
  function Moved(t: Ticket, target: int): Ticket {
    var delta := target - t.created;
    Ticket(target, Shift(t.firstResponse, delta), Shift(t.resolved, delta), Shift(t.closed, delta))
  }

  // ----- the spacing -----------------------------------------------------------------------

  lemma NearestDivision(a: nat, b: nat)
    requires b > 0
    ensures 2 * a <= 2 * (DivideHalfEven(a, b) * b) + b
    ensures 2 * (DivideHalfEven(a, b) * b) <= 2 * a + b
    ensures 2 * (DivideHalfEven(a, b) * b) == 2 * a + b || 2 * a == 2 * (DivideHalfEven(a, b) * b) + b ==>
              DivideHalfEven(a, b) % 2 == 0
  {
    var q, r := a / b, a % b;
    assert a == q * b + r;
    assert (q + 1) * b == q * b + b;
  }

  /** Creation times ascend strictly for any set of tickets that is not absurdly large: the
      pace is nothing from twice as many tickets as there are microseconds in the span. */
  lemma TargetsAscend(now: int, n: nat)
    requires n > 0
    ensures (forall i: nat, j: nat | i < j < n :: Target(now, n, i) < Target(now, n, j))
            <==> n == 1 || n < 2 * SPAN
  {
    PaceIsPositive(n);
    if n > 1 {
      if Pace(n) > 0 {
        forall i: nat, j: nat | i < j < n ensures Target(now, n, i) < Target(now, n, j) {
          Ascend(Pace(n), i, j);
        }
      } else {
        assert Target(now, n, 0) == Target(now, n, 1);
      }
    }
  }

  lemma Ascend(pace: nat, i: nat, j: nat)
    requires pace > 0 && i < j
    ensures pace * i < pace * j
  {
    assert pace * j == pace * i + pace * (j - i);
    assert pace * (j - i) >= 1;
  }

  lemma PaceIsPositive(n: nat)
    requires n > 0
    ensures Pace(n) > 0 <==> n < 2 * SPAN
  {
    var q, r := SPAN / n, SPAN % n;
    assert SPAN == q * n + r;
    if n > SPAN {
      assert q == 0 && r == SPAN;
    } else {
      assert q >= 1;
    }
  }

  /** No ticket is put in the future, and the newest is behind by no more than its share of the
      span, while the tickets squared are no more than twice the span. */
  lemma TargetsStayInSpan(now: int, n: nat, i: nat)
    requires i < n && n * n <= 2 * SPAN
    ensures now - SPAN <= Target(now, n, i) <= now
  {
    var p := Pace(n);
    if n > 1 {
      Tight(p, n);
      if i < n - 1 && p > 0 { Ascend(p, i, n - 1); }
    }
  }

  /** The tickets use up the span: the oldest is 45 days back, neighbours are one pace apart, and all
      the paces together are the 45 days, off by half a microsecond for each ticket at most. So the
      newest is one pace back, give or take as much. */
  lemma TargetsFillTheSpan(now: int, n: nat, i: nat)
    requires i < n
    ensures Target(now, n, 0) == now - 45 * 86_400_000_000
    ensures i + 1 < n ==> Target(now, n, i + 1) - Target(now, n, i) == Pace(n)
    ensures -(n as int) <= 2 * (n * Pace(n)) - 2 * (45 * 86_400_000_000) <= n
    ensures -(n as int) <= 2 * (now - Target(now, n, n - 1)) - 2 * Pace(n) <= n
  {
    NearestDivision(SPAN, n);
    hide Pace;
    var p := Pace(n);
    assert p * (i + 1) == p * i + p && p * n == p * (n - 1) + p;
  }

  /** Thirty tickets, the newest of them a day and a half old. */
  lemma ThirtyTickets(now: int)
    ensures Pace(30) == 36 * 3_600_000_000
    ensures now - Target(now, 30, 29) == 36 * 3_600_000_000 && now - Target(now, 30, 0) == 30 * Pace(30)
  {
  }

  /** In general, exactly when the pace has room for all but one of the tickets. */
  lemma TargetsStayExactly(now: int, n: nat)
    requires n > 0
    ensures (forall i: nat | i < n :: now - SPAN <= Target(now, n, i) <= now) <==> Pace(n) * (n - 1) <= SPAN
  {
    hide Pace;
    var p := Pace(n);
    if p * (n - 1) <= SPAN {
      forall i: nat | i < n ensures now - SPAN <= Target(now, n, i) <= now {
        if i < n - 1 && p > 0 { Ascend(p, i, n - 1); }
      }
    } else {
      assert Target(now, n, n - 1) > now;
    }
  }

  lemma Tight(p: nat, n: nat)
    requires n > 1 && n * n <= 2 * SPAN && p == Pace(n)
    ensures p * (n - 1) <= SPAN
  {
    NearestDivision(SPAN, n);
    assert p * n == p * (n - 1) + p;
    assert 2 * (p * (n - 1)) == (2 * p) * (n - 1);
    if 2 * p < n { Less(2 * p, n - 1, n); }
  }

  lemma Less(a: nat, b: nat, n: nat)
    requires a < n && b < n
    ensures a * b <= n * n
  {
    assert a * b <= n * b <= n * n;
  }

  /** Without that the rounding can run past the present. */
  lemma TargetsCanPassNow(now: int)
    ensures Target(now, 2 * SPAN - 1, 2 * SPAN - 2) > now
  {
    var n := 2 * SPAN - 1;
    assert SPAN / n == 0 && SPAN % n == SPAN;
    assert Pace(n) == 1;
  }

  lemma MovedIsAtTarget()
    ensures forall t, target :: Moved(t, target).created == target
  {
  }

  // ----- the loops ---------------------------------------------------------------------------

  class Demo {
    var tickets: map<nat, Ticket>
    var messages: map<nat, Child>
    var events: map<nat, Child>

    /** The loop of `_backdate`: each ticket's shift, and its new values. */
    method Shifts(order: seq<nat>, now: int) returns (deltas: map<nat, int>, values: map<nat, Ticket>)
      requires order != [] && forall i | 0 <= i < |order| :: order[i] in tickets
      requires forall i, j | 0 <= i < j < |order| :: order[i] != order[j]
      ensures forall id: nat :: id in deltas <==> id in order
      ensures forall id: nat :: id in values <==> id in order
      ensures forall i | 0 <= i < |order| ::
                values[order[i]] == Moved(tickets[order[i]], Target(now, |order|, i))
                && deltas[order[i]] == Target(now, |order|, i) - tickets[order[i]].created
    {
      hide Moved, Target, Pace;
      deltas, values := map[], map[];
      var position := 0;
      while position < |order|
        invariant position <= |order|
        invariant forall id: nat :: id in deltas <==> id in order[..position]
        invariant forall id: nat :: id in values <==> id in order[..position]
        invariant forall i | 0 <= i < position ::
                    values[order[i]] == Moved(tickets[order[i]], Target(now, |order|, i))
                    && deltas[order[i]] == Target(now, |order|, i) - tickets[order[i]].created
      {
        var id := order[position];
        assert order[..position + 1] == order[..position] + [id];
        var target := Target(now, |order|, position);
        deltas := deltas[id := target - tickets[id].created];
        values := values[id := Moved(tickets[id], target)];
        position := position + 1;
      }
      assert order[..position] == order;
    }

    /** `_backdate`; `order` is the ids as the query returns them. */
    method Run(order: seq<nat>, now: int)
      requires forall id: nat :: id in tickets <==> id in order
      requires forall i, j | 0 <= i < j < |order| :: order[i] != order[j]
      modifies this
      ensures tickets.Keys == old(tickets).Keys
      ensures forall i | 0 <= i < |order| :: tickets[order[i]] == Moved(old(tickets)[order[i]], Target(now, |order|, i))
      ensures Follow(old(tickets), tickets, old(messages), messages)
      ensures Follow(old(tickets), tickets, old(events), events)
    {
      hide Moved, Target, Pace;
      if order == [] {
        assert tickets.Keys == {};
        return;
      }
      var deltas, values := Shifts(order, now);
      MovedIsAtTarget();
      ghost var before := tickets;
      tickets := values;
      assert tickets.Keys == before.Keys;
      forall id | id in deltas ensures deltas[id] == tickets[id].created - before[id].created {
        var i: nat :| i < |order| && order[i] == id;
      }
      messages := ShiftChildren(messages, deltas);
      events := ShiftChildren(events, deltas);
    }
  }

  /** `_shift_children`: every row moves with its ticket, and a row without one stays. */
  method ShiftChildren(children: map<nat, Child>, deltas: map<nat, int>) returns (shifted: map<nat, Child>)
    ensures shifted.Keys == children.Keys
    ensures forall id | id in children ::
              shifted[id].ticket == children[id].ticket
              && shifted[id].created
                 == children[id].created + (if children[id].ticket in deltas then deltas[children[id].ticket] else 0)
  {
    shifted := children;
    var todo := children.Keys;
    while todo != {}
      invariant todo <= children.Keys && shifted.Keys == children.Keys
      invariant forall id | id in todo :: shifted[id] == children[id]
      invariant forall id | id in children.Keys - todo ::
                  shifted[id].ticket == children[id].ticket
                  && shifted[id].created == children[id].created
                     + (if children[id].ticket in deltas then deltas[children[id].ticket] else 0)
      decreases todo
    {
      var id :| id in todo;
      var child := children[id];
      if child.ticket in deltas {
        shifted := shifted[id := Child(child.ticket, child.created + deltas[child.ticket])];
      }
      todo := todo - {id};
    }
  }

  /** Every child moved by exactly what its ticket moved. */
  ghost predicate Follow(before: map<nat, Ticket>, after: map<nat, Ticket>,
                         children: map<nat, Child>, shifted: map<nat, Child>)
    requires before.Keys == after.Keys
  {
    && shifted.Keys == children.Keys
    && forall id | id in children ::
         && shifted[id].ticket == children[id].ticket
         && shifted[id].created - children[id].created ==
              if children[id].ticket in before
                  then after[children[id].ticket].created - before[children[id].ticket].created else 0
  }

  // ----- what the move preserves --------------------------------------------------------------

  /** The timestamps of a ticket, absent ones left out, and of one of its children. */
  function Stamp(t: Ticket, which: nat): Option<int> {
    if which == 0 then Some(t.created) else if which == 1 then t.firstResponse
    else if which == 2 then t.resolved else t.closed
  }

  /** Every interval inside a ticket is kept, and what never happened still has not. */
  lemma IntervalsAreKept(t: Ticket, target: int, a: nat, b: nat)
    ensures Stamp(Moved(t, target), a).Some? <==> Stamp(t, a).Some?
    ensures Stamp(t, a).Some? && Stamp(t, b).Some? ==>
              Stamp(Moved(t, target), a).value - Stamp(Moved(t, target), b).value
                  == Stamp(t, a).value - Stamp(t, b).value
  {
  }

  /** So is every interval between two rows of a ticket's history, and from either to the
      ticket: a child is before its ticket afterwards exactly if it was before. */
  lemma HistoriesAreKept(before: map<nat, Ticket>, after: map<nat, Ticket>, children: map<nat, Child>,
                         shifted: map<nat, Child>, others: map<nat, Child>, moved: map<nat, Child>, a: nat, b: nat)
    requires before.Keys == after.Keys
    requires Follow(before, after, children, shifted) && Follow(before, after, others, moved)
    requires a in children && b in others && children[a].ticket == others[b].ticket && children[a].ticket in before
    ensures shifted[a].created - moved[b].created == children[a].created - others[b].created
    ensures shifted[a].created - after[children[a].ticket].created
            == children[a].created - before[children[a].ticket].created
    ensures shifted[a].created < after[children[a].ticket].created
            <==> children[a].created < before[children[a].ticket].created
  {
    assert shifted[a].ticket == children[a].ticket;
    assert moved[b].ticket == others[b].ticket;
  }
}
