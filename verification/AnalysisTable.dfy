/** The `ai_analyses` table: asking, claiming, finishing and reaping, one statement each. */
module AnalysisTable {
  import opened Common

  // Declared in the order of the database enum, which is the order a batch is worked in.
  datatype Operation = Classify | Sentiment | Summarize | SuggestResponse

  function Rank(op: Operation): nat {
    match op case Classify => 0 case Sentiment => 1 case Summarize => 2 case SuggestResponse => 3
  }

  datatype Status = Pending | Processing | Completed | Failed

  /** One row. Rows are named by their position: they are only ever appended. */
  datatype Row = Row(organization: nat, ticket: nat, operation: Operation, status: Status,
                     updatedAt: int, result: Option<string>, error: Option<string>)

  /** What one operation's provider call ended in, retries included. */
  datatype Outcome = Answer(payload: string) | Failure(message: string)

  const ABANDONED := "The worker running this analysis stopped before it finished."

  predicate InFlightRow(row: Row) {
    row.status.Pending? || row.status.Processing?
  }

  predicate Settled(row: Row) {
    row.status.Completed? || row.status.Failed?
  }

  /** The check constraint `terminal_status_has_payload`. */
  predicate HasPayload(row: Row) {
    (row.status.Completed? ==> row.result.Some?) && (row.status.Failed? ==> row.error.Some?)
  }

  // ----- asking ----------------------------------------------------------------------------

  /** The operations of a ticket that are queued and not finished. */
  function InFlight(rows: seq<Row>, ticket: nat): set<Operation> {
    set i | 0 <= i < |rows| && rows[i].ticket == ticket && InFlightRow(rows[i]) :: rows[i].operation
  }

  /** Is a row of the ticket waiting for this operation, or being worked on? */
  ghost predicate Underway(rows: seq<Row>, ticket: nat, op: Operation) {
    exists i | 0 <= i < |rows| ::
      rows[i].ticket == ticket && rows[i].operation == op && (rows[i].status == Pending || rows[i].status == Processing)
  }

  /** The wanted operations nothing in flight covers, in the order wanted. */
  function Missing(wanted: seq<Operation>, covered: set<Operation>): seq<Operation> {
    if wanted == [] then []
    else (if wanted[0] in covered then [] else [wanted[0]]) + Missing(wanted[1..], covered)
  }

  /** The rows a request creates: one for each missing operation. */
  function Queued(organization: nat, ticket: nat, wanted: seq<Operation>, covered: set<Operation>, now: int): seq<Row> {
    var ops := Missing(wanted, covered);
    seq(|ops|, i requires 0 <= i < |ops| => Row(organization, ticket, ops[i], Pending, now, None, None))
  }

  predicate Distinct(ops: seq<Operation>) {
    forall i, j | 0 <= i < j < |ops| :: ops[i] != ops[j]
  }

  /** The duplicate guard: one row at most for a ticket and an operation is in flight. */
  ghost predicate NoDuplicates(rows: seq<Row>) {
    forall i, j | 0 <= i < j < |rows| ::
      rows[i].ticket == rows[j].ticket && InFlightRow(rows[i]) && InFlightRow(rows[j])
      ==> rows[i].operation != rows[j].operation
  }

  ghost predicate AreQueued(rows: seq<Row>, organization: nat, ticket: nat, ops: set<Operation>, now: int) {
    && (forall i | 0 <= i < |rows| ::
          && rows[i].organization == organization && rows[i].ticket == ticket && rows[i].operation in ops
          && rows[i].status == Pending && rows[i].updatedAt == now && rows[i].result.None? && rows[i].error.None?)
    && (forall op | op in ops :: exists i | 0 <= i < |rows| :: rows[i].operation == op)
    && (forall i, j | 0 <= i < j < |rows| :: rows[i].operation != rows[j].operation)
  }

  lemma {:induction false} MissingIsTheRest(wanted: seq<Operation>, covered: set<Operation>)
    requires Distinct(wanted)
    ensures Distinct(Missing(wanted, covered))
    ensures forall op :: op in Missing(wanted, covered) <==> op in wanted && op !in covered
  {
    if wanted == [] {
    } else {
      MissingIsTheRest(wanted[1..], covered);
    }
  }

  lemma QueuedIsOnePerOperation(organization: nat, ticket: nat, wanted: seq<Operation>,
                                covered: set<Operation>, now: int)
    requires Distinct(wanted)
    ensures AreQueued(Queued(organization, ticket, wanted, covered, now), organization, ticket,
                      (set op | op in wanted) - covered, now)
  {
    hide Missing;
    MissingIsTheRest(wanted, covered);
    var ops := Missing(wanted, covered);
    var rows := Queued(organization, ticket, wanted, covered, now);
    forall op | op in wanted && op !in covered
      ensures exists i | 0 <= i < |rows| :: rows[i].operation == op
    {
      var i: nat :| i < |ops| && ops[i] == op;
      assert rows[i].operation == op;
    }
  }

  /** Writing the rows of a request keeps the duplicate guard exactly when none of the
      operations it is about to queue is in flight at that moment, whatever it read before. */
  lemma QueueingKeepsTheGuard(rows: seq<Row>, organization: nat, ticket: nat, wanted: seq<Operation>,
                              covered: set<Operation>, now: int)
    requires NoDuplicates(rows) && Distinct(wanted)
    ensures NoDuplicates(rows + Queued(organization, ticket, wanted, covered, now))
            <==> (forall op | op in wanted && op !in covered :: op !in InFlight(rows, ticket))
  {
    QueuedIsOnePerOperation(organization, ticket, wanted, covered, now);
    var queued := Queued(organization, ticket, wanted, covered, now);
    var all := rows + queued;
    if op :| op in wanted && op !in covered && op in InFlight(rows, ticket) {
      var i: nat :| i < |rows| && rows[i].ticket == ticket && InFlightRow(rows[i]) && rows[i].operation == op;
      assert op in (set o | o in wanted) - covered;
      var j: nat :| j < |queued| && queued[j].operation == op;
      assert all[i] == rows[i] && all[|rows| + j] == queued[j];
      assert !NoDuplicates(all);
    } else {
      forall i, j | 0 <= i < j < |all|
        ensures all[i].ticket == all[j].ticket && InFlightRow(all[i]) && InFlightRow(all[j])
                ==> all[i].operation != all[j].operation
      {
        if i < |rows| <= j {
          assert all[j] == queued[j - |rows|];
          assert all[j].operation in wanted && all[j].operation !in covered;
        } else if |rows| <= i {
          assert all[i] == queued[i - |rows|] && all[j] == queued[j - |rows|];
        }
      }
    }
  }

  // ----- claiming --------------------------------------------------------------------------

  /** The ids of a batch this tenant has rows for. */
  function Owned(rows: seq<Row>, organization: nat, ids: set<nat>): set<nat> {
    set i | i in ids && i < |rows| && rows[i].organization == organization
  }

  /** A row of the batch that this tenant may claim: its own, and still pending. */
  ghost predicate Claimable(rows: seq<Row>, organization: nat, ids: set<nat>, i: nat) {
    i in ids && i < |rows| && rows[i].organization == organization && rows[i].status == Pending
  }

  /** The tenant's rows of the batch that are no longer pending. */
  ghost function Skipped(rows: seq<Row>, organization: nat, ids: set<nat>): set<nat> {
    set i | i in ids && i < |rows| && rows[i].organization == organization && rows[i].status != Pending
  }

  /** The ids one claim takes: owned, and still pending. */
  function Taken(rows: seq<Row>, organization: nat, ids: set<nat>): (taken: set<nat>)
    ensures taken <= Owned(rows, organization, ids)
  {
    set i | i in ids && i < |rows| && rows[i].organization == organization && rows[i].status.Pending?
  }

  /** UPDATE ... SET status = 'processing' WHERE status = 'pending'. */
  function Claimed(rows: seq<Row>, taken: set<nat>, now: int): (after: seq<Row>)
    ensures |after| == |rows|
  {
    seq(|rows|, i requires 0 <= i < |rows| =>
      if i in taken then rows[i].(status := Processing, updatedAt := now) else rows[i])
  }

  /** The second delivery of a batch takes nothing, whoever took it first. */
  lemma SecondClaimTakesNothing(rows: seq<Row>, organization: nat, ids: set<nat>, now: int)
    ensures Taken(Claimed(rows, Taken(rows, organization, ids), now), organization, ids) == {}
    ensures Owned(Claimed(rows, Taken(rows, organization, ids), now), organization, ids)
            == Owned(rows, organization, ids)
  {
    var taken := Taken(rows, organization, ids);
    var after := Claimed(rows, taken, now);
    forall i | i in ids && i < |rows| && rows[i].organization == organization
      ensures !after[i].status.Pending?
    {
      if rows[i].status.Pending? { assert i in taken; }
    }
  }

  // ----- finishing and reaping ---------------------------------------------------------------

  /** `_complete` or `_fail`: the write does not look at the status it replaces. */
  function FinishedRow(row: Row, outcome: Outcome, now: int): Row {
    match outcome
    case Answer(payload) => row.(status := Completed, result := Some(payload), updatedAt := now)
    case Failure(message) => row.(status := Failed, error := Some(message), updatedAt := now)
  }

  ghost predicate SameSubject(a: Row, b: Row) {
    a.organization == b.organization && a.ticket == b.ticket && a.operation == b.operation
  }

  /** The row holds what its operation ended in: an answer as the result of a completed row, a
      failure as the message of a failed one. */
  ghost predicate Records(row: Row, outcome: Outcome) {
    match outcome
    case Answer(payload) => row.status == Completed && row.result == Some(payload)
    case Failure(message) => row.status == Failed && row.error == Some(message)
  }

  predicate Abandoned(row: Row, cutoff: int) {
    row.status.Processing? && row.updatedAt < cutoff
  }

  function Reaped(rows: seq<Row>, cutoff: int, now: int): (after: seq<Row>)
    ensures |after| == |rows|
  {
    seq(|rows|, i requires 0 <= i < |rows| =>
      if Abandoned(rows[i], cutoff)
      then rows[i].(status := Failed, error := Some(ABANDONED), updatedAt := now)
      else rows[i])
  }

  // ----- the batch order ---------------------------------------------------------------------

  /** The ids below `n` of one operation, in the order they were created. */
  function OfOperation(rows: seq<Row>, ids: set<nat>, op: Operation, n: nat): seq<nat>
    requires n <= |rows|
  {
    if n == 0 then []
    else OfOperation(rows, ids, op, n - 1)
         + (if n - 1 in ids && rows[n - 1].operation == op then [n - 1] else [])
  }

  /** SELECT ... ORDER BY operation. */
  function Loaded(rows: seq<Row>, ids: set<nat>): seq<nat> {
    OfOperation(rows, ids, Classify, |rows|) + OfOperation(rows, ids, Sentiment, |rows|)
    + OfOperation(rows, ids, Summarize, |rows|) + OfOperation(rows, ids, SuggestResponse, |rows|)
  }

  lemma {:induction false} OfOperationAscends(rows: seq<Row>, ids: set<nat>, op: Operation, n: nat)
    requires n <= |rows|
    ensures forall k | 0 <= k < |OfOperation(rows, ids, op, n)| ::
              OfOperation(rows, ids, op, n)[k] < n && OfOperation(rows, ids, op, n)[k] in ids
              && rows[OfOperation(rows, ids, op, n)[k]].operation == op
    ensures forall k, l | 0 <= k < l < |OfOperation(rows, ids, op, n)| ::
              OfOperation(rows, ids, op, n)[k] < OfOperation(rows, ids, op, n)[l]
  {
    if n > 0 { OfOperationAscends(rows, ids, op, n - 1); }
  }

  lemma {:induction false} OfOperationCovers(rows: seq<Row>, ids: set<nat>, op: Operation, n: nat, i: nat)
    requires n <= |rows| && i < n && i in ids && rows[i].operation == op
    ensures i in OfOperation(rows, ids, op, n)
  {
    if i < n - 1 { OfOperationCovers(rows, ids, op, n - 1, i); }
  }

  ghost predicate InOrder(order: seq<nat>, rows: seq<Row>) {
    && (forall k | 0 <= k < |order| :: order[k] < |rows|)
    && (forall k, l | 0 <= k < l < |order| ::
          order[k] != order[l] && Rank(rows[order[k]].operation) <= Rank(rows[order[l]].operation))
  }

  lemma InOrderConcat(a: seq<nat>, b: seq<nat>, rows: seq<Row>, bound: nat)
    requires InOrder(a, rows) && InOrder(b, rows)
    requires forall k | 0 <= k < |a| :: Rank(rows[a[k]].operation) < bound
    requires forall k | 0 <= k < |b| :: Rank(rows[b[k]].operation) == bound
    ensures InOrder(a + b, rows)
    ensures forall k | 0 <= k < |a + b| :: Rank(rows[(a + b)[k]].operation) < bound + 1
  {
    var all := a + b;
    forall k, l | 0 <= k < l < |all|
      ensures all[k] != all[l] && Rank(rows[all[k]].operation) <= Rank(rows[all[l]].operation)
    {
      if k < |a| <= l { assert all[l] == b[l - |a|]; }
    }
  }

  lemma ListedInOrder(rows: seq<Row>, ids: set<nat>, op: Operation, rank: nat)
    requires rank == Rank(op)
    ensures var order := OfOperation(rows, ids, op, |rows|);
            && InOrder(order, rows)
            && (forall k | 0 <= k < |order| :: Rank(rows[order[k]].operation) == rank)
            && (forall i: nat :: i in order <==> i in ids && i < |rows| && rows[i].operation == op)
  {
    hide OfOperation;
    OfOperationAscends(rows, ids, op, |rows|);
    forall i: nat | i in ids && i < |rows| && rows[i].operation == op
      ensures i in OfOperation(rows, ids, op, |rows|)
    {
      OfOperationCovers(rows, ids, op, |rows|, i);
    }
  }

  /** A batch is worked through in operation order, each row once, and none left out. */
  lemma LoadedIsInOrder(rows: seq<Row>, ids: set<nat>)
    requires forall i | i in ids :: i < |rows|
    ensures InOrder(Loaded(rows, ids), rows)
    ensures forall i: nat :: i in ids <==> i in Loaded(rows, ids)
  {
    hide OfOperation, InOrder;
    var n := |rows|;
    ListedInOrder(rows, ids, Classify, 0);
    ListedInOrder(rows, ids, Sentiment, 1);
    ListedInOrder(rows, ids, Summarize, 2);
    ListedInOrder(rows, ids, SuggestResponse, 3);
    var a, b := OfOperation(rows, ids, Classify, n), OfOperation(rows, ids, Sentiment, n);
    var c, d := OfOperation(rows, ids, Summarize, n), OfOperation(rows, ids, SuggestResponse, n);
    InOrderConcat(a, b, rows, 1);
    InOrderConcat(a + b, c, rows, 2);
    InOrderConcat(a + b + c, d, rows, 3);
  }

  // ----- the table as the processes change it ------------------------------------------------

  /** The rows among these whose outcome was an answer. */
  ghost function Answers(worked: seq<nat>, outcomes: map<nat, Outcome>): set<nat> {
    set i | i in worked && i in outcomes && outcomes[i].Answer?
  }

  lemma NoAnswers(outcomes: map<nat, Outcome>)
    ensures |Answers([], outcomes)| == 0
  {
  }

  lemma AnswersMore(front: seq<nat>, id: nat, outcomes: map<nat, Outcome>)
    requires id !in front && id in outcomes
    ensures |Answers(front + [id], outcomes)| == |Answers(front, outcomes)| + (if outcomes[id].Answer? then 1 else 0)
  {
    var before, after := Answers(front, outcomes), Answers(front + [id], outcomes);
    if outcomes[id].Answer? {
      assert after == before + {id};
    } else {
      assert after == before;
    }
  }

  /** A claim takes just the claimable rows, and skips the rest of the tenant's own. */
  lemma ClaimIsOfTheClaimable(rows: seq<Row>, organization: nat, ids: set<nat>, now: int)
    ensures forall i: nat :: i in Taken(rows, organization, ids) <==> Claimable(rows, organization, ids, i)
    ensures |Owned(rows, organization, ids)| - |Taken(rows, organization, ids)| == |Skipped(rows, organization, ids)|
    ensures |Taken(rows, organization, ids)| <= |ids| && forall i | i in Taken(rows, organization, ids) :: i < |rows|
    ensures var after := Claimed(rows, Taken(rows, organization, ids), now);
            forall i: nat | i < |rows| ::
              after[i] == if Claimable(rows, organization, ids, i)
                          then rows[i].(status := Processing, updatedAt := now) else rows[i]
  {
    var owned, taken := Owned(rows, organization, ids), Taken(rows, organization, ids);
    assert owned - taken == Skipped(rows, organization, ids);
    TakenWithinOwned(owned, taken);
    TakenWithinOwned(ids, taken);
  }

  datatype Counts = Counts(completed: nat, failed: nat, skipped: nat)

  /** However early a run is cut short, what it worked on is a start of the batch. */
  lemma BatchPrefix(rows: seq<Row>, ids: set<nat>, stop: nat)
    requires forall i | i in ids :: i < |rows|
    ensures var order := Loaded(rows, ids);
            var worked := order[..if stop < |order| then stop else |order|];
            && InOrder(worked, rows)
            && (forall k | 0 <= k < |worked| :: worked[k] in ids)
            && (forall k, l | 0 <= k < l < |worked| :: worked[k] != worked[l])
            && (stop >= |ids| ==> forall i | i in ids :: i in worked)
  {
    hide Loaded;
    LoadedIsInOrder(rows, ids);
    OrderSize(Loaded(rows, ids), ids);
  }

  class Analyses {
    var rows: seq<Row>

    constructor ()
      ensures rows == []
    {
      rows := [];
    }

    /** `request_analysis`, with the read and the write in one step: how many rows it created.
        Nothing is written for an operation that is already in flight. */
    method Request(organization: nat, ticket: nat, wanted: seq<Operation>, now: int)
      returns (created: nat)
      requires Distinct(wanted)
      modifies this
      ensures |rows| == |old(rows)| + created && rows[..|old(rows)|] == old(rows)
      ensures AreQueued(rows[|old(rows)|..], organization, ticket,
                        (set op | op in wanted && !Underway(old(rows), ticket, op)), now)
      ensures old(NoDuplicates(rows)) ==> NoDuplicates(rows)
      ensures forall op | op in wanted :: Underway(rows, ticket, op)
    {
      var covered := InFlight(rows, ticket);
      var queued := Queued(organization, ticket, wanted, covered, now);
      QueuedIsOnePerOperation(organization, ticket, wanted, covered, now);
      if NoDuplicates(rows) {
        QueueingKeepsTheGuard(rows, organization, ticket, wanted, covered, now);
      }
      ghost var before := rows;
      rows := rows + queued;
      created := |queued|;
      forall op: Operation ensures op in covered <==> Underway(before, ticket, op) {
      }
      assert (set op | op in wanted) - covered == (set op | op in wanted && !Underway(before, ticket, op));
      forall op | op in wanted ensures Underway(rows, ticket, op) {
        if op in covered {
          var i: nat :| i < |before| && before[i].ticket == ticket && InFlightRow(before[i])
                        && before[i].operation == op;
          assert rows[i] == before[i];
        } else {
          assert op in (set o | o in wanted) - covered;
          var j: nat :| j < |queued| && queued[j].operation == op;
          assert rows[|before| + j] == queued[j];
        }
      }
    }

    /** `run_analysis`, alone with the table. `stop` is the number of operations it finishes
        before its process ends; a run that is not cut short finishes them all. */
    method Run(organization: nat, ids: set<nat>, outcomes: map<nat, Outcome>, stop: nat, now: int)
      returns (counts: Counts, worked: seq<nat>)
      requires forall i | i in Taken(rows, organization, ids) :: i in outcomes
      modifies this
      ensures |rows| == |old(rows)|
      ensures InOrder(worked, old(rows))
      ensures forall i | i in worked :: i < |rows| && i in outcomes && Claimable(old(rows), organization, ids, i)
      ensures forall i | i in worked ::
                Records(rows[i], outcomes[i]) && SameSubject(rows[i], old(rows)[i]) && rows[i].updatedAt == now
      ensures forall i: nat | Claimable(old(rows), organization, ids, i) && i !in worked ::
                rows[i] == old(rows)[i].(status := Processing, updatedAt := now)
      ensures forall i: nat | i < |rows| && !Claimable(old(rows), organization, ids, i) :: rows[i] == old(rows)[i]
      ensures counts.completed + counts.failed == |worked|
      ensures counts.completed == |Answers(worked, outcomes)|
      ensures counts.skipped == |Skipped(old(rows), organization, ids)|
      ensures stop >= |ids| ==> forall i: nat | Claimable(old(rows), organization, ids, i) :: i in worked
    {
      hide Loaded, InOrder, Answers, Skipped, Claimable, Taken, Owned, Claimed, Records;
      var owned := Owned(rows, organization, ids);
      var taken := Taken(rows, organization, ids);
      ClaimIsOfTheClaimable(rows, organization, ids, now);
      var order := Loaded(rows, taken);
      BatchPrefix(rows, taken, stop);
      worked := order[..if stop < |order| then stop else |order|];
      rows := Claimed(rows, taken, now);
      counts := Work(worked, outcomes, |owned| - |taken|, now);
    }

    /** The loop of `run_analysis`: one operation, one commit, in the order given. */
    method Work(worked: seq<nat>, outcomes: map<nat, Outcome>, skipped: nat, now: int) returns (counts: Counts)
      requires forall k | 0 <= k < |worked| :: worked[k] < |rows| && worked[k] in outcomes
      requires forall k, l | 0 <= k < l < |worked| :: worked[k] != worked[l]
      modifies this
      ensures |rows| == |old(rows)|
      ensures forall i | i in worked ::
                Records(rows[i], outcomes[i]) && SameSubject(rows[i], old(rows)[i]) && rows[i].updatedAt == now
      ensures forall i: nat | i < |rows| && i !in worked :: rows[i] == old(rows)[i]
      ensures counts.completed + counts.failed == |worked| && counts.skipped == skipped
      ensures counts.completed == |Answers(worked, outcomes)|
    {
      hide Answers;
      counts := Counts(0, 0, skipped);
      NoAnswers(outcomes);
      var k := 0;
      while k < |worked|
        invariant k <= |worked| && |rows| == |old(rows)|
        invariant forall l | 0 <= l < k ::
                 rows[worked[l]] == FinishedRow(old(rows)[worked[l]], outcomes[worked[l]], now)
        invariant forall i: nat | i < |rows| && i !in worked[..k] :: rows[i] == old(rows)[i]
        invariant counts.completed + counts.failed == k && counts.skipped == skipped
        invariant counts.completed == |Answers(worked[..k], outcomes)|
      {
        var id := worked[k];
        assert worked[..k + 1] == worked[..k] + [id];
        AnswersMore(worked[..k], id, outcomes);
        match outcomes[id] {
          case Answer(_) => counts := counts.(completed := counts.completed + 1);
          case Failure(_) => counts := counts.(failed := counts.failed + 1);
        }
        rows := rows[id := FinishedRow(rows[id], outcomes[id], now)];
        k := k + 1;
      }
      assert worked[..k] == worked;
    }

    /** `_reap`: every claim older than the cutoff fails, nothing else is touched, and no row
        it leaves in processing is older than the cutoff. */
    method Reap(cutoff: int, now: int) returns (abandoned: set<nat>)
      modifies this
      ensures |rows| == |old(rows)|
      ensures forall i: nat :: i in abandoned <==>
                i < |rows| && old(rows)[i].status == Processing && old(rows)[i].updatedAt < cutoff
      ensures forall i: nat | i < |rows| && i !in abandoned :: rows[i] == old(rows)[i]
      ensures forall i | i in abandoned ::
                rows[i].status == Failed && rows[i].error == Some(ABANDONED)
                && SameSubject(rows[i], old(rows)[i]) && rows[i].updatedAt == now
      ensures forall i: nat | i < |rows| && rows[i].status.Processing? :: rows[i].updatedAt >= cutoff
    {
      abandoned := set i: nat | i < |rows| && Abandoned(rows[i], cutoff);
      rows := Reaped(rows, cutoff, now);
    }
  }

  lemma TakenWithinOwned(owned: set<nat>, taken: set<nat>)
    requires taken <= owned
    ensures |taken| <= |owned| && |owned| - |taken| == |owned - taken|
  {
    assert |owned| == |taken| + |owned - taken| by { assert owned == taken + (owned - taken); }
  }

  lemma {:induction false} OrderSize(order: seq<nat>, ids: set<nat>)
    requires forall i, j | 0 <= i < j < |order| :: order[i] != order[j]
    requires forall i: nat :: i in ids <==> i in order
    ensures |order| == |ids|
  {
    if order == [] {
      assert ids == {};
    } else {
      var last := order[|order| - 1];
      var front := order[..|order| - 1];
      forall i: nat ensures i in ids - {last} <==> i in front {
        if i in ids && i != last {
          var k :| 0 <= k < |order| && order[k] == i;
          assert front[k] == i;
        }
      }
      OrderSize(front, ids - {last});
    }
  }
}
