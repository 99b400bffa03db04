/** Requests, deliveries, worker deaths and reaper passes over one analysis table, in any
    order. Time is in seconds. */
module AnalysisRuns {
  import opened Common
  import opened AnalysisTable

  /** `limit` is the hard time limit that kills a task, `threshold` the age a claim must pass
      before the reaper takes it. */
  datatype Config = Config(limit: nat, threshold: nat)

  const DEFAULTS := Config(120, 900)

  /** A request between its read of what is in flight and its write. */
  datatype Ask = Ask(organization: nat, ticket: nat, wanted: seq<Operation>, covered: set<Operation>)

  /** One delivery of a batch. `todo` are the rows it claimed and has not finished, `calling`
      the one whose provider call is under way. */
  datatype Worker = Worker(organization: nat, ids: set<nat>, started: int, alive: bool, claimed: bool,
                           todo: set<nat>, calling: Option<nat>)

  /** `calls` lists the rows a provider run was begun for, `swept` is when the reaper last ran. */
  datatype World = World(now: int, swept: int, rows: seq<Row>, asks: map<nat, Ask>,
                         workers: seq<Worker>, calls: seq<nat>)

  datatype Step =
    | Read(ask: nat, organization: nat, ticket: nat, wanted: seq<Operation>)
    | Write(ask: nat)
    | Deliver(organization: nat, ids: set<nat>)  // first delivery, redelivery or misrouted
    | Claim(worker: nat, stamp: int)             // stamped with the start of its transaction
    | Begin(worker: nat, id: nat)
    | Finish(worker: nat, outcome: Outcome)
    | Exit(worker: nat)                          // done, killed, or an exception nobody caught
    | Sweep
    | Tick(seconds: nat)

  const START := World(0, 0, [], map[], [], [])

  predicate Running(w: World, j: nat) {
    j < |w.workers| && w.workers[j].alive
  }

  predicate Enabled(c: Config, w: World, step: Step) {
    match step
    case Read(k, _, _, wanted) => k !in w.asks && Distinct(wanted)
    case Write(k) => k in w.asks
    case Deliver(_, _) => true
    case Claim(j, stamp) => Running(w, j) && !w.workers[j].claimed && w.workers[j].started <= stamp <= w.now
    case Begin(j, id) => Running(w, j) && w.workers[j].calling.None? && id in w.workers[j].todo
    case Finish(j, _) => Running(w, j) && w.workers[j].calling.Some? && w.workers[j].calling.value < |w.rows|
    case Exit(j) => Running(w, j)
    case Sweep => true
    // A task that has used up its time is killed before the clock moves on.
    case Tick(seconds) => forall j | 0 <= j < |w.workers| :: w.workers[j].alive
                            ==> w.now + seconds <= w.workers[j].started + c.limit
  }

  function Next(c: Config, w: World, step: Step): World
    requires Enabled(c, w, step)
  {
    match step
    case Read(k, organization, ticket, wanted) =>
      w.(asks := w.asks[k := Ask(organization, ticket, wanted, InFlight(w.rows, ticket))])
    case Write(k) =>
      var a := w.asks[k];
      w.(rows := w.rows + Queued(a.organization, a.ticket, a.wanted, a.covered, w.now), asks := w.asks - {k})
    case Deliver(organization, ids) =>
      w.(workers := w.workers + [Worker(organization, ids, w.now, true, false, {}, None)])
    case Claim(j, stamp) =>
      var v := w.workers[j];
      var taken := Taken(w.rows, v.organization, v.ids);
      w.(rows := Claimed(w.rows, taken, stamp), workers := w.workers[j := v.(claimed := true, todo := taken)])
    case Begin(j, id) =>
      w.(workers := w.workers[j := w.workers[j].(calling := Some(id))], calls := w.calls + [id])
    case Finish(j, outcome) =>
      var v := w.workers[j];
      var id := v.calling.value;
      w.(rows := w.rows[id := FinishedRow(w.rows[id], outcome, w.now)],
         workers := w.workers[j := v.(todo := v.todo - {id}, calling := None)])
    case Exit(j) => w.(workers := w.workers[j := w.workers[j].(alive := false)])
    case Sweep => w.(rows := Reaped(w.rows, w.now - c.threshold, w.now), swept := w.now)
    case Tick(seconds) => w.(now := w.now + seconds)
  }

  /** The world after a list of steps; a step that is not possible when its turn comes does
      nothing. */
  function After(c: Config, steps: seq<Step>): World {
    if steps == [] then START
    else
      var w := After(c, steps[..|steps| - 1]);
      var step := steps[|steps| - 1];
      if Enabled(c, w, step) then Next(c, w, step) else w
  }

  // ----- what every step keeps -----------------------------------------------------------

  ghost predicate RowsFine(w: World) {
    && w.swept <= w.now
    && (forall i | 0 <= i < |w.rows| :: HasPayload(w.rows[i]) && w.rows[i].updatedAt <= w.now)
  }

  /** No claim is older than the threshold was at the last sweep. */
  ghost predicate NoneForgotten(c: Config, w: World) {
    forall i | 0 <= i < |w.rows| :: w.rows[i].status.Processing? ==> w.rows[i].updatedAt >= w.swept - c.threshold
  }

  /** A living worker is within its time, and holds every row it has not finished. */
  ghost predicate Holds(c: Config, w: World, v: Worker) {
    && v.started <= w.now <= v.started + c.limit
    && (!v.claimed ==> v.todo == {})
    && (v.calling.Some? ==> v.calling.value in v.todo)
    && (forall id | id in v.todo ::
          && id < |w.rows|
          && w.rows[id].organization == v.organization
          && w.rows[id].status.Processing?
          && w.rows[id].updatedAt >= v.started)
  }

  ghost predicate WorkersHold(c: Config, w: World) {
    forall j | 0 <= j < |w.workers| :: w.workers[j].alive ==> Holds(c, w, w.workers[j])
  }

  /** No row is held by two living workers. */
  ghost predicate Exclusive(w: World) {
    forall j, k | 0 <= j < k < |w.workers| ::
      w.workers[j].alive && w.workers[k].alive ==> w.workers[j].todo !! w.workers[k].todo
  }

  /** A row has one provider run at most, and only once it has been claimed. */
  ghost predicate CalledOnce(w: World) {
    && (forall a, b | 0 <= a < b < |w.calls| :: w.calls[a] != w.calls[b])
    && (forall a | 0 <= a < |w.calls| :: w.calls[a] < |w.rows| && !w.rows[w.calls[a]].status.Pending?)
    && (forall j, id | 0 <= j < |w.workers| && w.workers[j].alive && id in w.workers[j].todo ::
          w.workers[j].calling != Some(id) ==> id !in w.calls)
  }

  ghost predicate Sound(c: Config, w: World) {
    RowsFine(w) && NoneForgotten(c, w) && WorkersHold(c, w) && Exclusive(w) && CalledOnce(w)
  }

  ghost predicate AsksDistinct(w: World) {
    forall k | k in w.asks :: Distinct(w.asks[k].wanted)
  }

  /** How one row may change: its subject never does, it does not go back to pending, and
      once it is settled it stays exactly as it is. */
  ghost predicate Follows(a: Row, b: Row) {
    && b.organization == a.organization && b.ticket == a.ticket && b.operation == a.operation
    && (!a.status.Pending? ==> !b.status.Pending?)
    && (Settled(a) ==> b == a)
  }

  ghost predicate Progress(before: seq<Row>, after: seq<Row>) {
    |before| <= |after| && forall i | 0 <= i < |before| :: Follows(before[i], after[i])
  }

  lemma ReadKeeps(c: Config, w: World, step: Step)
    requires Sound(c, w) && (step.Read? || step.Exit? || step.Deliver? || step.Tick?) && Enabled(c, w, step)
    ensures Sound(c, Next(c, w, step)) && Next(c, w, step).rows == w.rows
  {
    var w' := Next(c, w, step);
    if step.Deliver? {
      assert w'.workers[|w.workers|].todo == {};
    }
  }

  lemma WriteKeeps(c: Config, w: World, k: nat)
    requires Sound(c, w) && Enabled(c, w, Write(k)) && AsksDistinct(w)
    ensures Sound(c, Next(c, w, Write(k))) && Progress(w.rows, Next(c, w, Write(k)).rows)
  {
    hide Missing, InFlight;
  }

  lemma ClaimKeepsRows(c: Config, w: World, j: nat, stamp: int)
    requires c.limit <= c.threshold && Sound(c, w) && Enabled(c, w, Claim(j, stamp))
    ensures var w' := Next(c, w, Claim(j, stamp));
            RowsFine(w') && NoneForgotten(c, w') && Progress(w.rows, w'.rows)
  {
    hide Exclusive, CalledOnce;
    assert Holds(c, w, w.workers[j]);
  }

  lemma ClaimKeepsWorkers(c: Config, w: World, j: nat, stamp: int)
    requires c.limit <= c.threshold && Sound(c, w) && Enabled(c, w, Claim(j, stamp))
    ensures WorkersHold(c, Next(c, w, Claim(j, stamp))) && Exclusive(Next(c, w, Claim(j, stamp)))
  {
    hide CalledOnce, NoneForgotten;
    var w' := Next(c, w, Claim(j, stamp));
    assert forall k | 0 <= k < |w.workers| && k != j :: w'.workers[k] == w.workers[k];
  }

  lemma ClaimKeepsCalls(c: Config, w: World, j: nat, stamp: int)
    requires c.limit <= c.threshold && Sound(c, w) && Enabled(c, w, Claim(j, stamp))
    ensures CalledOnce(Next(c, w, Claim(j, stamp)))
  {
    hide NoneForgotten, Exclusive;
    var w' := Next(c, w, Claim(j, stamp));
    var taken := Taken(w.rows, w.workers[j].organization, w.workers[j].ids);
    assert forall id | id in taken :: id !in w.calls;
    assert forall k | 0 <= k < |w.workers| && k != j :: w'.workers[k] == w.workers[k];
  }

  lemma ClaimKeeps(c: Config, w: World, j: nat, stamp: int)
    requires c.limit <= c.threshold && Sound(c, w) && Enabled(c, w, Claim(j, stamp))
    ensures Sound(c, Next(c, w, Claim(j, stamp))) && Progress(w.rows, Next(c, w, Claim(j, stamp)).rows)
  {
    hide RowsFine, NoneForgotten, WorkersHold, Exclusive, CalledOnce, Progress;
    ClaimKeepsRows(c, w, j, stamp);
    ClaimKeepsWorkers(c, w, j, stamp);
    ClaimKeepsCalls(c, w, j, stamp);
  }

  lemma BeginKeeps(c: Config, w: World, j: nat, id: nat)
    requires Sound(c, w) && Enabled(c, w, Begin(j, id))
    ensures Sound(c, Next(c, w, Begin(j, id))) && Next(c, w, Begin(j, id)).rows == w.rows
  {
    var w' := Next(c, w, Begin(j, id));
    assert forall k | 0 <= k < |w.workers| && k != j :: w'.workers[k] == w.workers[k];
    assert Holds(c, w, w.workers[j]);
    assert id !in w.calls;
  }

  lemma FinishKeeps(c: Config, w: World, j: nat, outcome: Outcome)
    requires Sound(c, w) && Enabled(c, w, Finish(j, outcome))
    ensures Sound(c, Next(c, w, Finish(j, outcome)))
    ensures Progress(w.rows, Next(c, w, Finish(j, outcome)).rows)
  {
    var w' := Next(c, w, Finish(j, outcome));
    var id := w.workers[j].calling.value;
    assert Holds(c, w, w.workers[j]);
    assert forall k | 0 <= k < |w.workers| && k != j :: w'.workers[k] == w.workers[k];
    assert forall i | 0 <= i < |w.rows| && i != id :: w'.rows[i] == w.rows[i];
    forall k | 0 <= k < |w.workers| && k != j && w.workers[k].alive
      ensures id !in w.workers[k].todo
    {
      if k < j { assert w.workers[k].todo !! w.workers[j].todo; }
      else { assert w.workers[j].todo !! w.workers[k].todo; }
    }
  }

  /** The reaper never takes a row from a worker that is alive. */
  lemma SweepSparesTheLiving(c: Config, w: World, j: nat, id: nat)
    requires c.limit <= c.threshold && Sound(c, w)
    requires Running(w, j) && id in w.workers[j].todo
    ensures id < |w.rows| && Next(c, w, Sweep).rows[id] == w.rows[id]
  {
    assert Holds(c, w, w.workers[j]);
  }

  lemma SweepKeeps(c: Config, w: World)
    requires c.limit <= c.threshold && Sound(c, w)
    ensures Sound(c, Next(c, w, Sweep)) && Progress(w.rows, Next(c, w, Sweep).rows)
  {
    var w' := Next(c, w, Sweep);
    forall j, id | 0 <= j < |w.workers| && w.workers[j].alive && id in w.workers[j].todo
      ensures id < |w.rows| && w'.rows[id] == w.rows[id]
    {
      SweepSparesTheLiving(c, w, j, id);
    }
    forall j | 0 <= j < |w'.workers| && w'.workers[j].alive
      ensures Holds(c, w', w'.workers[j])
    {
      assert Holds(c, w, w.workers[j]);
    }
  }

  lemma StepKeeps(c: Config, w: World, step: Step)
    requires c.limit <= c.threshold && Sound(c, w) && AsksDistinct(w) && Enabled(c, w, step)
    ensures Sound(c, Next(c, w, step)) && AsksDistinct(Next(c, w, step))
    ensures Progress(w.rows, Next(c, w, step).rows)
  {
    hide Sound, Reaped, Claimed, Queued, FinishedRow, Taken;
    match step
    case Write(k) => WriteKeeps(c, w, k);
    case Claim(j, stamp) => ClaimKeeps(c, w, j, stamp);
    case Begin(j, id) => BeginKeeps(c, w, j, id);
    case Finish(j, outcome) => FinishKeeps(c, w, j, outcome);
    case Sweep => SweepKeeps(c, w);
    case _ => ReadKeeps(c, w, step);
  }

  /** What the steps of a worker and the reaper write, row by row: a claim takes the tenant's pending
      rows of its batch, stamped; a finished call puts its outcome on its own row and lets go of it;
      a death only ends the worker; and the reaper fails exactly the claims older than the threshold,
      with a message. */
  lemma StepsWrite(c: Config, w: World, j: nat, stamp: int, outcome: Outcome)
    ensures Enabled(c, w, Claim(j, stamp)) ==>
              var v := Next(c, w, Claim(j, stamp));
              && |v.rows| == |w.rows|
              && (forall i: nat | i < |w.rows| ::
                    var takes := Claimable(w.rows, w.workers[j].organization, w.workers[j].ids, i);
                    && v.rows[i] == (if takes then w.rows[i].(status := Processing, updatedAt := stamp) else w.rows[i])
                    && (i in v.workers[j].todo <==> takes))
    ensures Enabled(c, w, Finish(j, outcome)) ==>
              var v := Next(c, w, Finish(j, outcome));
              var id := w.workers[j].calling.value;
              && |v.rows| == |w.rows| && Records(v.rows[id], outcome) && SameSubject(v.rows[id], w.rows[id])
              && v.rows[id].updatedAt == w.now && v.rows == w.rows[id := v.rows[id]]
              && v.workers == w.workers[j := w.workers[j].(todo := w.workers[j].todo - {id}, calling := None)]
    ensures Running(w, j) ==> Next(c, w, Exit(j)) == w.(workers := w.workers[j := w.workers[j].(alive := false)])
    ensures var v := Next(c, w, Sweep);
            && v.swept == w.now && |v.rows| == |w.rows|
            && forall i | 0 <= i < |w.rows| ::
                 if w.rows[i].status == Processing && w.rows[i].updatedAt < w.now - c.threshold
                 then v.rows[i].status == Failed && v.rows[i].error == Some(ABANDONED)
                      && SameSubject(v.rows[i], w.rows[i])
                 else v.rows[i] == w.rows[i]
  {
  }

  // ----- every run -----------------------------------------------------------------------

  lemma StartIsSound(c: Config)
    ensures Sound(c, START) && Guarded(START)
  {
  }

  lemma {:induction false} RunsAreSound(c: Config, steps: seq<Step>)
    requires c.limit <= c.threshold
    ensures Sound(c, After(c, steps)) && AsksDistinct(After(c, steps))
  {
    hide Sound, Next, Enabled;
    if steps == [] {
      StartIsSound(c);
    } else {
      var n := |steps| - 1;
      RunsAreSound(c, steps[..n]);
      if Enabled(c, After(c, steps[..n]), steps[n]) { StepKeeps(c, After(c, steps[..n]), steps[n]); }
    }
  }

  lemma {:induction false} RunsProgress(c: Config, steps: seq<Step>, i: nat)
    requires c.limit <= c.threshold && i <= |steps|
    ensures Progress(After(c, steps[..i]).rows, After(c, steps).rows)
  {
    hide Sound, Next, Enabled;
    if i == |steps| {
      assert steps[..i] == steps;
    } else {
      var n := |steps| - 1;
      assert steps[..n][..i] == steps[..i];
      RunsProgress(c, steps[..n], i);
      RunsAreSound(c, steps[..n]);
      if Enabled(c, After(c, steps[..n]), steps[n]) { StepKeeps(c, After(c, steps[..n]), steps[n]); }
    }
  }

  predicate IsPending(row: Row) {
    row.status.Pending?
  }

  predicate IsUnsettled(row: Row) {
    !Settled(row)
  }

  /** Does step `k` of the run move the row out of the states `from` describes? */
  ghost predicate Moves(c: Config, steps: seq<Step>, k: nat, id: nat, from: Row -> bool)
    requires k < |steps|
  {
    && id < |After(c, steps[..k]).rows| <= |After(c, steps[..k + 1]).rows|
    && from(After(c, steps[..k]).rows[id])
    && !from(After(c, steps[..k + 1]).rows[id])
  }

  /** In every run, a row leaves `pending` once at most and settles once at most. */
  lemma RowsMoveOnce(c: Config, steps: seq<Step>, k: nat, l: nat, id: nat)
    requires c.limit <= c.threshold && k < l < |steps|
    ensures !(Moves(c, steps, k, id, IsPending) && Moves(c, steps, l, id, IsPending))
    ensures !(Moves(c, steps, k, id, IsUnsettled) && Moves(c, steps, l, id, IsUnsettled))
  {
    hide After;
    assert steps[..l][..k + 1] == steps[..k + 1];
    RunsProgress(c, steps[..l], k + 1);
  }

  /** What a settled row says never changes again, and it always has its payload. */
  lemma SettledRowsStay(c: Config, steps: seq<Step>, k: nat, id: nat)
    requires c.limit <= c.threshold && k <= |steps|
    requires id < |After(c, steps[..k]).rows| && Settled(After(c, steps[..k]).rows[id])
    ensures id < |After(c, steps).rows| && After(c, steps).rows[id] == After(c, steps[..k]).rows[id]
    ensures HasPayload(After(c, steps).rows[id])
  {
    RunsProgress(c, steps, k);
    RunsAreSound(c, steps);
  }

  function Started(rows: seq<Row>): set<nat> {
    set i: nat | i < |rows| && !rows[i].status.Pending?
  }

  /** However often a batch is delivered, no row is paid for twice: provider runs are distinct
      rows, and never more than the rows that were claimed. */
  lemma NoSecondBill(c: Config, steps: seq<Step>)
    requires c.limit <= c.threshold
    ensures var w := After(c, steps);
            && (forall a, b | 0 <= a < b < |w.calls| :: w.calls[a] != w.calls[b])
            && |w.calls| <= |Started(w.rows)|
  {
    RunsAreSound(c, steps);
    DistinctFit(After(c, steps).calls, Started(After(c, steps).rows));
  }

  /** A row is in processing no longer than the threshold and the time since the last sweep
      together, whatever became of the worker that claimed it. */
  lemma AbandonedClaimsEnd(c: Config, steps: seq<Step>, id: nat, interval: nat)
    requires c.limit <= c.threshold && id < |After(c, steps).rows|
    requires After(c, steps).now - After(c, steps).swept <= interval
    ensures var w := After(c, steps);
            w.rows[id].status.Processing? ==> w.now - w.rows[id].updatedAt <= c.threshold + interval
  {
    RunsAreSound(c, steps);
  }

  /** A task handed another tenant's rows changes none of them. */
  lemma WorkStaysInTenant(c: Config, steps: seq<Step>, step: Step, j: nat, id: nat)
    requires c.limit <= c.threshold && Enabled(c, After(c, steps), step)
    requires step.Claim? || step.Begin? || step.Finish?
    requires j == step.worker && id < |After(c, steps).rows|
    requires After(c, steps).rows[id].organization != After(c, steps).workers[j].organization
    ensures id < |Next(c, After(c, steps), step).rows|
    ensures Next(c, After(c, steps), step).rows[id] == After(c, steps).rows[id]
  {
    RunsAreSound(c, steps);
    assert Holds(c, After(c, steps), After(c, steps).workers[j]);
  }

  // ----- the threshold ---------------------------------------------------------------------

  /** A task that outlives the threshold, and what the reaper and the task then both write. */
  function Overtaken(c: Config): seq<Step> {
    [Read(0, 0, 0, [Summarize]), Write(0), Deliver(0, {0}), Claim(0, 0), Begin(0, 0),
     Tick(c.threshold + 1), Sweep]
  }

  lemma Snoc(c: Config, steps: seq<Step>, step: Step)
    ensures After(c, steps + [step])
            == var w := After(c, steps); if Enabled(c, w, step) then Next(c, w, step) else w
  {
    assert (steps + [step])[..|steps|] == steps;
  }

  lemma AtStart(c: Config)
    ensures After(c, []) == START
  {
  }

  lemma QueuedAtStart(w: World)
    requires w == START
    ensures InFlight(w.rows, 0) == {}
    ensures Queued(0, 0, [Summarize], {}, 0) == [Row(0, 0, Summarize, Pending, 0, None, None)]
  {
    assert Missing([Summarize], {}) == [Summarize];
  }

  lemma OvertakenQueues(c: Config)
    ensures After(c, Overtaken(c)[..3]) ==
            World(0, 0, [Row(0, 0, Summarize, Pending, 0, None, None)], map[],
                  [Worker(0, {0}, 0, true, false, {}, None)], [])
  {
    hide After, InFlight, Queued, Missing;
    QueuedAtStart(START);
    AtStart(c);
    var s := Overtaken(c);
    assert s[..0] == [] && s[..1] == s[..0] + [s[0]] && s[..2] == s[..1] + [s[1]] && s[..3] == s[..2] + [s[2]];
    Snoc(c, s[..0], s[0]);
    var w1 := After(c, s[..1]);
    assert w1.rows == [] && w1.asks == map[0 := Ask(0, 0, [Summarize], {})];
    Snoc(c, s[..1], s[1]);
    var w2 := After(c, s[..2]);
    assert w2.rows == [Row(0, 0, Summarize, Pending, 0, None, None)] && w2.asks == map[];
    Snoc(c, s[..2], s[2]);
  }

  lemma OvertakenClaims(c: Config)
    ensures After(c, Overtaken(c)[..5]) ==
            World(0, 0, [Row(0, 0, Summarize, Processing, 0, None, None)], map[],
                  [Worker(0, {0}, 0, true, true, {0}, Some(0))], [0])
  {
    hide After;
    OvertakenQueues(c);
    var s := Overtaken(c);
    assert s[..4] == s[..3] + [s[3]] && s[..5] == s[..4] + [s[4]];
    Snoc(c, s[..3], s[3]);
    var w3, w4 := After(c, s[..3]), After(c, s[..4]);
    assert Taken(w3.rows, 0, {0}) == {0};
    assert w4.rows == [Row(0, 0, Summarize, Processing, 0, None, None)];
    Snoc(c, s[..4], s[4]);
  }

  /** With a threshold below the time limit the reaper takes a living worker's row. */
  lemma ShortThresholdFails(c: Config)
    requires c.limit > c.threshold
    ensures !Sound(c, After(c, Overtaken(c)))
    ensures Running(After(c, Overtaken(c)), 0)
    ensures 0 in After(c, Overtaken(c)).workers[0].todo
    ensures After(c, Overtaken(c)).rows != [] && After(c, Overtaken(c)).rows[0].status.Failed?
  {
    hide After;
    var s := Overtaken(c);
    OvertakenClaims(c);
    assert s[..6] == s[..5] + [s[5]] && s == s[..6] + [s[6]];
    Snoc(c, s[..5], s[5]);
    Snoc(c, s[..6], s[6]);
    var w := After(c, s);
    assert w.rows[0].status.Failed?;
    assert !Holds(c, w, w.workers[0]);
  }

  /** The hard limit below the threshold is exactly what the protocol rests on. */
  lemma SoundExactlyWithRoom(c: Config)
    ensures (forall steps :: Sound(c, After(c, steps))) <==> c.limit <= c.threshold
  {
    if c.limit <= c.threshold {
      forall steps ensures Sound(c, After(c, steps)) { RunsAreSound(c, steps); }
    } else {
      ShortThresholdFails(c);
    }
  }

  /** The settings that ship have room. */
  lemma DefaultsAreSound(steps: seq<Step>)
    ensures Sound(DEFAULTS, After(DEFAULTS, steps))
  {
    RunsAreSound(DEFAULTS, steps);
  }

  // ----- the duplicate guard -----------------------------------------------------------------

  /** No request reads what is in flight while another on its ticket has still to write. */
  ghost predicate Serial(c: Config, steps: seq<Step>) {
    forall k | 0 <= k < |steps| && steps[k].Read? ::
      forall a | a in After(c, steps[..k]).asks :: After(c, steps[..k]).asks[a].ticket != steps[k].ticket
  }

  ghost predicate Guarded(w: World) {
    && NoDuplicates(w.rows)
    && (forall a | a in w.asks :: Distinct(w.asks[a].wanted))
    && (forall a, b | a in w.asks && b in w.asks && a != b :: w.asks[a].ticket != w.asks[b].ticket)
    && (forall a, op | a in w.asks && op in w.asks[a].wanted && op in InFlight(w.rows, w.asks[a].ticket) ::
          op in w.asks[a].covered)
  }

  lemma InFlightShrinks(before: seq<Row>, after: seq<Row>, ticket: nat)
    requires |before| == |after| && Progress(before, after)
    ensures InFlight(after, ticket) <= InFlight(before, ticket)
    ensures NoDuplicates(before) ==> NoDuplicates(after)
  {
    assert forall i | 0 <= i < |after| :: InFlightRow(after[i]) ==> InFlightRow(before[i]);
  }

  lemma WriteGuarded(c: Config, w: World, k: nat)
    requires Guarded(w) && Enabled(c, w, Write(k))
    ensures Guarded(Next(c, w, Write(k)))
  {
    hide Missing, Queued;
    var a := w.asks[k];
    var w' := Next(c, w, Write(k));
    QueueingKeepsTheGuard(w.rows, a.organization, a.ticket, a.wanted, a.covered, w.now);
    QueuedIsOnePerOperation(a.organization, a.ticket, a.wanted, a.covered, w.now);
    forall b, op | b in w'.asks && op in w'.asks[b].wanted && op in InFlight(w'.rows, w'.asks[b].ticket)
      ensures op in w'.asks[b].covered
    {
      assert op in InFlight(w.rows, w.asks[b].ticket);
    }
  }

  lemma StepGuarded(c: Config, w: World, step: Step)
    requires c.limit <= c.threshold && Sound(c, w) && Guarded(w) && Enabled(c, w, step)
    requires step.Read? ==> forall a | a in w.asks :: w.asks[a].ticket != step.ticket
    ensures Guarded(Next(c, w, step))
  {
    hide Sound, Reaped, Claimed, Queued, FinishedRow, Taken, NoDuplicates;
    if step.Write? {
      WriteGuarded(c, w, step.ask);
    } else {
      StepKeeps(c, w, step);
      var w' := Next(c, w, step);
      assert |w'.rows| == |w.rows|;
      forall ticket: nat ensures InFlight(w'.rows, ticket) <= InFlight(w.rows, ticket) {
        InFlightShrinks(w.rows, w'.rows, ticket);
      }
      InFlightShrinks(w.rows, w'.rows, 0);
    }
  }

  /** When requests on one ticket do not overlap, one row at most for a ticket and an
      operation is in flight, at every point of every run. */
  lemma {:induction false} SerialRequestsNeverDuplicate(c: Config, steps: seq<Step>)
    requires c.limit <= c.threshold && Serial(c, steps)
    ensures Guarded(After(c, steps))
  {
    hide Sound, Next, Enabled, Guarded;
    if steps == [] {
      StartIsSound(c);
    } else {
      var n := |steps| - 1;
      assert forall k | 0 <= k < n :: steps[..n][..k] == steps[..k];
      SerialRequestsNeverDuplicate(c, steps[..n]);
      RunsAreSound(c, steps[..n]);
      if Enabled(c, After(c, steps[..n]), steps[n]) { StepGuarded(c, After(c, steps[..n]), steps[n]); }
    }
  }

  /** A write that queues an operation in flight at that moment: its own read missed it. */
  ghost predicate Collides(w: World, step: Step) {
    && step.Write? && step.ask in w.asks
    && var a := w.asks[step.ask];
       exists op | op in a.wanted && op !in a.covered :: op in InFlight(w.rows, a.ticket)
  }

  lemma StepDuplicatesExactly(c: Config, w: World, step: Step)
    requires c.limit <= c.threshold && Sound(c, w) && AsksDistinct(w) && Enabled(c, w, step) && NoDuplicates(w.rows)
    ensures NoDuplicates(Next(c, w, step).rows) <==> !Collides(w, step)
  {
    hide Sound, Reaped, Claimed, Queued, FinishedRow, Taken, NoDuplicates, InFlight;
    if step.Write? {
      var a := w.asks[step.ask];
      QueueingKeepsTheGuard(w.rows, a.organization, a.ticket, a.wanted, a.covered, w.now);
    } else {
      StepKeeps(c, w, step);
      SameLength(c, w, step);
      InFlightShrinks(w.rows, Next(c, w, step).rows, 0);
    }
  }

  lemma SameLength(c: Config, w: World, step: Step)
    requires Enabled(c, w, step) && !step.Write?
    ensures |Next(c, w, step).rows| == |w.rows|
  {
  }

  /** A run never has two rows for a ticket and an operation in flight exactly when none of its
      writes queues what is in flight at that moment, overlapping requests or not. */
  lemma {:induction false} DuplicateFreeExactly(c: Config, steps: seq<Step>)
    requires c.limit <= c.threshold
    ensures (forall m | 0 <= m <= |steps| :: NoDuplicates(After(c, steps[..m]).rows))
            <==> (forall m | 0 <= m < |steps| :: !Collides(After(c, steps[..m]), steps[m]))
  {
    hide Sound, Next, Enabled, NoDuplicates, Collides, After;
    if steps == [] {
      AtStart(c);
      StartIsSound(c);
      assert steps[..0] == [];
      NoRows();
    } else {
      var n := |steps| - 1;
      var front := steps[..n];
      assert forall m | 0 <= m <= n :: front[..m] == steps[..m];
      assert steps[..n + 1] == steps && front + [steps[n]] == steps;
      DuplicateFreeExactly(c, front);
      var w := After(c, front);
      RunsAreSound(c, front);
      Snoc(c, front, steps[n]);
      if NoDuplicates(w.rows) {
        if Enabled(c, w, steps[n]) {
          StepDuplicatesExactly(c, w, steps[n]);
        } else {
          DisabledIsHarmless(c, w, steps[n]);
        }
      }
      assert front[..n] == front;
      assert forall m | 0 <= m <= |steps| :: m == n + 1 || steps[..m] == front[..m];
      assert forall m | 0 <= m < n :: steps[m] == front[m];
    }
  }

  lemma NoRows()
    ensures NoDuplicates(START.rows)
  {
  }

  lemma DisabledIsHarmless(c: Config, w: World, step: Step)
    requires !Enabled(c, w, step)
    ensures !Collides(w, step)
  {
  }

  /** When they do overlap the guard can fail: both read before either writes. */
  const RACE := [Read(0, 0, 0, [Summarize]), Read(1, 0, 0, [Summarize]), Write(0), Write(1)]

  lemma OverlappingRequestsDuplicate(c: Config)
    ensures !NoDuplicates(After(c, RACE).rows)
  {
    hide After, InFlight, Queued, Missing;
    QueuedAtStart(START);
    AtStart(c);
    var s := RACE;
    assert s[..0] == [] && s[..1] == s[..0] + [s[0]] && s[..2] == s[..1] + [s[1]];
    assert s[..3] == s[..2] + [s[2]] && s == s[..3] + [s[3]];
    Snoc(c, s[..0], s[0]);
    Snoc(c, s[..1], s[1]);
    var w2 := After(c, s[..2]);
    assert w2.rows == [] && w2.asks == map[0 := Ask(0, 0, [Summarize], {}), 1 := Ask(0, 0, [Summarize], {})];
    Snoc(c, s[..2], s[2]);
    Snoc(c, s[..3], s[3]);
    var row := Row(0, 0, Summarize, Pending, 0, None, None);
    assert After(c, s).rows == [row, row];
    assert [row, row][0] == [row, row][1] && InFlightRow(row);
  }
}
