/** Delivering one notification's email at least once, and the stamp that narrows it. Time is in
    seconds. */
module Email {
  import opened Common

  /** `limit` is the hard time limit that kills a task, `window` the age past which the broker
      hands out again a message nobody has acknowledged, and `hold` the longest a message waits
      at its worker before the task begins, which is what a retry's countdown is spent on. */
  datatype Config = Config(limit: nat, hold: nat, window: nat)

  /** How far one delivery of the message has come. */
  datatype Stage = Held | Reading | Sending | Sent | Done

  datatype Run = Run(stage: Stage, delivered: int, begun: int)

  datatype World = World(now: int, emailed: bool, sends: nat, lost: nat, runs: map<nat, Run>)

  datatype Step =
    | Deliver(run: nat)    // first delivery, a retry or a redelivery
    | Begin(run: nat)
    | Check(run: nat)      // read the row: go on to send, or return
    | Send(run: nat)       // the server accepts the message
    | Refuse(run: nat)     // the server does not
    | Mark(run: nat)       // stamp the row and commit
    | Crash(run: nat)      // the worker dies, or the commit fails
    | Tick(seconds: nat)

  const START := World(0, false, 0, 0, map[])

  predicate Going(run: Run) {
    run.stage in {Reading, Sending, Sent}
  }

  /** The task is over or, for one still going, there is time left at this instant. */
  predicate InTime(c: Config, run: Run, now: int) {
    && (run.stage.Held? ==> now <= run.delivered + c.hold)
    && (Going(run) ==> now <= run.begun + c.limit)
  }

  predicate Enabled(c: Config, w: World, step: Step) {
    match step
    // The message is out while a delivery of it is neither done nor older than the window.
    case Deliver(r) => r !in w.runs && forall k | k in w.runs ::
                         w.runs[k].stage.Done? || w.now - w.runs[k].delivered > c.window
    case Begin(r) => r in w.runs && w.runs[r].stage.Held?
    case Check(r) => r in w.runs && w.runs[r].stage.Reading?
    case Send(r) => r in w.runs && w.runs[r].stage.Sending?
    case Refuse(r) => r in w.runs && w.runs[r].stage.Sending?
    case Mark(r) => r in w.runs && w.runs[r].stage.Sent?
    case Crash(r) => r in w.runs && !w.runs[r].stage.Done?
    // A task that has used up its time is killed before the clock moves on.
    case Tick(seconds) => forall k | k in w.runs :: InTime(c, w.runs[k], w.now + seconds)
  }

  function To(w: World, r: nat, stage: Stage): map<nat, Run>
    requires r in w.runs
  {
    w.runs[r := w.runs[r].(stage := stage)]
  }

  function Next(c: Config, w: World, step: Step): World
    requires Enabled(c, w, step)
  {
    match step
    case Deliver(r) => w.(runs := w.runs[r := Run(Held, w.now, w.now)])
    case Begin(r) => w.(runs := w.runs[r := w.runs[r].(stage := Reading, begun := w.now)])
    case Check(r) => w.(runs := To(w, r, if w.emailed then Done else Sending))
    case Send(r) => w.(sends := w.sends + 1, runs := To(w, r, Sent))
    case Refuse(r) => w.(runs := To(w, r, Done))
    case Mark(r) => w.(emailed := true, runs := To(w, r, Done))
    case Crash(r) => w.(lost := w.lost + (if w.runs[r].stage.Sent? then 1 else 0), runs := To(w, r, Done))
    case Tick(seconds) => w.(now := w.now + seconds)
  }

  function After(c: Config, steps: seq<Step>): World {
    if steps == [] then START
    else
      var before, step := After(c, steps[..|steps| - 1]), steps[|steps| - 1];
      if Enabled(c, before, step) then Next(c, before, step) else before
  }

  // ----- with room for the task inside the window ------------------------------------------------

  /** A task is over before its message can be handed out again. */
  predicate Roomy(c: Config) {
    c.hold + c.limit <= c.window
  }

  ghost predicate Timed(c: Config, w: World) {
    forall k | k in w.runs ::
      && InTime(c, w.runs[k], w.now) && w.runs[k].delivered <= w.now
      && (Going(w.runs[k]) ==> w.runs[k].begun <= w.runs[k].delivered + c.hold)
  }

  ghost predicate AloneAtWork(w: World) {
    forall j, k | j in w.runs && k in w.runs && j != k :: w.runs[j].stage.Done? || w.runs[k].stage.Done?
  }

  ghost predicate AtWork(w: World, stage: Stage) {
    exists k | k in w.runs :: w.runs[k].stage == stage
  }

  /** Every message sent was marked, lost, or is the one being marked now. */
  ghost predicate Accounted(w: World) {
    && AloneAtWork(w)
    && w.sends == w.lost + (if w.emailed then 1 else 0) + (if AtWork(w, Sent) then 1 else 0)
    && (AtWork(w, Sending) || AtWork(w, Sent) ==> !w.emailed)
  }

  lemma StepStaysTimed(c: Config, w: World, step: Step)
    requires Timed(c, w) && Enabled(c, w, step)
    ensures Timed(c, Next(c, w, step))
  {
  }

  /** A message is handed out again only when no delivery of it is under way. */
  lemma DeliveredAlone(c: Config, w: World, r: nat)
    requires Roomy(c) && Timed(c, w) && Enabled(c, w, Deliver(r))
    ensures forall k | k in w.runs :: w.runs[k].stage.Done?
  {
    forall k | k in w.runs ensures w.runs[k].stage.Done? {
      assert InTime(c, w.runs[k], w.now);
    }
  }

  lemma StepAccounts(c: Config, w: World, step: Step)
    requires Roomy(c) && Timed(c, w) && Accounted(w) && Enabled(c, w, step)
    ensures Accounted(Next(c, w, step))
  {
    hide Timed, InTime;
    var w' := Next(c, w, step);
    if step.Tick? {
      assert AtWork(w', Sent) <==> AtWork(w, Sent);
      assert AtWork(w', Sending) <==> AtWork(w, Sending);
      return;
    }
    var r := step.run;
    if step.Deliver? { DeliveredAlone(c, w, r); }
    assert forall k | k in w'.runs && k != r :: w'.runs[k].stage.Done?;
    assert r in w'.runs;
    assert AtWork(w', Sent) <==> w'.runs[r].stage.Sent?;
    assert AtWork(w', Sending) <==> w'.runs[r].stage.Sending?;
    if !step.Deliver? {
      assert AtWork(w, Sent) <==> w.runs[r].stage.Sent?;
      assert AtWork(w, Sending) <==> w.runs[r].stage.Sending?;
    }
  }

  lemma {:induction false} RunsAccount(c: Config, steps: seq<Step>)
    requires Roomy(c)
    ensures Timed(c, After(c, steps)) && Accounted(After(c, steps))
  {
    hide Accounted, Next, Enabled, Timed;
    if steps == [] {
      StartAccounts(c);
    } else {
      var n := |steps| - 1;
      var before := After(c, steps[..n]);
      RunsAccount(c, steps[..n]);
      if Enabled(c, before, steps[n]) {
        StepStaysTimed(c, before, steps[n]);
        StepAccounts(c, before, steps[n]);
      }
    }
  }

  lemma StartAccounts(c: Config)
    ensures Timed(c, START) && Accounted(START)
  {
  }

  /** With room, a stamped row is never mailed again. */
  lemma {:induction false} StampedMeansNoMore(c: Config, steps: seq<Step>, i: nat)
    requires Roomy(c) && i <= |steps| && After(c, steps[..i]).emailed
    ensures After(c, steps).emailed && After(c, steps).sends == After(c, steps[..i]).sends
  {
    if i == |steps| {
      assert steps[..i] == steps;
    } else {
      var n := |steps| - 1;
      assert steps[..n][..i] == steps[..i];
      StampedMeansNoMore(c, steps[..n], i);
      RunsAccount(c, steps[..n]);
      var w := After(c, steps[..n]);
      assert !AtWork(w, Sending);
    }
  }

  // ----- without it --------------------------------------------------------------------------------

  /** A delivery held and run for as long as it may be, and a second one at its last moment: both
      read the row before either stamps it. */
  function Twice(c: Config): seq<Step> {
    [Deliver(0), Tick(c.hold), Begin(0), Check(0), Tick(c.limit), Deliver(1), Begin(1), Check(1),
     Send(0), Mark(0), Send(1)]
  }

  lemma Snoc(c: Config, steps: seq<Step>, step: Step)
    ensures After(c, steps + [step])
            == var w := After(c, steps); if Enabled(c, w, step) then Next(c, w, step) else w
  {
    assert (steps + [step])[..|steps|] == steps;
  }

  lemma AtStart(c: Config)
    ensures After(c, []) == START
  {
  }

  lemma FirstAtItsEnd(c: Config)
    ensures After(c, Twice(c)[..5])
            == World(c.hold + c.limit, false, 0, 0, map[0 := Run(Sending, 0, c.hold)])
  {
    hide After;
    var s := Twice(c);
    AtStart(c);
    assert s[..1] == [] + [s[0]] && s[..2] == s[..1] + [s[1]] && s[..3] == s[..2] + [s[2]];
    assert s[..4] == s[..3] + [s[3]] && s[..5] == s[..4] + [s[4]];
    Snoc(c, [], s[0]);
    Snoc(c, s[..1], s[1]);
    assert After(c, s[..2]) == World(c.hold, false, 0, 0, map[0 := Run(Held, 0, 0)]);
    Snoc(c, s[..2], s[2]);
    Snoc(c, s[..3], s[3]);
    assert After(c, s[..4]) == World(c.hold, false, 0, 0, map[0 := Run(Sending, 0, c.hold)]);
    Snoc(c, s[..4], s[4]);
  }

  lemma SecondHasRead(c: Config)
    requires !Roomy(c)
    ensures var t := c.hold + c.limit;
            After(c, Twice(c)[..8])
            == World(t, false, 0, 0, map[0 := Run(Sending, 0, c.hold), 1 := Run(Sending, t, t)])
  {
    hide After;
    var s := Twice(c);
    FirstAtItsEnd(c);
    assert s[..6] == s[..5] + [s[5]] && s[..7] == s[..6] + [s[6]] && s[..8] == s[..7] + [s[7]];
    Snoc(c, s[..5], s[5]);
    Snoc(c, s[..6], s[6]);
    Snoc(c, s[..7], s[7]);
  }

  /** Two messages, neither lost, and the second after the stamp. */
  lemma LongTasksSendTwice(c: Config)
    requires !Roomy(c)
    ensures After(c, Twice(c)).sends == 2 && After(c, Twice(c)).lost == 0
    ensures After(c, Twice(c)[..10]).emailed && After(c, Twice(c)[..10]).sends == 1
  {
    hide After;
    var s := Twice(c);
    SecondHasRead(c);
    assert s[..9] == s[..8] + [s[8]] && s[..10] == s[..9] + [s[9]] && s == s[..10] + [s[10]];
    Snoc(c, s[..8], s[8]);
    Snoc(c, s[..9], s[9]);
    Snoc(c, s[..10], s[10]);
  }

  /** In every run the messages sent are at most one and the crashes between a send and its mark,
      exactly when a message cannot be handed out again before its task's time is up. */
  lemma SendsAreOneAndTheLost(c: Config)
    ensures (forall steps :: After(c, steps).sends <= 1 + After(c, steps).lost) <==> Roomy(c)
  {
    hide After;
    if Roomy(c) {
      forall steps ensures After(c, steps).sends <= 1 + After(c, steps).lost {
        RunsAccount(c, steps);
      }
    } else {
      LongTasksSendTwice(c);
    }
  }

  /** The settings that ship, with the longest countdown of a retry. */
  const DEFAULTS := Config(120, 600, 3600)

  lemma DefaultsSendOnce(steps: seq<Step>)
    ensures After(DEFAULTS, steps).sends <= 1 + After(DEFAULTS, steps).lost
  {
    RunsAccount(DEFAULTS, steps);
  }

  /** Once the row is stamped no delivery that has still to read it sends, with room or without. */
  lemma {:induction false} StampedRowsStaySilent(c: Config, steps: seq<Step>, i: nat, run: nat)
    requires i <= |steps| && After(c, steps[..i]).emailed
    requires run !in After(c, steps[..i]).runs || After(c, steps[..i]).runs[run].stage in {Held, Reading}
    ensures After(c, steps).emailed
    ensures run in After(c, steps).runs ==> After(c, steps).runs[run].stage in {Held, Reading, Done}
  {
    if i == |steps| {
      assert steps[..i] == steps;
    } else {
      var n := |steps| - 1;
      assert steps[..n][..i] == steps[..i];
      StampedRowsStaySilent(c, steps[..n], i, run);
    }
  }
}
