/** The versioned analytics cache under interleaved readers and writers and a Redis that may
    be away for any one call. Time is counted in whole ticks of any length. */
module AnalyticsCache {
  import opened Common
  import opened CacheKeys

  /** What a caller asks: the endpoint, the tenant, the row scope, the digest of the window. */
  datatype Question = Question(namespace: Segment, organization: Segment, scope: Scope, digest: string)

  /** What `produce` returned: for which question, how many of the tenant's commits all of it
      includes, and since when. It runs several statements, each with a snapshot of its own; the
      first sees the fewest commits, so `commits` and `at` are those of its first statement.
      Commits of a tenant are numbered from 1. */
  datatype Answer = Answer(question: Question, commits: nat, at: int)

  datatype Entry = Entry(key: Key, answer: Answer, expires: int)

  function KeyFor(q: Question, version: nat): Key {
    Key(q.namespace, q.organization, q.scope, version, q.digest)
  }

  function Count(counts: map<Segment, nat>, organization: Segment): nat {
    if organization in counts then counts[organization] else 0
  }

  /** The entry at a key, while it lives. */
  function Live(entries: map<string, Entry>, key: Key, now: int): Option<Answer> {
    var text := KeyText(key);
    if text in entries && now < entries[text].expires then Some(entries[text].answer) else None
  }

  function Stored(entries: map<string, Entry>, key: Key, answer: Answer, now: int, ttl: nat): map<string, Entry> {
    entries[KeyText(key) := Entry(key, answer, now + ttl)]
  }

  /** Every entry stands under its own key's text. */
  ghost predicate Filed(entries: map<string, Entry>) {
    forall text | text in entries :: text == KeyText(entries[text].key)
  }

  /** A key of just this question and version. */
  predicate For(key: Key, q: Question, version: nat) {
    && key.namespace == q.namespace && key.organization == q.organization && key.scope == q.scope
    && key.digest == q.digest && key.version == version
  }

  /** All a tenant has on file is of versions before this one. */
  ghost predicate Outdated(entries: map<string, Entry>, organization: Segment, version: nat) {
    forall text | text in entries && entries[text].key.organization == organization ::
      entries[text].key.version < version
  }

  // ----- one caller ------------------------------------------------------------------------

  /** The shared store: a counter for each tenant, and the entries. */
  class Redis {
    var versions: map<Segment, nat>
    var entries: map<string, Entry>

    constructor ()
      ensures versions == map[] && entries == map[]
    {
      versions := map[];
      entries := map[];
    }

    /** `get_version`: 0 when the call fails, and when the tenant has no counter yet. */
    method GetVersion(organization: Segment, reachable: bool) returns (version: nat)
      ensures version == if reachable then Count(versions, organization) else 0
    {
      if !reachable || organization !in versions { return 0; }
      version := versions[organization];
    }

    /** `invalidate`: one counter moves forward by one, or, in an outage, nothing moves. */
    method Invalidate(organization: Segment, reachable: bool)
      modifies this
      ensures entries == old(entries)
      ensures Count(versions, organization) == Count(old(versions), organization) + (if reachable then 1 else 0)
      ensures forall other: Segment | other != organization :: Count(versions, other) == Count(old(versions), other)
    {
      if reachable {
        versions := versions[organization := Count(versions, organization) + 1];
      }
    }

    /** `read_through`: `readable` and `writable` say whether the two Redis calls get through
        and the stored payload still parses; `produced` is what `produce` would return. */
    method ReadThrough(key: Key, produced: Answer, readable: bool, writable: bool, now: int, ttl: nat)
      returns (answer: Answer, hit: bool)
      modifies this
      ensures versions == old(versions)
      ensures hit == (readable && Live(old(entries), key, now).Some?)
      ensures answer == if hit then Live(old(entries), key, now).value else produced
      ensures !hit && writable ==> Live(entries, key, now + ttl - 1) == Some(produced) || ttl == 0
      ensures !hit && writable ==> Live(entries, key, now + ttl).None?
      ensures !hit && writable ==> entries == old(entries)[KeyText(key) := Entry(key, produced, now + ttl)]
      ensures hit || !writable ==> entries == old(entries)
      ensures forall other: Key | other != key :: Live(entries, other, now) == Live(old(entries), other, now)
      ensures Filed(old(entries)) ==> Filed(entries)
    {
      var cached := if readable then Live(entries, key, now) else None;
      if cached.Some? { return cached.value, true; }
      answer, hit := produced, false;
      if writable {
        forall other: Key | other != key ensures KeyText(other) != KeyText(key) {
          if KeyText(other) == KeyText(key) { KeysAreDistinct(other, key); }
        }
        entries := Stored(entries, key, produced, now, ttl);
      }
    }

    /** `key_for` and `read_through`, as every cached endpoint calls them. A caller is served what
        is on file for its own endpoint, tenant, row scope and parameters at the counter's version,
        and nothing else; what it computes is filed under the same. When all the tenant has on
        file is of earlier versions, as after an increment, a caller that can read the counter is
        given what it computed, and nothing older. */
    method Ask(q: Question, produced: Answer, reached: bool, readable: bool, writable: bool, now: int, ttl: nat)
      returns (answer: Answer, hit: bool)
      requires Filed(entries)
      modifies this
      ensures versions == old(versions) && Filed(entries)
      ensures var version := if reached then Count(versions, q.organization) else 0;
              && (hit <==> readable && exists text ::
                    text in old(entries) && For(old(entries)[text].key, q, version) && now < old(entries)[text].expires)
              && (hit ==> forall text | text in old(entries) && For(old(entries)[text].key, q, version) ::
                    answer == old(entries)[text].answer)
              && (!hit && writable ==> exists text ::
                    text in entries && For(entries[text].key, q, version)
                    && entries[text].answer == produced && entries[text].expires == now + ttl)
              && (forall text | text in old(entries) && !For(old(entries)[text].key, q, version) ::
                    text in entries && entries[text] == old(entries)[text])
              && (forall text | text in entries && !For(entries[text].key, q, version) :: text in old(entries))
      ensures !hit ==> answer == produced
      ensures hit || !writable ==> entries == old(entries)
      ensures reached && Outdated(old(entries), q.organization, Count(versions, q.organization)) ==>
                !hit && answer == produced
    {
      var version := GetVersion(q.organization, reached);
      ghost var key, before := KeyFor(q, version), entries;
      answer, hit := ReadThrough(KeyFor(q, version), produced, readable, writable, now, ttl);
      forall k: Key | For(k, q, version) ensures k == key {
      }
      forall text | text in before && before[text].key != key ensures text != KeyText(key) {
        if text == KeyText(key) { KeysAreDistinct(before[text].key, key); }
      }
      assert !hit && writable ==> entries[KeyText(key)] == Entry(key, produced, now + ttl);
    }
  }

  // ----- many callers ------------------------------------------------------------------------

  /** `delay` bounds the time from the first statement of a computation to its storing;
      `versionReadsFail` says whether reading the counter may fail. Every other Redis call may
      always fail. */
  datatype Config = Config(ttl: nat, delay: nat, versionReadsFail: bool)

  /** One commit; `number` is the version its increment produced, 0 while it has not happened. */
  datatype Writer = Writer(organization: Segment, commit: nat, at: int, number: nat)

  datatype Phase = Keyed | Missed | Computed(answer: Answer) | Done(reply: Answer, when: int)

  /** One request; `reached` says whether its own read of the counter got through, and `owed` are
      the commits announced before it started. */
  datatype Reader = Reader(question: Question, version: nat, reached: bool, owed: set<nat>, phase: Phase)

  datatype World = World(now: int, commits: map<Segment, nat>, versions: map<Segment, nat>,
                         entries: map<string, Entry>, writers: seq<Writer>, readers: seq<Reader>)

  datatype Step =
    | Commit(organization: Segment)
    | Announce(writer: nat)
    | Start(question: Question, reachable: bool)
    | Lookup(reader: nat, reachable: bool)
    | Compute(reader: nat)
    | Store(reader: nat, reachable: bool)
    | Tick(ticks: nat)

  const START := World(0, map[], map[], map[], [], [])

  predicate Enabled(c: Config, w: World, step: Step) {
    match step
    case Commit(_) => true
    case Announce(i) => i < |w.writers| && w.writers[i].number == 0
    case Start(_, reachable) => reachable || c.versionReadsFail
    case Lookup(r, _) => r < |w.readers| && w.readers[r].phase.Keyed?
    case Compute(r) => r < |w.readers| && w.readers[r].phase.Missed?
    case Store(r, _) => r < |w.readers| && w.readers[r].phase.Computed?
    case Tick(ticks) => forall r | 0 <= r < |w.readers| && w.readers[r].phase.Computed? ::
                          w.now + ticks <= w.readers[r].phase.answer.at + c.delay
  }

  function Announced(w: World, organization: Segment): set<nat> {
    set i: nat | i < |w.writers| && w.writers[i].organization == organization && w.writers[i].number > 0
  }

  function Next(c: Config, w: World, step: Step): World
    requires Enabled(c, w, step)
  {
    match step
    case Commit(organization) =>
      var n := Count(w.commits, organization) + 1;
      w.(commits := w.commits[organization := n], writers := w.writers + [Writer(organization, n, w.now, 0)])
    case Announce(i) =>
      var organization := w.writers[i].organization;
      var n := Count(w.versions, organization) + 1;
      w.(versions := w.versions[organization := n], writers := w.writers[i := w.writers[i].(number := n)])
    case Start(q, reachable) =>
      var version := if reachable then Count(w.versions, q.organization) else 0;
      w.(readers := w.readers + [Reader(q, version, reachable, Announced(w, q.organization), Keyed)])
    case Lookup(r, reachable) =>
      var reader := w.readers[r];
      var cached := if reachable then Live(w.entries, KeyFor(reader.question, reader.version), w.now) else None;
      var phase := if cached.Some? then Done(cached.value, w.now) else Missed;
      w.(readers := w.readers[r := reader.(phase := phase)])
    case Compute(r) =>
      var reader := w.readers[r];
      var answer := Answer(reader.question, Count(w.commits, reader.question.organization), w.now);
      w.(readers := w.readers[r := reader.(phase := Computed(answer))])
    case Store(r, reachable) =>
      var reader := w.readers[r];
      var answer := reader.phase.answer;
      w.(entries := if reachable then Stored(w.entries, KeyFor(reader.question, reader.version), answer, w.now, c.ttl)
                    else w.entries,
         readers := w.readers[r := reader.(phase := Done(answer, w.now))])
    case Tick(ticks) => w.(now := w.now + ticks)
  }

  function After(c: Config, steps: seq<Step>): World {
    if steps == [] then START
    else
      var w := After(c, steps[..|steps| - 1]);
      var step := steps[|steps| - 1];
      if Enabled(c, w, step) then Next(c, w, step) else w
  }

  // ----- what every step keeps -----------------------------------------------------------

  ghost predicate WritersFine(w: World) {
    forall i | 0 <= i < |w.writers| ::
      && w.writers[i].commit <= Count(w.commits, w.writers[i].organization)
      && w.writers[i].number <= Count(w.versions, w.writers[i].organization)
      && w.writers[i].at <= w.now
  }

  /** An answer filed under `version` includes every commit announced up to that version, and
      every commit made before it was computed. */
  ghost predicate Includes(w: World, answer: Answer, version: nat) {
    && answer.at <= w.now
    && (forall i | 0 <= i < |w.writers| && w.writers[i].organization == answer.question.organization ::
          (0 < w.writers[i].number <= version || w.writers[i].at < answer.at) ==> w.writers[i].commit <= answer.commits)
  }

  ghost predicate EntryFine(c: Config, w: World, text: string, e: Entry) {
    && text == KeyText(e.key) && e.key == KeyFor(e.answer.question, e.key.version)
    && e.key.version <= Count(w.versions, e.key.organization)
    && Includes(w, e.answer, e.key.version)
    && e.expires <= e.answer.at + c.delay + c.ttl
  }

  ghost predicate EntriesFine(c: Config, w: World) {
    forall text | text in w.entries :: EntryFine(c, w, text, w.entries[text])
  }

  ghost predicate ReaderFine(c: Config, w: World, r: Reader) {
    && r.version <= Count(w.versions, r.question.organization)
    && (forall i | i in r.owed ::
          && i < |w.writers| && w.writers[i].organization == r.question.organization
          && 0 < w.writers[i].number && (r.reached ==> w.writers[i].number <= r.version))
    && (r.phase.Computed? ==>
          r.phase.answer.question == r.question && Includes(w, r.phase.answer, r.version)
          && w.now <= r.phase.answer.at + c.delay)
    && (r.phase.Done? ==>
          r.phase.reply.question == r.question && Includes(w, r.phase.reply, r.version)
          && r.phase.when <= w.now
          && (r.phase.when < r.phase.reply.at + c.ttl + c.delay || r.phase.when <= r.phase.reply.at + c.delay))
  }

  ghost predicate ReadersFine(c: Config, w: World) {
    forall r | 0 <= r < |w.readers| :: ReaderFine(c, w, w.readers[r])
  }

  ghost predicate Sound(c: Config, w: World) {
    WritersFine(w) && EntriesFine(c, w) && ReadersFine(c, w)
  }

  /** Commits, increments and time leave what was filed as complete as it was. */
  lemma IncludesStays(c: Config, w: World, step: Step, answer: Answer, version: nat)
    requires WritersFine(w) && Enabled(c, w, step) && (step.Commit? || step.Announce? || step.Tick?)
    requires Includes(w, answer, version) && version <= Count(w.versions, answer.question.organization)
    ensures Includes(Next(c, w, step), answer, version)
  {
  }

  lemma WritingKeeps(c: Config, w: World, step: Step)
    requires Sound(c, w) && Enabled(c, w, step) && (step.Commit? || step.Announce? || step.Tick?)
    ensures Sound(c, Next(c, w, step))
  {
    hide KeyText, Includes;
    var w' := Next(c, w, step);
    forall r | 0 <= r < |w'.readers| ensures ReaderFine(c, w', w'.readers[r]) {
      var reader := w.readers[r];
      assert ReaderFine(c, w, reader);
      if reader.phase.Computed? { IncludesStays(c, w, step, reader.phase.answer, reader.version); }
      if reader.phase.Done? { IncludesStays(c, w, step, reader.phase.reply, reader.version); }
    }
    forall text | text in w'.entries ensures EntryFine(c, w', text, w'.entries[text]) {
      assert EntryFine(c, w, text, w.entries[text]);
      IncludesStays(c, w, step, w.entries[text].answer, w.entries[text].key.version);
    }
  }

  lemma OtherReaders(c: Config, w: World, w': World, r: nat)
    requires Sound(c, w) && r < |w.readers| == |w'.readers|
    requires w'.writers == w.writers && w'.commits == w.commits && w'.versions == w.versions && w'.now == w.now
    requires forall k | 0 <= k < |w.readers| && k != r :: w'.readers[k] == w.readers[k]
    requires ReaderFine(c, w, w'.readers[r])
    requires forall text | text in w'.entries :: EntryFine(c, w, text, w'.entries[text])
    ensures Sound(c, w')
  {
    hide KeyText;
  }

  lemma StartKeeps(c: Config, w: World, step: Step)
    requires Sound(c, w) && Enabled(c, w, step) && step.Start?
    ensures Sound(c, Next(c, w, step))
  {
    hide KeyText;
  }

  /** A hit is the answer to the reader's own question, filed under the reader's version. */
  lemma HitIsOwn(c: Config, w: World, q: Question, version: nat)
    requires EntriesFine(c, w) && Live(w.entries, KeyFor(q, version), w.now).Some?
    ensures var answer := Live(w.entries, KeyFor(q, version), w.now).value;
            answer.question == q && Includes(w, answer, version) && w.now < answer.at + c.delay + c.ttl
  {
    hide KeyText, Includes;
    var e := w.entries[KeyText(KeyFor(q, version))];
    assert EntryFine(c, w, KeyText(KeyFor(q, version)), e);
    KeysAreDistinct(e.key, KeyFor(q, version));
  }

  lemma ReadingKeeps(c: Config, w: World, step: Step)
    requires Sound(c, w) && Enabled(c, w, step) && (step.Lookup? || step.Compute? || step.Store?)
    ensures Sound(c, Next(c, w, step))
  {
    hide KeyText;
    var r := step.reader;
    var reader := w.readers[r];
    assert ReaderFine(c, w, reader);
    if step.Lookup? && step.reachable && Live(w.entries, KeyFor(reader.question, reader.version), w.now).Some? {
      HitIsOwn(c, w, reader.question, reader.version);
    }
    OtherReaders(c, w, Next(c, w, step), r);
  }

  lemma StartIsSound(c: Config)
    ensures Sound(c, START)
  {
  }

  lemma {:induction false} RunsAreSound(c: Config, steps: seq<Step>)
    ensures Sound(c, After(c, steps))
  {
    hide Next, Enabled, Sound;
    if steps == [] {
      StartIsSound(c);
    } else {
      var w, step := After(c, steps[..|steps| - 1]), steps[|steps| - 1];
      RunsAreSound(c, steps[..|steps| - 1]);
      if Enabled(c, w, step) {
        match step
        case Start(_, _) => StartKeeps(c, w, step);
        case Lookup(_, _) => ReadingKeeps(c, w, step);
        case Compute(_) => ReadingKeeps(c, w, step);
        case Store(_, _) => ReadingKeeps(c, w, step);
        case _ => WritingKeeps(c, w, step);
      }
    }
  }

  // ----- what callers may rely on ------------------------------------------------------------

  /** The reply, if there is one, includes every commit announced before its request started. */
  ghost predicate FreshReply(w: World, r: nat)
    requires r < |w.readers|
  {
    w.readers[r].phase.Done? ==>
      forall i | i in w.readers[r].owed :: i < |w.writers| && w.writers[i].commit <= w.readers[r].phase.reply.commits
  }

  ghost predicate Fresh(w: World) {
    forall r | 0 <= r < |w.readers| :: FreshReply(w, r)
  }

  /** Every reply includes every commit of its tenant made more than `bound` before it. */
  ghost predicate StaleAtMost(w: World, bound: int) {
    forall r, i | 0 <= r < |w.readers| && w.readers[r].phase.Done? && 0 <= i < |w.writers|
                  && w.writers[i].organization == w.readers[r].question.organization ::
      w.readers[r].phase.when - w.writers[i].at > bound ==> w.writers[i].commit <= w.readers[r].phase.reply.commits
  }

  /** No reply was computed for another tenant, another row scope or another endpoint. */
  lemma RepliesAreOwn(c: Config, steps: seq<Step>, r: nat)
    requires r < |After(c, steps).readers| && After(c, steps).readers[r].phase.Done?
    ensures After(c, steps).readers[r].phase.reply.question == After(c, steps).readers[r].question
  {
    RunsAreSound(c, steps);
  }

  /** A request whose own read of the counter got through is answered with every commit announced
      before it started, whatever failed for any other request, before it or meanwhile. */
  lemma ReachedIsFresh(c: Config, steps: seq<Step>, r: nat)
    requires r < |After(c, steps).readers| && After(c, steps).readers[r].reached
    ensures FreshReply(After(c, steps), r)
  {
    hide After;
    RunsAreSound(c, steps);
    assert ReaderFine(c, After(c, steps), After(c, steps).readers[r]);
  }

  lemma {:induction false} ReadersReach(c: Config, steps: seq<Step>)
    requires !c.versionReadsFail
    ensures forall r | 0 <= r < |After(c, steps).readers| :: After(c, steps).readers[r].reached
  {
    hide KeyText;
    if steps != [] { ReadersReach(c, steps[..|steps| - 1]); }
  }

  lemma RunsAreFresh(c: Config, steps: seq<Step>)
    requires !c.versionReadsFail
    ensures Fresh(After(c, steps))
  {
    hide After;
    ReadersReach(c, steps);
    var w := After(c, steps);
    forall r | 0 <= r < |w.readers| ensures FreshReply(w, r) { ReachedIsFresh(c, steps, r); }
  }

  lemma StalenessIsBounded(c: Config, steps: seq<Step>, bound: int)
    requires c.ttl >= 1 && bound >= c.ttl + c.delay - 1
    ensures StaleAtMost(After(c, steps), bound)
  {
    RunsAreSound(c, steps);
    var w := After(c, steps);
    forall r, i | 0 <= r < |w.readers| && w.readers[r].phase.Done? && 0 <= i < |w.writers|
                  && w.writers[i].organization == w.readers[r].question.organization
                  && w.readers[r].phase.when - w.writers[i].at > bound
      ensures w.writers[i].commit <= w.readers[r].phase.reply.commits
    {
      assert ReaderFine(c, w, w.readers[r]);
    }
  }

  // ----- the two ways a reply is stale -----------------------------------------------------

  const ASKED := Question("overview", "t", Organization, "0")

  lemma Snoc(c: Config, steps: seq<Step>, step: Step)
    ensures After(c, steps + [step])
            == var w := After(c, steps); if Enabled(c, w, step) then Next(c, w, step) else w
  {
    assert (steps + [step])[..|steps|] == steps;
  }

  lemma AtStart(c: Config)
    ensures After(c, []) == START
  {
  }

  /** A request stores its answer `delay` ticks after computing it, a commit in between. */
  function Filled(c: Config): seq<Step> {
    [Start(ASKED, true), Lookup(0, true), Compute(0), Commit("t"), Tick(c.delay), Store(0, true)]
  }

  lemma ComputedWorld(c: Config)
    ensures After(c, Filled(c)[..3])
            == World(0, map[], map[], map[], [], [Reader(ASKED, 0, true, {}, Computed(Answer(ASKED, 0, 0)))])
  {
    hide After, KeyText;
    var s := Filled(c);
    AtStart(c);
    assert s[..0] == [] && s[..1] == s[..0] + [s[0]] && s[..2] == s[..1] + [s[1]] && s[..3] == s[..2] + [s[2]];
    Snoc(c, s[..0], s[0]);
    assert Announced(START, "t") == {};
    assert After(c, s[..1]).readers == [Reader(ASKED, 0, true, {}, Keyed)];
    Snoc(c, s[..1], s[1]);
    assert After(c, s[..2]).readers == [Reader(ASKED, 0, true, {}, Missed)];
    Snoc(c, s[..2], s[2]);
  }

  lemma FilledWorld(c: Config)
    ensures var reply := Answer(ASKED, 0, 0);
            After(c, Filled(c)) ==
            World(c.delay, map["t" := 1], map[],
                  map[KeyText(KeyFor(ASKED, 0)) := Entry(KeyFor(ASKED, 0), reply, c.delay + c.ttl)],
                  [Writer("t", 1, 0, 0)], [Reader(ASKED, 0, true, {}, Done(reply, c.delay))])
  {
    hide After, KeyText;
    var s := Filled(c);
    ComputedWorld(c);
    assert s[..4] == s[..3] + [s[3]] && s[..5] == s[..4] + [s[4]] && s == s[..5] + [s[5]];
    Snoc(c, s[..3], s[3]);
    Snoc(c, s[..4], s[4]);
    Snoc(c, s[..5], s[5]);
  }

  /** The announcement is lost, and a request just inside the entry's life reads it. */
  function Late(c: Config): seq<Step>
    requires c.ttl >= 1
  {
    Filled(c) + [Tick(c.ttl - 1)] + [Start(ASKED, true)] + [Lookup(1, true)]
  }

  lemma LateReply(c: Config)
    requires c.ttl >= 1
    ensures var w := After(c, Late(c));
            |w.readers| == 2 && |w.writers| == 1 && w.writers[0] == Writer("t", 1, 0, 0)
            && w.readers[1] == Reader(ASKED, 0, true, {}, Done(Answer(ASKED, 0, 0), c.delay + c.ttl - 1))
  {
    hide After, KeyText, Filled;
    FilledWorld(c);
    var s := Filled(c);
    Snoc(c, s, Tick(c.ttl - 1));
    var t := s + [Tick(c.ttl - 1)];
    Snoc(c, t, Start(ASKED, true));
    assert Announced(After(c, t), "t") == {};
    Snoc(c, t + [Start(ASKED, true)], Lookup(1, true));
  }

  /** However lost increments and lost replies fall, what bounds the age of a reply is exactly
      one TTL and the delay between the first statement of a computation and its storing. */
  lemma StalenessExactly(c: Config, bound: int)
    requires c.ttl >= 1
    ensures (forall steps :: StaleAtMost(After(c, steps), bound)) <==> bound >= c.ttl + c.delay - 1
  {
    hide After;
    if bound >= c.ttl + c.delay - 1 {
      forall steps ensures StaleAtMost(After(c, steps), bound) { StalenessIsBounded(c, steps, bound); }
    } else {
      LateReply(c);
      assert !StaleAtMost(After(c, Late(c)), bound);
    }
  }

  /** The announcement gets through, but the next reader's version read does not. */
  function Reverted(c: Config): seq<Step> {
    Filled(c) + [Announce(0)] + [Start(ASKED, false)] + [Lookup(1, true)]
  }

  lemma RevertedReply(c: Config)
    requires c.ttl >= 1 && c.versionReadsFail
    ensures var w := After(c, Reverted(c));
            |w.readers| == 2 && !w.readers[1].reached && !FreshReply(w, 1)
  {
    hide After, KeyText, Filled;
    FilledWorld(c);
    var s := Filled(c);
    Snoc(c, s, Announce(0));
    var t := s + [Announce(0)];
    Snoc(c, t, Start(ASKED, false));
    assert 0 in Announced(After(c, t), "t");
    Snoc(c, t + [Start(ASKED, false)], Lookup(1, true));
    var w := After(c, Reverted(c));
    assert w.readers[1].phase == Done(Answer(ASKED, 0, 0), c.delay);
    assert 0 in w.readers[1].owed && w.writers[0].commit == 1;
  }

  /** What a request can go by: of the requests whose own version read ended this way, in all runs
      of a Redis where any call may fail, every reply is fresh exactly when that read got through.
      Read as 0, the version names entries older than the increments. */
  lemma FreshExactlyWhenItsReadSucceeds(c: Config, reached: bool)
    requires c.ttl >= 1 && c.versionReadsFail
    ensures (forall steps: seq<Step>, r: nat
               | r < |After(c, steps).readers| && After(c, steps).readers[r].reached == reached ::
               FreshReply(After(c, steps), r))
            <==> reached
  {
    hide After, FreshReply, Reverted;
    if reached {
      forall steps: seq<Step>, r: nat | r < |After(c, steps).readers| && After(c, steps).readers[r].reached == reached
        ensures FreshReply(After(c, steps), r)
      {
        ReachedIsFresh(c, steps, r);
      }
    } else {
      RevertedReply(c);
      assert 1 < |After(c, Reverted(c)).readers|;
    }
  }

  /** So all replies of all runs are fresh exactly when no version read can fail. */
  lemma FreshExactlyWhenVersionsAreRead(c: Config)
    requires c.ttl >= 1
    ensures (forall steps :: Fresh(After(c, steps))) <==> !c.versionReadsFail
  {
    hide After, FreshReply, Reverted;
    if c.versionReadsFail {
      RevertedReply(c);
      assert !Fresh(After(c, Reverted(c)));
    } else {
      forall steps ensures Fresh(After(c, steps)) { RunsAreFresh(c, steps); }
    }
  }
}
