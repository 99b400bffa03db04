/** Ticket numbers, allocated under a transaction lock. */
module TicketNumbers {
  import opened Common

  type Byte = b: int | 0 <= b < 256

  /** An organization id: sixteen bytes. */
  type Uuid = u: seq<Byte> | |u| == 16 witness seq(16, _ => 0)

  function BigEndian(bytes: seq<Byte>): (n: nat) {
    if bytes == [] then 0 else BigEndian(bytes[..|bytes| - 1]) * 256 + bytes[|bytes| - 1]
  }

  /** `int.from_bytes(id.bytes[:8], "big", signed=True)` */
  function LockKey(organization: Uuid): int {
    var n := BigEndian(organization[..8]);
    if n < 0x8000_0000_0000_0000 then n else n - 0x1_0000_0000_0000_0000
  }

  function Pow256(n: nat): nat {
    if n == 0 then 1 else 256 * Pow256(n - 1)
  }

  lemma {:induction false} BigEndianFits(bytes: seq<Byte>)
    ensures BigEndian(bytes) < Pow256(|bytes|)
  {
    if bytes != [] { BigEndianFits(bytes[..|bytes| - 1]); }
  }

  lemma {:induction false} BigEndianIsInjective(a: seq<Byte>, b: seq<Byte>)
    requires |a| == |b| && BigEndian(a) == BigEndian(b)
    ensures a == b
  {
    if a != [] {
      var n := |a| - 1;
      var x, y := BigEndian(a[..n]), BigEndian(b[..n]);
      assert x * 256 + a[n] == y * 256 + b[n];
      assert x == y && a[n] == b[n];
      BigEndianIsInjective(a[..n], b[..n]);
      assert a == a[..n] + [a[n]] && b == b[..n] + [b[n]];
    }
  }

  lemma EightBytes()
    ensures Pow256(8) == 0x1_0000_0000_0000_0000
  {
    assert Pow256(4) == 0x1_0000_0000;
    assert Pow256(6) == 0x1_0000_0000_0000;
  }

  /** Two organizations share a lock exactly when their ids begin with the same eight bytes. */
  lemma LocksCollide(a: Uuid, b: Uuid)
    ensures LockKey(a) == LockKey(b) <==> a[..8] == b[..8]
  {
    BigEndianFits(a[..8]);
    BigEndianFits(b[..8]);
    EightBytes();
    if LockKey(a) == LockKey(b) { BigEndianIsInjective(a[..8], b[..8]); }
  }

  lemma OneMoreByte(bytes: seq<Byte>, k: nat)
    requires k < |bytes|
    ensures BigEndian(bytes[..k + 1]) == BigEndian(bytes[..k]) * 256 + bytes[k]
  {
    assert bytes[..k + 1][..k] == bytes[..k];
  }

  /** The first byte weighs most. */
  function Unsigned(u: Uuid): int {
    var b: seq<int> := u[..8];
    b[0] * 0x100_0000_0000_0000 + b[1] * 0x1_0000_0000_0000 + b[2] * 0x100_0000_0000 + b[3] * 0x1_0000_0000
    + b[4] * 0x100_0000 + b[5] * 0x1_0000 + b[6] * 0x100 + b[7]
  }

  lemma FirstEight(u: Uuid)
    ensures BigEndian(u[..8]) == Unsigned(u)
  {
    hide BigEndian;
    OneMoreByte(u, 0);
    OneMoreByte(u, 1);
    OneMoreByte(u, 2);
    OneMoreByte(u, 3);
    OneMoreByte(u, 4);
    OneMoreByte(u, 5);
    OneMoreByte(u, 6);
    OneMoreByte(u, 7);
    NoBytes();
    assert u[..0] == [];
  }

  lemma NoBytes()
    ensures BigEndian([]) == 0
  {
  }

  /** The key is one that PostgreSQL's bigint holds: the first eight bytes as a number, less 2^64
      when the first bit is set. */
  lemma KeyIsSigned(organization: Uuid)
    ensures -0x8000_0000_0000_0000 <= LockKey(organization) < 0x8000_0000_0000_0000
    ensures LockKey(organization)
            == Unsigned(organization) - (if organization[0] >= 128 then 0x1_0000_0000_0000_0000 else 0)
  {
    FirstEight(organization);
  }

  // ----- the table ---------------------------------------------------------------------------

  datatype Ticket = Ticket(organization: Uuid, number: nat)

  function CountOf(rows: seq<Ticket>, organization: Uuid): nat {
    if rows == [] then 0
    else CountOf(rows[..|rows| - 1], organization) + (if rows[|rows| - 1].organization == organization then 1 else 0)
  }

  /** COALESCE(MAX(number), 0) */
  function MaxOf(rows: seq<Ticket>, organization: Uuid): nat {
    if rows == [] then 0
    else
      var last, before := rows[|rows| - 1], MaxOf(rows[..|rows| - 1], organization);
      if last.organization == organization && last.number > before then last.number else before
  }

  /** Every ticket's number is its place among the tickets of its organization. */
  ghost predicate Numbered(rows: seq<Ticket>) {
    forall i | 0 <= i < |rows| :: rows[i].number == CountOf(rows[..i], rows[i].organization) + 1
  }

  lemma {:induction false} MaxIsCount(rows: seq<Ticket>, organization: Uuid)
    requires Numbered(rows)
    ensures MaxOf(rows, organization) == CountOf(rows, organization)
  {
    if rows != [] {
      var n := |rows| - 1;
      assert forall i | 0 <= i < n :: rows[..n][..i] == rows[..i];
      MaxIsCount(rows[..n], organization);
    }
  }

  lemma {:induction false} CountGrows(rows: seq<Ticket>, i: nat, organization: Uuid)
    requires i <= |rows|
    ensures CountOf(rows[..i], organization) <= CountOf(rows, organization)
  {
    if i == |rows| {
      assert rows[..i] == rows;
    } else {
      assert rows[..|rows| - 1][..i] == rows[..i];
      CountGrows(rows[..|rows| - 1], i, organization);
    }
  }

  lemma Unsnoc(rows: seq<Ticket>, t: Ticket)
    requires rows != []
    ensures t in rows <==> t in rows[..|rows| - 1] || t == rows[|rows| - 1]
  {
    assert rows == rows[..|rows| - 1] + [rows[|rows| - 1]];
  }

  lemma NumberedPrefix(rows: seq<Ticket>, m: nat)
    requires Numbered(rows) && m < |rows|
    ensures Numbered(rows[..m]) && rows[m].number == CountOf(rows[..m], rows[m].organization) + 1
  {
    hide CountOf;
    assert forall i | 0 <= i < m :: rows[..m][..i] == rows[..i];
  }

  lemma {:induction false} EveryNumberIsTaken(rows: seq<Ticket>, organization: Uuid, n: nat)
    requires Numbered(rows)
    ensures Ticket(organization, n) in rows <==> 1 <= n <= CountOf(rows, organization)
  {
    hide Numbered;
    if rows != [] {
      var m := |rows| - 1;
      NumberedPrefix(rows, m);
      EveryNumberIsTaken(rows[..m], organization, n);
      Unsnoc(rows, Ticket(organization, n));
    }
  }

  /** The unique index: no organization has a number twice. */
  lemma NumbersAreUnique(rows: seq<Ticket>, i: nat, j: nat)
    requires Numbered(rows) && i < j < |rows|
    ensures rows[i] != rows[j]
  {
    if rows[i].organization == rows[j].organization {
      CountGrows(rows[..j], i + 1, rows[i].organization);
      assert rows[..j][..i + 1] == rows[..i + 1];
      assert rows[..i + 1][..i] == rows[..i];
    }
  }

  // ----- one creation at a time ----------------------------------------------------------------

  class Tickets {
    var rows: seq<Ticket>

    constructor ()
      ensures rows == []
    {
      rows := [];
    }

    /** `create_ticket`, with nothing else going on. */
    method Create(organization: Uuid, commits: bool) returns (number: nat)
      requires Numbered(rows)
      modifies this
      ensures number == CountOf(old(rows), organization) + 1
      ensures rows == old(rows) + (if commits then [Ticket(organization, number)] else [])
      ensures Numbered(rows)
    {
      number := MaxOf(rows, organization) + 1;
      MaxIsCount(rows, organization);
      ghost var before := rows;
      if commits { rows := rows + [Ticket(organization, number)]; }
      assert forall i | 0 <= i < |before| :: rows[..i] == before[..i];
      assert rows[..|before|] == before;
    }
  }

  // ----- interleaved transactions ----------------------------------------------------------------

  datatype Phase = Waiting | Holding | Read(number: nat) | Inserted(number: nat)

  datatype Tx = Tx(organization: Uuid, phase: Phase)

  datatype World = World(rows: seq<Ticket>, txs: map<nat, Tx>)

  datatype Step =
    | Begin(tx: nat, organization: Uuid)
    | Lock(tx: nat)
    | ReadMax(tx: nat)
    | Insert(tx: nat)
    | Commit(tx: nat)
    | Rollback(tx: nat)

  const START := World([], map[])

  /** The lock a transaction holds from the moment it gets it to its end. */
  predicate Taken(w: World, key: int) {
    exists k | k in w.txs :: w.txs[k].phase != Waiting && LockKey(w.txs[k].organization) == key
  }

  predicate Enabled(w: World, step: Step) {
    match step
    case Begin(k, _) => k !in w.txs
    case Lock(k) => k in w.txs && w.txs[k].phase == Waiting && !Taken(w, LockKey(w.txs[k].organization))
    case ReadMax(k) => k in w.txs && w.txs[k].phase == Holding
    case Insert(k) => k in w.txs && w.txs[k].phase.Read?
    case Commit(k) => k in w.txs && w.txs[k].phase.Inserted?
    case Rollback(k) => k in w.txs
  }

  function Next(w: World, step: Step): World
    requires Enabled(w, step)
  {
    match step
    case Begin(k, organization) => w.(txs := w.txs[k := Tx(organization, Waiting)])
    case Lock(k) => w.(txs := w.txs[k := w.txs[k].(phase := Holding)])
    case ReadMax(k) => w.(txs := w.txs[k := w.txs[k].(phase := Read(MaxOf(w.rows, w.txs[k].organization) + 1))])
    case Insert(k) => w.(txs := w.txs[k := w.txs[k].(phase := Inserted(w.txs[k].phase.number))])
    case Commit(k) =>
      w.(rows := w.rows + [Ticket(w.txs[k].organization, w.txs[k].phase.number)], txs := w.txs - {k})
    case Rollback(k) => w.(txs := w.txs - {k})
  }

  function After(steps: seq<Step>): World {
    if steps == [] then START
    else
      var before, step := After(steps[..|steps| - 1]), steps[|steps| - 1];
      if Enabled(before, step) then Next(before, step) else before
  }

  /** A lock has one holder, and what its holder has read is still the next number. */
  ghost predicate Sound(w: World) {
    && Numbered(w.rows)
    && (forall k, l | k in w.txs && l in w.txs && k != l && w.txs[k].phase != Waiting && w.txs[l].phase != Waiting ::
          LockKey(w.txs[k].organization) != LockKey(w.txs[l].organization))
    && (forall k | k in w.txs && (w.txs[k].phase.Read? || w.txs[k].phase.Inserted?) ::
          w.txs[k].phase.number == CountOf(w.rows, w.txs[k].organization) + 1)
  }

  lemma CommitKeeps(w: World, k: nat)
    requires Sound(w) && Enabled(w, Commit(k))
    ensures Sound(Next(w, Commit(k)))
  {
    hide LockKey;
    var w' := Next(w, Commit(k));
    var row := Ticket(w.txs[k].organization, w.txs[k].phase.number);
    assert w'.rows[..|w.rows|] == w.rows;
    forall i | 0 <= i < |w'.rows| ensures w'.rows[i].number == CountOf(w'.rows[..i], w'.rows[i].organization) + 1 {
      if i < |w.rows| { assert w'.rows[..i] == w.rows[..i]; }
    }
    forall l | l in w'.txs && (w'.txs[l].phase.Read? || w'.txs[l].phase.Inserted?)
      ensures w'.txs[l].phase.number == CountOf(w'.rows, w'.txs[l].organization) + 1
    {
      assert LockKey(w.txs[l].organization) != LockKey(w.txs[k].organization);
    }
  }

  lemma StepKeeps(w: World, step: Step)
    requires Sound(w) && Enabled(w, step)
    ensures Sound(Next(w, step))
  {
    hide LockKey, CountOf, MaxOf, Numbered;
    match step
    case Commit(k) => CommitKeeps(w, k);
    case ReadMax(k) => MaxIsCount(w.rows, w.txs[k].organization);
    case _ =>
  }

  lemma {:induction false} RunsAreSound(steps: seq<Step>)
    ensures Sound(After(steps))
  {
    hide Sound, Next, Enabled;
    if steps == [] {
      StartIsSound();
    } else {
      var n := |steps| - 1;
      RunsAreSound(steps[..n]);
      if Enabled(After(steps[..n]), steps[n]) { StepKeeps(After(steps[..n]), steps[n]); }
    }
  }

  lemma StartIsSound()
    ensures Sound(START)
  {
  }

  /** A transaction can be rolled back at any point, and then it leaves no trace. */
  lemma RollbackLeavesNothing(w: World, k: nat)
    ensures k in w.txs <==> Enabled(w, Rollback(k))
    ensures k in w.txs ==> Next(w, Rollback(k)) == w.(txs := w.txs - {k})
  {
  }

  /** From any point at which nobody holds its lock, an organization's creation goes through in five
      steps and adds one ticket, with the next number. */
  lemma CreationGoesThrough(w: World, k: nat, organization: Uuid)
    requires Sound(w) && k !in w.txs && !Taken(w, LockKey(organization))
    ensures var n := CountOf(w.rows, organization) + 1;
            var begun := w.(txs := w.txs[k := Tx(organization, Waiting)]);
            var held := w.(txs := w.txs[k := Tx(organization, Holding)]);
            var read := w.(txs := w.txs[k := Tx(organization, Read(n))]);
            var inserted := w.(txs := w.txs[k := Tx(organization, Inserted(n))]);
            && Enabled(w, Begin(k, organization)) && Next(w, Begin(k, organization)) == begun
            && Enabled(begun, Lock(k)) && Next(begun, Lock(k)) == held
            && Enabled(held, ReadMax(k)) && Next(held, ReadMax(k)) == read
            && Enabled(read, Insert(k)) && Next(read, Insert(k)) == inserted
            && Enabled(inserted, Commit(k))
            && Next(inserted, Commit(k)) == w.(rows := w.rows + [Ticket(organization, n)])
  {
    hide LockKey, CountOf, MaxOf;
    MaxIsCount(w.rows, organization);
    var begun := w.(txs := w.txs[k := Tx(organization, Waiting)]);
    forall l | l in begun.txs && begun.txs[l].phase != Waiting
      ensures LockKey(begun.txs[l].organization) != LockKey(organization)
    {
      assert l in w.txs && w.txs[l].phase != Waiting;
    }
    assert w.txs[k := Tx(organization, Inserted(CountOf(w.rows, organization) + 1))] - {k} == w.txs;
  }

  /** However creations interleave, commit or roll back, the numbers an organization's tickets
      carry are exactly 1 to their count, each once, in the order they were committed. */
  lemma NumbersHaveNoGap(steps: seq<Step>, organization: Uuid)
    ensures forall n: nat ::
            Ticket(organization, n) in After(steps).rows <==> 1 <= n <= CountOf(After(steps).rows, organization)
    ensures forall i, j | 0 <= i < j < |After(steps).rows| :: After(steps).rows[i] != After(steps).rows[j]
    ensures Numbered(After(steps).rows)
  {
    RunsAreSound(steps);
    var rows := After(steps).rows;
    forall n: nat ensures Ticket(organization, n) in rows <==> 1 <= n <= CountOf(rows, organization) {
      EveryNumberIsTaken(rows, organization, n);
    }
    forall i, j | 0 <= i < j < |rows| ensures rows[i] != rows[j] {
      NumbersAreUnique(rows, i, j);
    }
  }

  /** The unique index never refuses an insert: the number a transaction is about to write, or has
      written and not committed, is on no ticket of the organization and on no other insert still
      open. */
  lemma InsertsAreNeverRefused(steps: seq<Step>, k: nat)
    requires k in After(steps).txs && (After(steps).txs[k].phase.Read? || After(steps).txs[k].phase.Inserted?)
    ensures var w := After(steps);
            && Ticket(w.txs[k].organization, w.txs[k].phase.number) !in w.rows
            && forall l | l in w.txs && l != k && w.txs[l].phase.Inserted? ::
                 (w.txs[l].organization, w.txs[l].phase.number) != (w.txs[k].organization, w.txs[k].phase.number)
  {
    hide After, LockKey, CountOf, Numbered;
    RunsAreSound(steps);
    var w := After(steps);
    EveryNumberIsTaken(w.rows, w.txs[k].organization, w.txs[k].phase.number);
    forall l | l in w.txs && l != k && w.txs[l].phase.Inserted?
      ensures w.txs[l].organization != w.txs[k].organization
    {
      assert LockKey(w.txs[l].organization) != LockKey(w.txs[k].organization);
    }
  }

  /** A creation waits exactly while a transaction of an organization whose id begins with the
      same eight bytes holds the lock: its own, or one that happens to share them. */
  lemma WaitsOnlyForItsLock(w: World, k: nat)
    requires k in w.txs && w.txs[k].phase == Waiting
    ensures !Enabled(w, Lock(k)) <==>
              exists l | l in w.txs ::
                  w.txs[l].phase != Waiting && w.txs[l].organization[..8] == w.txs[k].organization[..8]
  {
    hide LockKey;
    forall l | l in w.txs
      ensures LockKey(w.txs[l].organization) == LockKey(w.txs[k].organization)
              <==> w.txs[l].organization[..8] == w.txs[k].organization[..8]
    {
      LocksCollide(w.txs[l].organization, w.txs[k].organization);
    }
    if l :| l in w.txs && w.txs[l].phase != Waiting && w.txs[l].organization[..8] == w.txs[k].organization[..8] {
      assert LockKey(w.txs[l].organization) == LockKey(w.txs[k].organization);
    }
  }

  const FIRST: Uuid := seq(16, _ => 0)
  const SECOND: Uuid := seq(16, i => if i == 15 then 1 else 0)

  /** Of two organizations whose ids differ in the last byte only, one waits for the other. */
  lemma StrangersWait()
    ensures var w := After([Begin(0, FIRST), Lock(0), Begin(1, SECOND)]);
            && FIRST != SECOND && w.txs == map[0 := Tx(FIRST, Holding), 1 := Tx(SECOND, Waiting)]
            && !Enabled(w, Lock(1))
  {
    hide After, LockKey;
    var a, b, c := Begin(0, FIRST), Lock(0), Begin(1, SECOND);
    AtStart();
    Snoc([], a);
    assert [] + [a] == [a] && [a] + [b] == [a, b] && [a, b] + [c] == [a, b, c];
    assert After([a]) == World([], map[0 := Tx(FIRST, Waiting)]);
    Snoc([a], b);
    assert After([a, b]) == World([], map[0 := Tx(FIRST, Holding)]);
    Snoc([a, b], c);
    assert After([a, b, c]) == World([], map[0 := Tx(FIRST, Holding), 1 := Tx(SECOND, Waiting)]);
    assert FIRST[15] != SECOND[15] && FIRST[..8] == SECOND[..8];
    var w := After([a, b, c]);
    assert 0 in w.txs && w.txs[0].phase != Waiting && w.txs[0].organization[..8] == w.txs[1].organization[..8];
    WaitsOnlyForItsLock(w, 1);
  }

  lemma AtStart()
    ensures After([]) == START
  {
  }

  lemma Snoc(steps: seq<Step>, step: Step)
    ensures After(steps + [step]) == var w := After(steps); if Enabled(w, step) then Next(w, step) else w
  {
    assert (steps + [step])[..|steps|] == steps;
  }
}
