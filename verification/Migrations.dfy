/** Four revisions, walked up and down in any order. */
module Migrations {
  import opened Common
  import opened Schema

  datatype Table = Table(refs: set<TableName>, types: set<TypeName>, added: set<string>)

  datatype Db = Db(extensions: bool, tables: map<TableName, Table>, indexes: map<IndexName, TableName>,
                   types: map<TypeName, set<string>>)

  /** One migration run: it creates each enum type it meets once, whatever else is there. */
  datatype Session = Session(db: Db, created: set<TypeName>)

  const EMPTY := Db(false, map[], map[], map[])

  /** None is a statement the database refuses. */
  function Exec(s: Session, st: Statement): Option<Session> {
    var db := s.db;
    match st
    case CreateExtensions => Some(s.(db := db.(extensions := true)))
    case CreateTable(spec) =>
      if spec.name in db.tables || !(spec.refs <= db.tables.Keys + {spec.name})
         || (exists y | y in spec.types :: if y in s.created then y !in db.types else y in db.types) then None
      else Some(Session(db.(tables := db.tables[spec.name := Table(spec.refs, spec.types, {})],
                            types := db.types + (map y | y in spec.types && y !in s.created :: {})),
                        s.created + spec.types))
    case CreateIndex(i, t) =>
      if i in db.indexes || t !in db.tables then None else Some(s.(db := db.(indexes := db.indexes[i := t])))
    case DropIndex(i) => if i !in db.indexes then None else Some(s.(db := db.(indexes := db.indexes - {i})))
    case DropTable(t) =>
      if t !in db.tables || (exists u | u in db.tables :: u != t && t in db.tables[u].refs) then None
      else Some(s.(db := db.(tables := db.tables - {t},
                             indexes := map i | i in db.indexes && db.indexes[i] != t :: db.indexes[i])))
    case DropType(y) =>
      if y !in db.types || (exists u | u in db.tables :: y in db.tables[u].types) then None
      else Some(s.(db := db.(types := db.types - {y})))
    case AddColumn(t, c) =>
      if t !in db.tables || c in db.tables[t].added then None
      else Some(s.(db := db.(tables := db.tables[t := db.tables[t].(added := db.tables[t].added + {c})])))
    case DropColumn(t, c) =>
      if t !in db.tables || c !in db.tables[t].added then None
      else Some(s.(db := db.(tables := db.tables[t := db.tables[t].(added := db.tables[t].added - {c})])))
    case AddValue(y, v, ifNotExists) =>
      if y !in db.types || (v in db.types[y] && !ifNotExists) then None
      else Some(s.(db := db.(types := db.types[y := db.types[y] + {v}])))
  }

  /** Tables refer to tables there are, columns use types there are, indexes are on tables there are. */
  ghost predicate Intact(db: Db) {
    && (forall t | t in db.tables :: db.tables[t].refs <= db.tables.Keys && db.tables[t].types <= db.types.Keys)
    && (forall i | i in db.indexes :: db.indexes[i] in db.tables)
  }

  /** The database refuses whatever would break that. */
  lemma ExecKeepsIntact(s: Session, st: Statement)
    requires Intact(s.db) && Exec(s, st).Some?
    ensures Intact(Exec(s, st).value.db)
  {
    var db, after := s.db, Exec(s, st).value.db;
    match st
    case CreateTable(spec) =>
      forall y | y in spec.types ensures y in after.types {
      }
    case DropTable(t) =>
      forall u | u in after.tables ensures after.tables[u].refs <= after.tables.Keys {
        assert t !in db.tables[u].refs;
      }
    case DropType(y) =>
      forall u | u in after.tables ensures after.tables[u].types <= after.types.Keys {
        assert y !in db.tables[u].types;
      }
    case _ =>
  }

  /** And whatever was just done, except that extensions and labels may be asked for again. */
  lemma NothingTwice(s: Session, st: Statement)
    requires Exec(s, st).Some? && st != CreateExtensions && !(st.AddValue? && st.ifNotExists)
    ensures Exec(Exec(s, st).value, st).None?
  {
  }

  function Run(s: Session, stmts: seq<Statement>): Option<Session> {
    if stmts == [] then Some(s)
    else
      match Run(s, stmts[..|stmts| - 1])
      case None => None
      case Some(t) => Exec(t, stmts[|stmts| - 1])
  }

  lemma {:induction false} RunConcat(s: Session, a: seq<Statement>, b: seq<Statement>)
    ensures Run(s, a + b) == match Run(s, a) case None => None case Some(t) => Run(t, b)
  {
    hide Exec;
    if b == [] {
      assert a + b == a;
    } else {
      assert (a + b)[..|a + b| - 1] == a + b[..|b| - 1];
      RunConcat(s, a, b[..|b| - 1]);
    }
  }

  lemma RunOne(s: Session, st: Statement)
    ensures Run(s, [st]) == Exec(s, st)
  {
    assert [st][..0] == [];
  }

  // ----- one table, up and down ------------------------------------------------------------

  function CreateIndexes(ix: seq<IndexName>, t: TableName): seq<Statement> {
    if ix == [] then [] else CreateIndexes(ix[..|ix| - 1], t) + [CreateIndex(ix[|ix| - 1], t)]
  }

  function DropIndexes(ix: seq<IndexName>): seq<Statement> {
    seq(|ix|, k requires 0 <= k < |ix| => DropIndex(ix[|ix| - 1 - k]))
  }

  function WithIndexes(m: map<IndexName, TableName>, ix: seq<IndexName>, t: TableName): map<IndexName, TableName> {
    if ix == [] then m else WithIndexes(m, ix[..|ix| - 1], t)[ix[|ix| - 1] := t]
  }

  ghost predicate NewIndexes(m: map<IndexName, TableName>, ix: seq<IndexName>) {
    && (forall k | 0 <= k < |ix| :: ix[k] !in m)
    && (forall k, l | 0 <= k < l < |ix| :: ix[k] != ix[l])
  }

  lemma {:induction false} IndexesCover(m: map<IndexName, TableName>, ix: seq<IndexName>, t: TableName)
    ensures forall i :: i in WithIndexes(m, ix, t) <==> i in m || i in ix
    ensures forall i | i in ix :: WithIndexes(m, ix, t)[i] == t
    ensures forall i | i in m && i !in ix :: WithIndexes(m, ix, t)[i] == m[i]
  {
    if ix != [] {
      IndexesCover(m, ix[..|ix| - 1], t);
      assert ix == ix[..|ix| - 1] + [ix[|ix| - 1]];
    }
  }

  lemma {:induction false} CreatesIndexes(s: Session, ix: seq<IndexName>, t: TableName)
    requires NewIndexes(s.db.indexes, ix) && t in s.db.tables
    ensures Run(s, CreateIndexes(ix, t)) == Some(s.(db := s.db.(indexes := WithIndexes(s.db.indexes, ix, t))))
  {
    hide Run;
    if ix == [] {
      RunNothing(s);
    } else {
      var n := |ix| - 1;
      CreatesIndexes(s, ix[..n], t);
      IndexesCover(s.db.indexes, ix[..n], t);
      RunConcat(s, CreateIndexes(ix[..n], t), [CreateIndex(ix[n], t)]);
      RunOne(s.(db := s.db.(indexes := WithIndexes(s.db.indexes, ix[..n], t))), CreateIndex(ix[n], t));
    }
  }

  lemma DropsOne(s: Session, m: map<IndexName, TableName>, ix: seq<IndexName>, t: TableName)
    requires ix != [] && NewIndexes(m, ix) && s.db.indexes == WithIndexes(m, ix, t)
    ensures Run(s, [DropIndex(ix[|ix| - 1])]) == Some(s.(db := s.db.(indexes := WithIndexes(m, ix[..|ix| - 1], t))))
  {
    hide Run;
    var n := |ix| - 1;
    IndexesCover(m, ix[..n], t);
    RunOne(s, DropIndex(ix[n]));
    assert s.db.indexes - {ix[n]} == WithIndexes(m, ix[..n], t);
  }

  lemma {:induction false} DropsIndexes(s: Session, m: map<IndexName, TableName>, ix: seq<IndexName>, t: TableName)
    requires NewIndexes(m, ix) && s.db.indexes == WithIndexes(m, ix, t)
    ensures Run(s, DropIndexes(ix)) == Some(s.(db := s.db.(indexes := m)))
    decreases |ix|
  {
    hide Run, Exec;
    if ix == [] {
      RunNothing(s);
    } else {
      var n := |ix| - 1;
      DropsOne(s, m, ix, t);
      var next := s.(db := s.db.(indexes := WithIndexes(m, ix[..n], t)));
      assert DropIndexes(ix) == [DropIndex(ix[n])] + DropIndexes(ix[..n]);
      RunConcat(s, [DropIndex(ix[n])], DropIndexes(ix[..n]));
      DropsIndexes(next, m, ix[..n], t);
    }
  }

  lemma RunNothing(s: Session)
    ensures Run(s, []) == Some(s)
  {
  }

  function UpOf(spec: TableSpec): seq<Statement> {
    [CreateTable(spec)] + CreateIndexes(spec.indexes, spec.name)
  }

  function DownOf(spec: TableSpec): seq<Statement> {
    DropIndexes(spec.indexes) + [DropTable(spec.name)]
  }

  // ----- a list of tables --------------------------------------------------------------------

  function Up(specs: seq<TableSpec>): seq<Statement> {
    if specs == [] then [] else Up(specs[..|specs| - 1]) + UpOf(specs[|specs| - 1])
  }

  function Down(specs: seq<TableSpec>): seq<Statement> {
    if specs == [] then [] else DownOf(specs[|specs| - 1]) + Down(specs[..|specs| - 1])
  }

  function Tables(specs: seq<TableSpec>): map<TableName, Table> {
    if specs == [] then map[]
    else
      var last := specs[|specs| - 1];
      Tables(specs[..|specs| - 1])[last.name := Table(last.refs, last.types, {})]
  }

  function Indexes(specs: seq<TableSpec>): map<IndexName, TableName> {
    if specs == [] then map[]
    else WithIndexes(Indexes(specs[..|specs| - 1]), specs[|specs| - 1].indexes, specs[|specs| - 1].name)
  }

  function Types(specs: seq<TableSpec>): set<TypeName> {
    if specs == [] then {} else Types(specs[..|specs| - 1]) + specs[|specs| - 1].types
  }

  /** Each table is new, refers only to itself and earlier ones, and its indexes are its own. */
  ghost predicate WellFormed(specs: seq<TableSpec>) {
    specs != [] ==>
      var front, last := specs[..|specs| - 1], specs[|specs| - 1];
      && WellFormed(front)
      && last.name !in Tables(front)
      && last.refs <= Tables(front).Keys + {last.name}
      && (forall k | 0 <= k < |last.indexes| :: last.indexes[k] == Index(last.name, k))
  }

  function Plain(types: set<TypeName>): map<TypeName, set<string>> {
    map y | y in types :: {}
  }

  /** What is built stands on its own tables, and refers to nothing else. */
  lemma {:induction false} BuiltIsClosed(specs: seq<TableSpec>)
    requires WellFormed(specs)
    ensures forall i | i in Indexes(specs) :: i.on == Indexes(specs)[i] && Indexes(specs)[i] in Tables(specs)
    ensures forall u | u in Tables(specs) ::
            Tables(specs)[u].refs <= Tables(specs).Keys && Tables(specs)[u].types <= Types(specs)
  {
    if specs != [] {
      var front, last := specs[..|specs| - 1], specs[|specs| - 1];
      BuiltIsClosed(front);
      IndexesCover(Indexes(front), last.indexes, last.name);
    }
  }

  lemma IndexesAreNew(front: seq<TableSpec>, spec: TableSpec)
    requires WellFormed(front + [spec])
    ensures WellFormed(front) && NewIndexes(Indexes(front), spec.indexes)
  {
    assert (front + [spec])[..|front|] == front;
    BuiltIsClosed(front);
  }

  lemma CreatesTable(front: seq<TableSpec>, spec: TableSpec)
    requires WellFormed(front + [spec])
    ensures var specs := front + [spec];
            Exec(Session(Db(true, Tables(front), Indexes(front), Plain(Types(front))), Types(front)), CreateTable(spec))
            == Some(Session(Db(true, Tables(specs), Indexes(front), Plain(Types(specs))), Types(specs)))
  {
    hide WithIndexes, Indexes;
    var specs := front + [spec];
    assert specs[..|front|] == front;
    assert Plain(Types(specs)) == Plain(Types(front)) + (map y | y in spec.types && y !in Types(front) :: {});
  }

  lemma UpOfRuns(front: seq<TableSpec>, spec: TableSpec)
    requires WellFormed(front + [spec])
    ensures var specs := front + [spec];
            Run(Session(Db(true, Tables(front), Indexes(front), Plain(Types(front))), Types(front)), UpOf(spec))
            == Some(Session(Db(true, Tables(specs), Indexes(specs), Plain(Types(specs))), Types(specs)))
  {
    hide Run, WithIndexes, CreateIndexes, Exec, Types, Plain;
    var specs := front + [spec];
    assert specs[..|front|] == front;
    IndexesAreNew(front, spec);
    var s := Session(Db(true, Tables(front), Indexes(front), Plain(Types(front))), Types(front));
    var t := Session(Db(true, Tables(specs), Indexes(front), Plain(Types(specs))), Types(specs));
    RunOne(s, CreateTable(spec));
    CreatesTable(front, spec);
    RunConcat(s, [CreateTable(spec)], CreateIndexes(spec.indexes, spec.name));
    CreatesIndexes(t, spec.indexes, spec.name);
  }

  lemma {:induction false} UpRuns(specs: seq<TableSpec>)
    requires WellFormed(specs)
    ensures Run(Session(Db(true, map[], map[], map[]), {}), Up(specs))
            == Some(Session(Db(true, Tables(specs), Indexes(specs), Plain(Types(specs))), Types(specs)))
  {
    hide Run;
    var s := Session(Db(true, map[], map[], map[]), {});
    if specs == [] {
      RunNothing(s);
      assert Plain({}) == map[];
    } else {
      var front, last := specs[..|specs| - 1], specs[|specs| - 1];
      assert front + [last] == specs;
      UpRuns(front);
      UpOfRuns(front, last);
      RunConcat(s, Up(front), UpOf(last));
    }
  }

  lemma DownOfRuns(front: seq<TableSpec>, spec: TableSpec, types: map<TypeName, set<string>>)
    requires WellFormed(front + [spec])
    ensures var specs := front + [spec];
            Run(Session(Db(true, Tables(specs), Indexes(specs), types), {}), DownOf(spec))
            == Some(Session(Db(true, Tables(front), Indexes(front), types), {}))
  {
    hide Run, WithIndexes, DropIndexes;
    var specs := front + [spec];
    assert specs[..|front|] == front;
    IndexesAreNew(front, spec);
    BuiltIsClosed(front);
    var s := Session(Db(true, Tables(specs), Indexes(specs), types), {});
    var t := Session(Db(true, Tables(specs), Indexes(front), types), {});
    DropsIndexes(s, Indexes(front), spec.indexes, spec.name);
    RunConcat(s, DropIndexes(spec.indexes), [DropTable(spec.name)]);
    RunOne(t, DropTable(spec.name));
    assert Tables(specs) - {spec.name} == Tables(front);
    assert (map i | i in Indexes(front) && Indexes(front)[i] != spec.name :: Indexes(front)[i]) == Indexes(front);
  }

  lemma {:induction false} DownRuns(specs: seq<TableSpec>, types: map<TypeName, set<string>>)
    requires WellFormed(specs)
    ensures Run(Session(Db(true, Tables(specs), Indexes(specs), types), {}), Down(specs))
            == Some(Session(Db(true, map[], map[], types), {}))
  {
    hide Run;
    if specs == [] {
      RunNothing(Session(Db(true, map[], map[], types), {}));
    } else {
      var front, last := specs[..|specs| - 1], specs[|specs| - 1];
      assert front + [last] == specs;
      DownOfRuns(front, last, types);
      RunConcat(Session(Db(true, Tables(specs), Indexes(specs), types), {}), DownOf(last), Down(front));
      DownRuns(front, types);
    }
  }

  function DropTypes(types: seq<TypeName>): seq<Statement> {
    if types == [] then [] else DropTypes(types[..|types| - 1]) + [DropType(types[|types| - 1])]
  }

  function Without(types: map<TypeName, set<string>>, order: seq<TypeName>): map<TypeName, set<string>> {
    if order == [] then types else Without(types, order[..|order| - 1]) - {order[|order| - 1]}
  }

  lemma {:induction false} WithoutLeaves(types: map<TypeName, set<string>>, order: seq<TypeName>)
    ensures forall y :: y in Without(types, order) <==> y in types && y !in order
  {
    if order != [] {
      WithoutLeaves(types, order[..|order| - 1]);
      assert order == order[..|order| - 1] + [order[|order| - 1]];
    }
  }

  lemma {:induction false} DropsTypes(types: map<TypeName, set<string>>, order: seq<TypeName>)
    requires forall k | 0 <= k < |order| :: order[k] in types
    requires forall k, l | 0 <= k < l < |order| :: order[k] != order[l]
    ensures Run(Session(Db(true, map[], map[], types), {}), DropTypes(order))
            == Some(Session(Db(true, map[], map[], Without(types, order)), {}))
  {
    hide Run;
    var s := Session(Db(true, map[], map[], types), {});
    if order == [] {
      RunNothing(s);
    } else {
      var n := |order| - 1;
      DropsTypes(types, order[..n]);
      WithoutLeaves(types, order[..n]);
      RunConcat(s, DropTypes(order[..n]), [DropType(order[n])]);
      RunOne(s.(db := s.db.(types := Without(types, order[..n]))), DropType(order[n]));
    }
  }

  // ----- the baseline ------------------------------------------------------------------------

  /** Where a table stands in the baseline, and where an enum type is first met. */
  function Rank(t: TableName): nat {
    match t
    case Organizations => 0
    case Customers => 1
    case SlaPolicies => 2
    case Users => 3
    case AuditLogs => 4
    case KnowledgeDocuments => 5
    case RefreshTokens => 6
    case Tickets => 7
    case AiAnalyses => 8
    case AiUsage => 9
    case KnowledgeChunks => 10
    case Messages => 11
    case Notifications => 12
    case TicketEvents => 13
    case Attachments => 14
  }

  function Home(y: TypeName): nat {
    match y
    case AiOperation => 8
    case AuditAction => 4
    case DocumentSourceType => 5
    case NotificationType => 12
    case OrganizationPlan => 0
    case OrganizationStatus => 0
    case ProcessingStatus => 5
    case SenderType => 11
    case Sentiment => 7
    case TicketEventType => 13
    case TicketPriority => 2
    case TicketStatus => 7
    case UserRole => 3
  }

  ghost predicate Fits(spec: TableSpec, k: nat) {
    && Rank(spec.name) == k
    && (forall r | r in spec.refs :: Rank(r) <= k)
    && (forall i | 0 <= i < |spec.indexes| :: spec.indexes[i] == Index(spec.name, i))
  }

  lemma TablesFit0()
    ensures Fits(ORGANIZATIONS, 0) && Fits(CUSTOMERS, 1) && Fits(SLA_POLICIES, 2)
    ensures Fits(USERS, 3) && Fits(AUDIT_LOGS, 4)
  {
  }

  lemma TablesFit1()
    ensures Fits(KNOWLEDGE_DOCUMENTS, 5) && Fits(REFRESH_TOKENS, 6) && Fits(TICKETS, 7)
    ensures Fits(AI_ANALYSES, 8) && Fits(AI_USAGE, 9)
  {
  }

  lemma TablesFit2()
    ensures Fits(KNOWLEDGE_CHUNKS, 10) && Fits(MESSAGES, 11) && Fits(NOTIFICATIONS, 12)
    ensures Fits(TICKET_EVENTS, 13) && Fits(ATTACHMENTS, 14)
  {
  }

  lemma TablesFit(k: nat)
    requires k < |BASELINE|
    ensures Fits(BASELINE[k], k)
  {
    hide Fits;
    TablesFit0();
    TablesFit1();
    TablesFit2();
  }

  lemma RankIsInjective(a: TableName, b: TableName)
    requires Rank(a) == Rank(b)
    ensures a == b
  {
  }

  lemma {:induction false} StandsUpTo(k: nat)
    requires k <= |BASELINE|
    ensures WellFormed(BASELINE[..k])
    ensures forall t :: t in Tables(BASELINE[..k]) <==> Rank(t) < k
  {
    hide Rank, Fits;
    if k > 0 {
      StandsUpTo(k - 1);
      TablesFit(k - 1);
      StandsNext(BASELINE, k - 1);
    }
  }

  lemma StandsNext(all: seq<TableSpec>, k: nat)
    requires k < |all| && WellFormed(all[..k]) && Fits(all[k], k)
    requires forall t :: t in Tables(all[..k]) <==> Rank(t) < k
    ensures WellFormed(all[..k + 1])
    ensures forall t :: t in Tables(all[..k + 1]) <==> Rank(t) < k + 1
  {
    hide Rank;
    var specs := all[..k + 1];
    assert specs[..|specs| - 1] == all[..k] && specs[|specs| - 1] == all[k];
    forall r | r in all[k].refs ensures r in Tables(all[..k]).Keys + {all[k].name} {
      if Rank(r) == k { RankIsInjective(r, all[k].name); }
    }
    forall t ensures t in Tables(specs) <==> Rank(t) < k + 1 {
      if Rank(t) == k { RankIsInjective(t, all[k].name); }
    }
  }

  lemma {:induction false} TypesCover(specs: seq<TableSpec>, k: nat, y: TypeName)
    requires k < |specs| && y in specs[k].types
    ensures y in Types(specs)
  {
    if k < |specs| - 1 { TypesCover(specs[..|specs| - 1], k, y); }
  }

  lemma BaselineStands()
    ensures WellFormed(BASELINE)
    ensures forall t :: t in Tables(BASELINE)
    ensures forall y: TypeName :: y in Types(BASELINE)
  {
    hide WellFormed, Tables, Types;
    assert BASELINE[..|BASELINE|] == BASELINE;
    StandsUpTo(|BASELINE|);
    forall y: TypeName ensures y in Types(BASELINE) {
      assert y in BASELINE[Home(y)].types;
      TypesCover(BASELINE, Home(y), y);
    }
  }

  /** The downgrade's own statements for the first `k` tables, last table first. */
  function Downgrading(k: nat): seq<Statement>
    requires k <= |DROPS|
  {
    if k == 0 then [] else DROPS[k - 1] + Downgrading(k - 1)
  }

  lemma DropsMirror0()
    ensures DROP_ORGANIZATIONS == DownOf(ORGANIZATIONS) && DROP_CUSTOMERS == DownOf(CUSTOMERS)
            && DROP_SLA_POLICIES == DownOf(SLA_POLICIES)
    ensures DROP_USERS == DownOf(USERS) && DROP_AUDIT_LOGS == DownOf(AUDIT_LOGS)
  {
  }

  lemma DropsMirror1()
    ensures DROP_KNOWLEDGE_DOCUMENTS == DownOf(KNOWLEDGE_DOCUMENTS) && DROP_REFRESH_TOKENS == DownOf(REFRESH_TOKENS)
            && DROP_TICKETS == DownOf(TICKETS)
    ensures DROP_AI_ANALYSES == DownOf(AI_ANALYSES) && DROP_AI_USAGE == DownOf(AI_USAGE)
  {
  }

  lemma DropsMirror2()
    ensures DROP_KNOWLEDGE_CHUNKS == DownOf(KNOWLEDGE_CHUNKS) && DROP_MESSAGES == DownOf(MESSAGES)
            && DROP_NOTIFICATIONS == DownOf(NOTIFICATIONS)
    ensures DROP_TICKET_EVENTS == DownOf(TICKET_EVENTS) && DROP_ATTACHMENTS == DownOf(ATTACHMENTS)
  {
  }

  lemma DropsMirror(k: nat)
    requires k < |BASELINE|
    ensures k < |DROPS| && DROPS[k] == DownOf(BASELINE[k])
  {
    hide DownOf;
    DropsMirror0();
    DropsMirror1();
    DropsMirror2();
  }

  /** The baseline's downgrade undoes its upgrade, statement for statement, from the end. */
  lemma {:induction false} DowngradeMirrors(k: nat)
    requires k <= |BASELINE|
    ensures k <= |DROPS| && Downgrading(k) == Down(BASELINE[..k])
  {
    hide DownOf;
    if k > 0 {
      DowngradeMirrors(k - 1);
      DropsMirror(k - 1);
      DownNext(BASELINE, k - 1);
    }
  }

  lemma DownNext(specs: seq<TableSpec>, k: nat)
    requires k < |specs|
    ensures Down(specs[..k + 1]) == DownOf(specs[k]) + Down(specs[..k])
  {
    assert specs[..k + 1][..k] == specs[..k];
  }

  // ----- the walk ------------------------------------------------------------------------------

  function UpgradeFrom(rev: nat): seq<Statement>
    requires rev < 4
  {
    if rev == 0 then [CreateExtensions] + Up(BASELINE)
    else if rev == 1 then [CreateIndex(IX_MESSAGES_FTS, Messages)]
    else if rev == 2 then [AddColumn(Notifications, "emailed_at")]
    else [AddValue(NotificationType, "sla_breached", true)]
  }

  function DowngradeFrom(rev: nat): seq<Statement>
    requires 1 <= rev <= 4
  {
    if rev == 1 then Downgrading(|DROPS|) + DropTypes(DROP_TYPES)
    else if rev == 2 then [DropIndex(IX_MESSAGES_FTS)]
    else if rev == 3 then [DropColumn(Notifications, "emailed_at")]
    else []
  }

  /** The schema at a revision: always the same, but for a leftover label and, at the base, for
      the extensions, which no downgrade takes away. */
  function At(rev: nat, labelled: bool, extended: bool): Db {
    if rev == 0 then Db(extended, map[], map[], map[])
    else
      var tables := Tables(BASELINE);
      Db(true,
         map t | t in tables ::
             if t == Notifications && rev >= 3 then tables[t].(added := {"emailed_at"}) else tables[t],
         if rev >= 2 then Indexes(BASELINE)[IX_MESSAGES_FTS := Messages] else Indexes(BASELINE),
         map y | y in Types(BASELINE) :: if y == NotificationType && labelled then {"sla_breached"} else {})
  }

  lemma FtsIsNew()
    ensures IX_MESSAGES_FTS !in Indexes(BASELINE)
  {
    hide Indexes, WithIndexes;
    BaselineStands();
    BuiltIsClosed(BASELINE);
    FtsNotListed();
    if IX_MESSAGES_FTS in Indexes(BASELINE) {
      IndexIsListed(BASELINE, IX_MESSAGES_FTS);
      assert false;
    }
  }

  lemma {:induction false} IndexIsListed(specs: seq<TableSpec>, i: IndexName)
    requires i in Indexes(specs)
    ensures exists k | 0 <= k < |specs| :: i in specs[k].indexes
  {
    var n := |specs| - 1;
    IndexesCover(Indexes(specs[..n]), specs[n].indexes, specs[n].name);
    if i !in specs[n].indexes {
      IndexIsListed(specs[..n], i);
      var k: nat :| k < n && i in specs[..n][k].indexes;
      assert i in specs[k].indexes;
    }
  }

  lemma FtsNotListed()
    ensures forall k | 0 <= k < |BASELINE| :: IX_MESSAGES_FTS !in BASELINE[k].indexes
  {
    forall k | 0 <= k < |BASELINE| ensures IX_MESSAGES_FTS !in BASELINE[k].indexes {
      TablesFit(k);
      if k == 11 { assert BASELINE[k] == MESSAGES; }
    }
  }

  lemma Installs(extended: bool)
    ensures var r := Run(Session(At(0, false, extended), {}), UpgradeFrom(0));
            r.Some? && r.value.db == At(1, false, true)
  {
    hide Run, Up, Tables, Indexes, Types, WellFormed;
    var s := Session(At(0, false, extended), {});
    BaselineStands();
    RunConcat(s, [CreateExtensions], Up(BASELINE));
    RunOne(s, CreateExtensions);
    UpRuns(BASELINE);
    var db := Run(s, UpgradeFrom(0)).value.db;
    assert db.tables == At(1, false, true).tables;
    assert db.types == At(1, false, true).types;
  }

  lemma TypesDrop(labelled: bool)
    ensures var types := At(1, labelled, true).types;
            Run(Session(Db(true, map[], map[], types), {}), DropTypes(DROP_TYPES))
            == Some(Session(Db(true, map[], map[], map[]), {}))
  {
    hide Run, Types, Tables, Indexes;
    var types := At(1, labelled, true).types;
    BaselineStands();
    DropTypesAreAll();
    DropsTypes(types, DROP_TYPES);
    WithoutLeaves(types, DROP_TYPES);
    assert Without(types, DROP_TYPES) == map[];
  }

  lemma DropTypesAreAll()
    ensures forall y: TypeName :: y in DROP_TYPES
    ensures forall k, l | 0 <= k < l < |DROP_TYPES| :: DROP_TYPES[k] != DROP_TYPES[l]
  {
    forall y: TypeName ensures y in DROP_TYPES {
      assert DROP_TYPES[Alphabetical(y)] == y;
    }
    forall k, l | 0 <= k < l < |DROP_TYPES| ensures DROP_TYPES[k] != DROP_TYPES[l] {
      TypeAt(k);
      TypeAt(l);
    }
  }

  lemma TypeAt(k: nat)
    requires k < |DROP_TYPES|
    ensures Alphabetical(DROP_TYPES[k]) == k
  {
  }

  function Alphabetical(y: TypeName): nat {
    match y
    case AiOperation => 0
    case AuditAction => 1
    case DocumentSourceType => 2
    case NotificationType => 3
    case OrganizationPlan => 4
    case OrganizationStatus => 5
    case ProcessingStatus => 6
    case SenderType => 7
    case Sentiment => 8
    case TicketEventType => 9
    case TicketPriority => 10
    case TicketStatus => 11
    case UserRole => 12
  }

  lemma TearsDown(labelled: bool)
    ensures var r := Run(Session(At(1, labelled, true), {}), DowngradeFrom(1));
            r.Some? && r.value.db == At(0, false, true)
  {
    hide Run, Tables, Indexes, Types, WellFormed, Down, Downgrading, DropTypes;
    var s := Session(At(1, labelled, true), {});
    BaselineStands();
    DowngradeMirrors(|BASELINE|);
    assert BASELINE[..|BASELINE|] == BASELINE;
    assert s.db.tables == Tables(BASELINE);
    DownRuns(BASELINE, s.db.types);
    RunConcat(s, Downgrading(|DROPS|), DropTypes(DROP_TYPES));
    TypesDrop(labelled);
  }

  lemma {:induction false} AddedNowhere(specs: seq<TableSpec>)
    ensures forall t | t in Tables(specs) :: Tables(specs)[t].added == {}
  {
    if specs != [] { AddedNowhere(specs[..|specs| - 1]); }
  }

  lemma ColumnAdded(labelled: bool)
    ensures var two, three := At(2, labelled, true), At(3, labelled, true);
            && Notifications in two.tables && Notifications in three.tables
            && two.tables[Notifications].added == {} && three.tables[Notifications].added == {"emailed_at"}
            && three == two.(tables := two.tables[Notifications := two.tables[Notifications].(added := {"emailed_at"})])
            && two == three.(tables := three.tables[Notifications := three.tables[Notifications].(added := {})])
  {
    hide Tables, Indexes, Types;
    BaselineStands();
    AddedNowhere(BASELINE);
    var two, three := At(2, labelled, true), At(3, labelled, true);
    assert three.tables == two.tables[Notifications := two.tables[Notifications].(added := {"emailed_at"})];
    assert two.tables == three.tables[Notifications := three.tables[Notifications].(added := {})];
  }

  lemma LabelAdded(labelled: bool)
    ensures var three, four := At(3, labelled, true), At(4, true, true);
            && NotificationType in three.types && four.tables == three.tables
            && four == three.(types := three.types[NotificationType := three.types[NotificationType]
               + {"sla_breached"}])
  {
    hide Tables, Indexes, Types;
    BaselineStands();
    var three, four := At(3, labelled, true), At(4, true, true);
    assert three.types[NotificationType] + {"sla_breached"} == {"sla_breached"};
    assert four.types == three.types[NotificationType := three.types[NotificationType] + {"sla_breached"}];
    assert four.tables == three.tables;
  }

  lemma OneStatementUp(rev: nat, labelled: bool)
    requires 1 <= rev < 4
    ensures var r := Run(Session(At(rev, labelled, true), {}), UpgradeFrom(rev));
            r.Some? && r.value.db == At(rev + 1, labelled || rev == 3, true)
  {
    hide Run, Tables, Indexes, Types;
    RunOne(Session(At(rev, labelled, true), {}), UpgradeFrom(rev)[0]);
    if rev == 1 {
      BaselineStands();
      FtsIsNew();
      assert At(2, labelled, true).tables == At(1, labelled, true).tables;
    } else if rev == 2 {
      ColumnAdded(labelled);
      assert {} + {"emailed_at"} == {"emailed_at"};
    } else {
      LabelAdded(labelled);
    }
  }

  lemma OneStatementDown(rev: nat, labelled: bool)
    requires 2 <= rev <= 4
    ensures var r := Run(Session(At(rev, labelled, true), {}), DowngradeFrom(rev));
            r.Some? && r.value.db == At(rev - 1, labelled, true)
  {
    hide Run, Tables, Indexes, Types;
    var s := Session(At(rev, labelled, true), {});
    if rev == 4 {
      RunNothing(s);
      assert At(4, labelled, true).tables == At(3, labelled, true).tables;
    } else if rev == 3 {
      RunOne(s, DropColumn(Notifications, "emailed_at"));
      ColumnAdded(labelled);
      assert {"emailed_at"} - {"emailed_at"} == {};
    } else {
      RunOne(s, DropIndex(IX_MESSAGES_FTS));
      FtsIsNew();
      assert At(2, labelled, true).tables == At(1, labelled, true).tables;
      assert Indexes(BASELINE)[IX_MESSAGES_FTS := Messages] - {IX_MESSAGES_FTS} == Indexes(BASELINE);
    }
  }

  /** A database and the revision it says it is at. `labelled`: has it been at the last revision
      since it last was at the base? `extended`: has it ever been off the base? */
  datatype World = World(rev: nat, db: Db, labelled: bool, extended: bool)

  const START := World(0, EMPTY, false, false)

  /** One `alembic upgrade +1` or `alembic downgrade -1`; None is a statement that failed. */
  function Walked(w: World, up: bool): Option<World> {
    if up && w.rev < 4 then
      match Run(Session(w.db, {}), UpgradeFrom(w.rev)) {
        case None => None
        case Some(s) => Some(World(w.rev + 1, s.db, w.labelled || w.rev == 3, true))
      }
    else if !up && 1 <= w.rev <= 4 then
      match Run(Session(w.db, {}), DowngradeFrom(w.rev)) {
        case None => None
        case Some(s) => Some(World(w.rev - 1, s.db, w.labelled && w.rev > 1, w.extended))
      }
    else Some(w)
  }

  function Walk(steps: seq<bool>): Option<World> {
    if steps == [] then Some(START)
    else
      match Walk(steps[..|steps| - 1])
      case None => None
      case Some(w) => Walked(w, steps[|steps| - 1])
  }

  /** Where a walk stands: one up or one down at a time, and no further than either end. */
  function Position(steps: seq<bool>): nat {
    if steps == [] then 0
    else
      var before := Position(steps[..|steps| - 1]);
      if steps[|steps| - 1] then (if before < 4 then before + 1 else 4) else (if before > 0 then before - 1 else 0)
  }

  ghost predicate Kept(w: World) {
    && w.rev <= 4 && w.db == At(w.rev, w.labelled, w.extended)
    && (w.rev == 0 ==> !w.labelled) && (w.rev >= 1 ==> w.extended) && (w.rev == 4 ==> w.labelled)
  }

  lemma StepKeeps(w: World, up: bool)
    requires Kept(w)
    ensures Walked(w, up).Some? && Kept(Walked(w, up).value)
    ensures Walked(w, up).value.rev == if up then (if w.rev < 4 then w.rev + 1 else 4)
                                       else if w.rev > 0 then w.rev - 1 else 0
  {
    hide Run, At, UpgradeFrom, DowngradeFrom;
    if up && w.rev == 0 {
      Installs(w.extended);
    } else if up && w.rev < 4 {
      OneStatementUp(w.rev, w.labelled);
    } else if !up && w.rev == 1 {
      TearsDown(w.labelled);
    } else if !up && w.rev > 1 {
      OneStatementDown(w.rev, w.labelled);
    }
  }

  /** From an empty database, every walk along the revisions runs without a failing statement,
      arrives where its steps lead, and at each revision finds the one schema of that revision,
      with the last revision's label
      left over exactly while the base has not been reached again. */
  lemma {:induction false} EveryWalkRuns(steps: seq<bool>)
    ensures Walk(steps).Some? && Kept(Walk(steps).value) && Walk(steps).value.rev == Position(steps)
  {
    hide Walked, Kept;
    if steps == [] {
      StartIsKept();
    } else {
      EveryWalkRuns(steps[..|steps| - 1]);
      StepKeeps(Walk(steps[..|steps| - 1]).value, steps[|steps| - 1]);
    }
  }

  lemma StartIsKept()
    ensures Kept(START)
  {
  }

  /** The upgrade of the last revision fails without IF NOT EXISTS exactly where the label is
      left over. */
  lemma IfNotExistsIsNeeded(labelled: bool)
    ensures Exec(Session(At(3, labelled, true), {}), AddValue(NotificationType, "sla_breached", false)).None?
            <==> labelled
  {
    hide Types, Tables, Indexes;
    BaselineStands();
  }

  /** Were the types not dropped, the next upgrade from the base would fail. */
  lemma DroppingTypesIsNeeded(labelled: bool)
    ensures var left := Db(true, map[], map[], At(1, labelled, true).types);
            Exec(Session(left, {}), CreateTable(ORGANIZATIONS)).None?
  {
    hide Types, Tables, Indexes;
    BaselineStands();
  }
}
