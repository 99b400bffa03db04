/** The baseline schema: its fifteen tables in the order they are created, and the drops. */
module Schema {
  datatype TableName =
    | Organizations
    | Customers
    | SlaPolicies
    | Users
    | AuditLogs
    | KnowledgeDocuments
    | RefreshTokens
    | Tickets
    | AiAnalyses
    | AiUsage
    | KnowledgeChunks
    | Messages
    | Notifications
    | TicketEvents
    | Attachments

  datatype TypeName =
    | AiOperation
    | AuditAction
    | DocumentSourceType
    | NotificationType
    | OrganizationPlan
    | OrganizationStatus
    | ProcessingStatus
    | SenderType
    | Sentiment
    | TicketEventType
    | TicketPriority
    | TicketStatus
    | UserRole

  /** An index: the table it is on, and its place among that table's. */
  datatype IndexName = Index(on: TableName, place: nat)

  /** One CREATE TABLE with the CREATE INDEX statements after it: the tables it refers to, and
      the enum types of its columns. */
  datatype TableSpec = TableSpec(name: TableName, refs: set<TableName>, types: set<TypeName>, indexes: seq<IndexName>)

  datatype Statement =
    | CreateExtensions              // IF NOT EXISTS
    | CreateTable(spec: TableSpec)
    | CreateIndex(index: IndexName, on: TableName)
    | DropIndex(index: IndexName)
    | DropTable(table: TableName)
    | DropType(enum: TypeName)
    | AddColumn(table: TableName, column: string)
    | DropColumn(table: TableName, column: string)
    | AddValue(enum: TypeName, value: string, ifNotExists: bool)

  const IX_ORGANIZATIONS_SLUG := Index(Organizations, 0)
  const IX_ORGANIZATIONS_STATUS := Index(Organizations, 1)
  const IX_CUSTOMERS_EMAIL := Index(Customers, 0)
  const IX_CUSTOMERS_EMAIL_TRGM := Index(Customers, 1)
  const IX_CUSTOMERS_EXTERNAL_REFERENCE := Index(Customers, 2)
  const IX_CUSTOMERS_NAME_TRGM := Index(Customers, 3)
  const IX_USERS_CUSTOMER_ID := Index(Users, 0)
  const IX_USERS_EMAIL := Index(Users, 1)
  const IX_USERS_ROLE := Index(Users, 2)
  const IX_AUDIT_LOGS_ORG_ACTION_CREATED := Index(AuditLogs, 0)
  const IX_AUDIT_LOGS_ORG_ACTOR_CREATED := Index(AuditLogs, 1)
  const IX_AUDIT_LOGS_ORG_CREATED := Index(AuditLogs, 2)
  const IX_AUDIT_LOGS_TARGET := Index(AuditLogs, 3)
  const IX_KNOWLEDGE_DOCUMENTS_ORG_PUBLISHED := Index(KnowledgeDocuments, 0)
  const IX_KNOWLEDGE_DOCUMENTS_PENDING := Index(KnowledgeDocuments, 1)
  const IX_KNOWLEDGE_DOCUMENTS_TITLE_TRGM := Index(KnowledgeDocuments, 2)
  const IX_REFRESH_TOKENS_EXPIRES_AT := Index(RefreshTokens, 0)
  const IX_REFRESH_TOKENS_ORGANIZATION_ID := Index(RefreshTokens, 1)
  const IX_REFRESH_TOKENS_TOKEN_HASH := Index(RefreshTokens, 2)
  const IX_REFRESH_TOKENS_USER_ID := Index(RefreshTokens, 3)
  const IX_REFRESH_TOKENS_USER_ID_REVOKED_AT := Index(RefreshTokens, 4)
  const IX_TICKETS_FTS := Index(Tickets, 0)
  const IX_TICKETS_ORG_AGENT_STATUS_CREATED := Index(Tickets, 1)
  const IX_TICKETS_ORG_CATEGORY := Index(Tickets, 2)
  const IX_TICKETS_ORG_CREATED_AT := Index(Tickets, 3)
  const IX_TICKETS_ORG_CUSTOMER_CREATED := Index(Tickets, 4)
  const IX_TICKETS_ORG_STATUS_PRIORITY := Index(Tickets, 5)
  const IX_TICKETS_SLA_PENDING := Index(Tickets, 6)
  const UQ_TICKETS_ORG_NUMBER := Index(Tickets, 7)
  const IX_AI_ANALYSES_PENDING := Index(AiAnalyses, 0)
  const IX_AI_ANALYSES_TICKET_OPERATION_CREATED := Index(AiAnalyses, 1)
  const IX_AI_USAGE_ORG_CREATED := Index(AiUsage, 0)
  const IX_AI_USAGE_ORG_OPERATION_CREATED := Index(AiUsage, 1)
  const IX_AI_USAGE_ORG_USER_CREATED := Index(AiUsage, 2)
  const IX_KNOWLEDGE_CHUNKS_EMBEDDING_HNSW := Index(KnowledgeChunks, 0)
  const IX_KNOWLEDGE_CHUNKS_ORG_DOCUMENT := Index(KnowledgeChunks, 1)
  const IX_MESSAGES_ORGANIZATION_ID := Index(Messages, 0)
  const IX_MESSAGES_TICKET_CREATED := Index(Messages, 1)
  const IX_MESSAGES_TICKET_PUBLIC_CREATED := Index(Messages, 2)
  const IX_NOTIFICATIONS_ORGANIZATION_ID := Index(Notifications, 0)
  const IX_NOTIFICATIONS_TICKET_ID := Index(Notifications, 1)
  const IX_NOTIFICATIONS_USER_CREATED := Index(Notifications, 2)
  const IX_NOTIFICATIONS_USER_UNREAD := Index(Notifications, 3)
  const IX_TICKET_EVENTS_ORGANIZATION_ID := Index(TicketEvents, 0)
  const IX_TICKET_EVENTS_TICKET_CREATED := Index(TicketEvents, 1)
  const IX_ATTACHMENTS_MESSAGE_ID := Index(Attachments, 0)
  const IX_ATTACHMENTS_ORGANIZATION_ID := Index(Attachments, 1)
  const IX_ATTACHMENTS_TICKET_CREATED := Index(Attachments, 2)
  const IX_MESSAGES_FTS := Index(Messages, 3)

  const ORGANIZATIONS := TableSpec(Organizations, {}, {OrganizationPlan, OrganizationStatus},
    [IX_ORGANIZATIONS_SLUG, IX_ORGANIZATIONS_STATUS])

  const CUSTOMERS := TableSpec(Customers, {Organizations}, {},
    [IX_CUSTOMERS_EMAIL, IX_CUSTOMERS_EMAIL_TRGM, IX_CUSTOMERS_EXTERNAL_REFERENCE,
     IX_CUSTOMERS_NAME_TRGM])

  const SLA_POLICIES := TableSpec(SlaPolicies, {Organizations}, {TicketPriority}, [])

  const USERS := TableSpec(Users, {Customers, Organizations}, {UserRole},
    [IX_USERS_CUSTOMER_ID, IX_USERS_EMAIL, IX_USERS_ROLE])

  const AUDIT_LOGS := TableSpec(AuditLogs, {Organizations, Users}, {AuditAction},
    [IX_AUDIT_LOGS_ORG_ACTION_CREATED, IX_AUDIT_LOGS_ORG_ACTOR_CREATED, IX_AUDIT_LOGS_ORG_CREATED,
     IX_AUDIT_LOGS_TARGET])

  const KNOWLEDGE_DOCUMENTS := TableSpec(KnowledgeDocuments, {Organizations, Users}, {DocumentSourceType,
     ProcessingStatus},
    [IX_KNOWLEDGE_DOCUMENTS_ORG_PUBLISHED, IX_KNOWLEDGE_DOCUMENTS_PENDING, IX_KNOWLEDGE_DOCUMENTS_TITLE_TRGM])

  const REFRESH_TOKENS := TableSpec(RefreshTokens, {Organizations, RefreshTokens, Users}, {},
    [IX_REFRESH_TOKENS_EXPIRES_AT, IX_REFRESH_TOKENS_ORGANIZATION_ID, IX_REFRESH_TOKENS_TOKEN_HASH,
     IX_REFRESH_TOKENS_USER_ID, IX_REFRESH_TOKENS_USER_ID_REVOKED_AT])

  const TICKETS := TableSpec(Tickets, {Customers, Organizations, Users}, {Sentiment, TicketPriority, TicketStatus},
    [IX_TICKETS_FTS, IX_TICKETS_ORG_AGENT_STATUS_CREATED, IX_TICKETS_ORG_CATEGORY,
     IX_TICKETS_ORG_CREATED_AT, IX_TICKETS_ORG_CUSTOMER_CREATED, IX_TICKETS_ORG_STATUS_PRIORITY,
     IX_TICKETS_SLA_PENDING, UQ_TICKETS_ORG_NUMBER])

  const AI_ANALYSES := TableSpec(AiAnalyses, {Organizations, Tickets}, {AiOperation, ProcessingStatus},
    [IX_AI_ANALYSES_PENDING, IX_AI_ANALYSES_TICKET_OPERATION_CREATED])

  const AI_USAGE := TableSpec(AiUsage, {Organizations, Tickets, Users}, {AiOperation},
    [IX_AI_USAGE_ORG_CREATED, IX_AI_USAGE_ORG_OPERATION_CREATED, IX_AI_USAGE_ORG_USER_CREATED])

  const KNOWLEDGE_CHUNKS := TableSpec(KnowledgeChunks, {KnowledgeDocuments, Organizations}, {},
    [IX_KNOWLEDGE_CHUNKS_EMBEDDING_HNSW, IX_KNOWLEDGE_CHUNKS_ORG_DOCUMENT])

  const MESSAGES := TableSpec(Messages, {Organizations, Tickets, Users}, {SenderType},
    [IX_MESSAGES_ORGANIZATION_ID, IX_MESSAGES_TICKET_CREATED, IX_MESSAGES_TICKET_PUBLIC_CREATED])

  const NOTIFICATIONS := TableSpec(Notifications, {Organizations, Tickets, Users}, {NotificationType},
    [IX_NOTIFICATIONS_ORGANIZATION_ID, IX_NOTIFICATIONS_TICKET_ID, IX_NOTIFICATIONS_USER_CREATED,
     IX_NOTIFICATIONS_USER_UNREAD])

  const TICKET_EVENTS := TableSpec(TicketEvents, {Organizations, Tickets, Users}, {TicketEventType},
    [IX_TICKET_EVENTS_ORGANIZATION_ID, IX_TICKET_EVENTS_TICKET_CREATED])

  const ATTACHMENTS := TableSpec(Attachments, {Messages, Organizations, Tickets, Users}, {},
    [IX_ATTACHMENTS_MESSAGE_ID, IX_ATTACHMENTS_ORGANIZATION_ID, IX_ATTACHMENTS_TICKET_CREATED])

  const BASELINE: seq<TableSpec> :=
    [ORGANIZATIONS, CUSTOMERS, SLA_POLICIES, USERS, AUDIT_LOGS, KNOWLEDGE_DOCUMENTS,
     REFRESH_TOKENS, TICKETS, AI_ANALYSES, AI_USAGE, KNOWLEDGE_CHUNKS,
     MESSAGES, NOTIFICATIONS, TICKET_EVENTS, ATTACHMENTS]

  // The downgrade, as its own list of statements.
  const DROP_ATTACHMENTS := [
    DropIndex(IX_ATTACHMENTS_TICKET_CREATED), DropIndex(IX_ATTACHMENTS_ORGANIZATION_ID),
    DropIndex(IX_ATTACHMENTS_MESSAGE_ID), DropTable(Attachments)]

  const DROP_TICKET_EVENTS := [
    DropIndex(IX_TICKET_EVENTS_TICKET_CREATED), DropIndex(IX_TICKET_EVENTS_ORGANIZATION_ID),
    DropTable(TicketEvents)]

  const DROP_NOTIFICATIONS := [
    DropIndex(IX_NOTIFICATIONS_USER_UNREAD), DropIndex(IX_NOTIFICATIONS_USER_CREATED),
    DropIndex(IX_NOTIFICATIONS_TICKET_ID), DropIndex(IX_NOTIFICATIONS_ORGANIZATION_ID),
    DropTable(Notifications)]

  const DROP_MESSAGES := [
    DropIndex(IX_MESSAGES_TICKET_PUBLIC_CREATED), DropIndex(IX_MESSAGES_TICKET_CREATED),
    DropIndex(IX_MESSAGES_ORGANIZATION_ID), DropTable(Messages)]

  const DROP_KNOWLEDGE_CHUNKS := [
    DropIndex(IX_KNOWLEDGE_CHUNKS_ORG_DOCUMENT), DropIndex(IX_KNOWLEDGE_CHUNKS_EMBEDDING_HNSW),
    DropTable(KnowledgeChunks)]

  const DROP_AI_USAGE := [
    DropIndex(IX_AI_USAGE_ORG_USER_CREATED), DropIndex(IX_AI_USAGE_ORG_OPERATION_CREATED),
    DropIndex(IX_AI_USAGE_ORG_CREATED), DropTable(AiUsage)]

  const DROP_AI_ANALYSES := [
    DropIndex(IX_AI_ANALYSES_TICKET_OPERATION_CREATED), DropIndex(IX_AI_ANALYSES_PENDING),
    DropTable(AiAnalyses)]

  const DROP_TICKETS := [
    DropIndex(UQ_TICKETS_ORG_NUMBER), DropIndex(IX_TICKETS_SLA_PENDING),
    DropIndex(IX_TICKETS_ORG_STATUS_PRIORITY), DropIndex(IX_TICKETS_ORG_CUSTOMER_CREATED),
    DropIndex(IX_TICKETS_ORG_CREATED_AT), DropIndex(IX_TICKETS_ORG_CATEGORY),
    DropIndex(IX_TICKETS_ORG_AGENT_STATUS_CREATED), DropIndex(IX_TICKETS_FTS),
    DropTable(Tickets)]

  const DROP_REFRESH_TOKENS := [
    DropIndex(IX_REFRESH_TOKENS_USER_ID_REVOKED_AT), DropIndex(IX_REFRESH_TOKENS_USER_ID),
    DropIndex(IX_REFRESH_TOKENS_TOKEN_HASH), DropIndex(IX_REFRESH_TOKENS_ORGANIZATION_ID),
    DropIndex(IX_REFRESH_TOKENS_EXPIRES_AT), DropTable(RefreshTokens)]

  const DROP_KNOWLEDGE_DOCUMENTS := [
    DropIndex(IX_KNOWLEDGE_DOCUMENTS_TITLE_TRGM), DropIndex(IX_KNOWLEDGE_DOCUMENTS_PENDING),
    DropIndex(IX_KNOWLEDGE_DOCUMENTS_ORG_PUBLISHED), DropTable(KnowledgeDocuments)]

  const DROP_AUDIT_LOGS := [
    DropIndex(IX_AUDIT_LOGS_TARGET), DropIndex(IX_AUDIT_LOGS_ORG_CREATED),
    DropIndex(IX_AUDIT_LOGS_ORG_ACTOR_CREATED), DropIndex(IX_AUDIT_LOGS_ORG_ACTION_CREATED),
    DropTable(AuditLogs)]

  const DROP_USERS := [
    DropIndex(IX_USERS_ROLE), DropIndex(IX_USERS_EMAIL),
    DropIndex(IX_USERS_CUSTOMER_ID), DropTable(Users)]

  const DROP_SLA_POLICIES := [
    DropTable(SlaPolicies)]

  const DROP_CUSTOMERS := [
    DropIndex(IX_CUSTOMERS_NAME_TRGM), DropIndex(IX_CUSTOMERS_EXTERNAL_REFERENCE),
    DropIndex(IX_CUSTOMERS_EMAIL_TRGM), DropIndex(IX_CUSTOMERS_EMAIL),
    DropTable(Customers)]

  const DROP_ORGANIZATIONS := [
    DropIndex(IX_ORGANIZATIONS_STATUS), DropIndex(IX_ORGANIZATIONS_SLUG),
    DropTable(Organizations)]

  // In the order the tables were created: the downgrade runs it from the end.
  const DROPS: seq<seq<Statement>> :=
    [DROP_ORGANIZATIONS, DROP_CUSTOMERS, DROP_SLA_POLICIES, DROP_USERS, DROP_AUDIT_LOGS,
     DROP_KNOWLEDGE_DOCUMENTS, DROP_REFRESH_TOKENS, DROP_TICKETS, DROP_AI_ANALYSES, DROP_AI_USAGE,
     DROP_KNOWLEDGE_CHUNKS, DROP_MESSAGES, DROP_NOTIFICATIONS, DROP_TICKET_EVENTS, DROP_ATTACHMENTS]

  const DROP_TYPES: seq<TypeName> :=
    [AiOperation, AuditAction, DocumentSourceType, NotificationType, OrganizationPlan,
     OrganizationStatus, ProcessingStatus, SenderType, Sentiment, TicketEventType,
     TicketPriority, TicketStatus, UserRole]
}
