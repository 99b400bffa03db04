/** The keys of the analytics cache, and why no two questions share one. */
module CacheKeys {
  import opened Decimal

  /** Identifiers and namespaces as they are written into a key: no colon in them. */
  type Segment = s: string | ':' !in s witness ""

  /** How much of the organization a caller may see (`TICKET_SCOPE_BY_ROLE`). */
  datatype Scope = Organization | Assigned(user: Segment) | Own(customer: Segment)

  datatype Key = Key(namespace: Segment, organization: Segment, scope: Scope, version: nat, digest: string)

  const PREFIX := "analytics"

  function ScopeToken(scope: Scope): string {
    match scope
    case Organization => "org"
    case Assigned(user) => "user" + ":" + user
    case Own(customer) => "customer" + ":" + customer
  }

  /** `cache_key`. */
  function KeyText(key: Key): string {
    PREFIX + ":" + key.namespace + ":" + key.organization + ":" + ScopeToken(key.scope) + ":"
    + Print(key.version) + ":" + key.digest
  }

  /** `_version_key`. */
  function VersionKey(organization: Segment): string {
    PREFIX + ":" + "version" + ":" + organization
  }

  // ----- reading a key from the left -------------------------------------------------------

  lemma FirstColon(a: Segment, x: string)
    ensures (a + ":" + x)[|a|] == ':' && forall i | 0 <= i < |a| :: (a + ":" + x)[i] != ':'
    ensures (a + ":" + x)[..|a|] == a && (a + ":" + x)[|a| + 1..] == x
  {
  }

  lemma FirstSegment(a: Segment, x: string, b: Segment, y: string)
    requires a + ":" + x == b + ":" + y
    ensures a == b && x == y
  {
    FirstColon(a, x);
    FirstColon(b, y);
    assert |a| == |b|;
  }

  lemma Nested(a: string, b: string, c: string, d: string, e: string, f: string)
    ensures a + ":" + b + ":" + c + ":" + d + ":" + e + ":" + f
            == a + ":" + (b + ":" + (c + ":" + (d + ":" + (e + ":" + f))))
  {
  }

  lemma VersionHasNoColon(n: nat)
    ensures ':' !in Print(n)
  {
    ParsePrint(n);
    forall i | 0 <= i < |Print(n)| ensures Print(n)[i] != ':' {
      assert IsDigit(Print(n)[i]);
    }
  }

  lemma ScopeThenRest(scope: Scope, rest: string)
    ensures ScopeToken(scope) + ":" + rest ==
            match scope
            case Organization => "org" + ":" + rest
            case Assigned(user) => "user" + ":" + (user + ":" + rest)
            case Own(customer) => "customer" + ":" + (customer + ":" + rest)
  {
  }

  lemma ScopeIsReadBack(s: Scope, x: string, t: Scope, y: string)
    requires ScopeToken(s) + ":" + x == ScopeToken(t) + ":" + y
    ensures s == t && x == y
  {
    hide ScopeToken;
    ScopeThenRest(s, x);
    ScopeThenRest(t, y);
    var (a, u) := match s
      case Organization => ("org", x)
      case Assigned(user) => ("user", user + ":" + x)
      case Own(customer) => ("customer", customer + ":" + x);
    var (b, v) := match t
      case Organization => ("org", y)
      case Assigned(user) => ("user", user + ":" + y)
      case Own(customer) => ("customer", customer + ":" + y);
    FirstSegment(a, u, b, v);
    match (s, t) {
      case (Assigned(i), Assigned(j)) => FirstSegment(i, x, j, y);
      case (Own(i), Own(j)) => FirstSegment(i, x, j, y);
      case _ =>
    }
  }

  /** Two questions with one key are the same tenant, row scope, namespace and version, and
      their parameters have one digest. */
  lemma KeysAreDistinct(k: Key, l: Key)
    requires KeyText(k) == KeyText(l)
    ensures k == l
  {
    hide ScopeToken, Print;
    Nested(PREFIX, k.namespace, k.organization, ScopeToken(k.scope), Print(k.version), k.digest);
    Nested(PREFIX, l.namespace, l.organization, ScopeToken(l.scope), Print(l.version), l.digest);
    var k4, l4 := Print(k.version) + ":" + k.digest, Print(l.version) + ":" + l.digest;
    var k3, l3 := ScopeToken(k.scope) + ":" + k4, ScopeToken(l.scope) + ":" + l4;
    var k2, l2 := k.organization + ":" + k3, l.organization + ":" + l3;
    FirstSegment(PREFIX, k.namespace + ":" + k2, PREFIX, l.namespace + ":" + l2);
    FirstSegment(k.namespace, k2, l.namespace, l2);
    FirstSegment(k.organization, k3, l.organization, l3);
    ScopeIsReadBack(k.scope, k4, l.scope, l4);
    VersionHasNoColon(k.version);
    VersionHasNoColon(l.version);
    FirstSegment(Print(k.version), k.digest, Print(l.version), l.digest);
    ParsePrint(k.version);
    ParsePrint(l.version);
  }

  /** No entry is ever written where a tenant's counter is kept. */
  lemma EntriesAreNotCounters(k: Key, organization: Segment)
    ensures KeyText(k) != VersionKey(organization)
  {
    hide ScopeToken, Print;
    Nested(PREFIX, k.namespace, k.organization, ScopeToken(k.scope), Print(k.version), k.digest);
    var k3 := ScopeToken(k.scope) + ":" + (Print(k.version) + ":" + k.digest);
    var rest := k.organization + ":" + k3;
    assert rest[|k.organization|] == ':';
    assert rest != organization;
    assert VersionKey(organization) == PREFIX + ":" + ("version" + ":" + organization);
    if KeyText(k) == VersionKey(organization) {
      FirstSegment(PREFIX, k.namespace + ":" + rest, PREFIX, "version" + ":" + organization);
      FirstSegment(k.namespace, rest, "version", organization);
      assert false;
    }
  }

  lemma CountersAreDistinct(a: Segment, b: Segment)
    requires VersionKey(a) == VersionKey(b)
    ensures a == b
  {
    assert VersionKey(a)[|VersionKey(a)| - |a|..] == a;
    assert VersionKey(b)[|VersionKey(b)| - |b|..] == b;
  }
}
