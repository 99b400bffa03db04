/** `_inline` and `_tool_schema`: the JSON Schema rewriter behind every tool call.

    `Inline` follows the code's recursion, one unit of `limit` per stack frame, and returns
    `None` where the code raises: on a name `$defs` does not hold (KeyError) and on a
    stack that runs out (RecursionError). */
module SchemaInliner {
  import opened Common

  datatype Json =
    | Null
    | Bool(b: bool)
    | Num(n: real)
    | Str(s: string)
    | Arr(items: seq<Json>)
    | Obj(fields: map<string, Json>)

  type Defs = map<string, Json>

  // ----- the rewriter ------------------------------------------------------------------

  /** The text after the last '/', the whole text when there is none. */
  function LastSegment(ref: string): string {
    if ref == [] then []
    else if '/' in ref[1..] || ref[0] == '/' then LastSegment(ref[1..])
    else ref
  }

  /** The reference an object makes, if its "$ref" is a string. */
  function RefOf(fields: map<string, Json>): Option<string> {
    if "$ref" in fields && fields["$ref"].Str? then Some(fields["$ref"].s) else None
  }

  function Inline(node: Json, defs: Defs, limit: nat): Option<Json>
    decreases limit
  {
    if limit == 0 then None
    else match node
      case Arr(items) =>
        if forall i | 0 <= i < |items| :: Inline(items[i], defs, limit - 1).Some?
        then Some(Arr(seq(|items|, i requires 0 <= i < |items| => Inline(items[i], defs, limit - 1).value)))
        else None
      case Obj(fields) =>
        (match RefOf(fields)
         case Some(ref) =>
           var name := LastSegment(ref);
           if name in defs then Inline(defs[name], defs, limit - 1) else None
         case None =>
           if forall k | k in fields :: Inline(fields[k], defs, limit - 1).Some?
           then Some(Obj(map k | k in fields :: Inline(fields[k], defs, limit - 1).value))
           else None)
      case _ => Some(node)
  }

  function ToolSchema(document: map<string, Json>, limit: nat): Option<Json>
    requires "$defs" in document ==> document["$defs"].Obj?
  {
    var defs := if "$defs" in document then document["$defs"].fields else map[];
    var schema := Obj(document - {"$defs"});
    if defs == map[] then Some(schema) else Inline(schema, defs, limit)
  }

  // ----- which schemas it finishes on ----------------------------------------------------

  /** Every reference the rewriter follows out of `node` names a key ranked under `bound`. */
  ghost predicate RefsBelow(node: Json, rank: map<string, nat>, bound: nat) {
    match node
    case Arr(items) => forall i | 0 <= i < |items| :: RefsBelow(items[i], rank, bound)
    case Obj(fields) =>
      (match RefOf(fields)
       case Some(ref) => LastSegment(ref) in rank && rank[LastSegment(ref)] < bound
       case None => forall k | k in fields :: RefsBelow(fields[k], rank, bound))
    case _ => true
  }

  /** `rank` orders definitions so that each one only refers to smaller ones: the ranked
      part of `$defs` is closed and acyclic. */
  ghost predicate Ranked(defs: Defs, rank: map<string, nat>) {
    rank.Keys <= defs.Keys && forall k | k in rank :: RefsBelow(defs[k], rank, rank[k])
  }

  ghost predicate RefFree(node: Json) {
    RefsBelow(node, map[], 0)
  }

  ghost predicate Terminates(node: Json, defs: Defs) {
    exists limit :: Inline(node, defs, limit).Some?
  }

  /** What is reachable from `node` is closed and acyclic. */
  ghost predicate Resolvable(node: Json, defs: Defs) {
    exists rank: map<string, nat>, bound: nat :: Ranked(defs, rank) && RefsBelow(node, rank, bound)
  }

  lemma {:induction false} DeeperStackAgrees(node: Json, defs: Defs, limit: nat, deeper: nat)
    requires limit <= deeper
    requires Inline(node, defs, limit).Some?
    ensures Inline(node, defs, deeper) == Inline(node, defs, limit)
    decreases limit
  {
    match node
    case Arr(items) =>
      forall i | 0 <= i < |items|
        ensures Inline(items[i], defs, deeper - 1) == Inline(items[i], defs, limit - 1)
      {
        DeeperStackAgrees(items[i], defs, limit - 1, deeper - 1);
      }
      assert Inline(node, defs, deeper).value.items == Inline(node, defs, limit).value.items;
    case Obj(fields) =>
      if RefOf(fields).Some? {
        DeeperStackAgrees(defs[LastSegment(RefOf(fields).value)], defs, limit - 1, deeper - 1);
      } else {
        forall k | k in fields
          ensures Inline(fields[k], defs, deeper - 1) == Inline(fields[k], defs, limit - 1)
        {
          DeeperStackAgrees(fields[k], defs, limit - 1, deeper - 1);
        }
        assert Inline(node, defs, deeper).value.fields == Inline(node, defs, limit).value.fields;
      }
    case _ =>
  }

  lemma {:induction false} SharedLimit(nodes: set<Json>, defs: Defs) returns (limit: nat)
    requires forall n | n in nodes :: Terminates(n, defs)
    ensures forall n | n in nodes :: Inline(n, defs, limit).Some?
    decreases |nodes|
  {
    if nodes == {} {
      limit := 0;
    } else {
      var n :| n in nodes;
      var own :| Inline(n, defs, own).Some?;
      var rest := SharedLimit(nodes - {n}, defs);
      limit := own + rest;
      forall m | m in nodes
        ensures Inline(m, defs, limit).Some?
      {
        DeeperStackAgrees(m, defs, if m == n then own else rest, limit);
      }
    }
  }

  lemma {:induction false} RankedTerminates(node: Json, defs: Defs, rank: map<string, nat>, bound: nat)
    requires Ranked(defs, rank) && RefsBelow(node, rank, bound)
    ensures Terminates(node, defs)
    decreases bound, node
  {
    match node
    case Arr(items) =>
      forall i | 0 <= i < |items|
        ensures Terminates(items[i], defs)
      {
        RankedTerminates(items[i], defs, rank, bound);
      }
      var limit := SharedLimit(set i | 0 <= i < |items| :: items[i], defs);
      assert Inline(node, defs, limit + 1).Some?;
    case Obj(fields) =>
      if RefOf(fields).Some? {
        var name := LastSegment(RefOf(fields).value);
        RankedTerminates(defs[name], defs, rank, rank[name]);
        var limit: nat :| Inline(defs[name], defs, limit).Some?;
        assert Inline(node, defs, limit + 1).Some?;
      } else {
        forall k | k in fields
          ensures Terminates(fields[k], defs)
        {
          RankedTerminates(fields[k], defs, rank, bound);
        }
        var limit := SharedLimit(set k | k in fields :: fields[k], defs);
        assert Inline(node, defs, limit + 1).Some?;
      }
    case _ =>
      assert Inline(node, defs, 1).Some?;
  }

  /** The smallest stack a definition is inlined within. */
  ghost function LeastLimit(node: Json, defs: Defs, within: nat): (least: nat)
    requires Inline(node, defs, within).Some?
    ensures least <= within && Inline(node, defs, least).Some?
    ensures forall m: nat | m < least :: Inline(node, defs, m).None?
    decreases within
  {
    if m :| 0 <= m < within && Inline(node, defs, m).Some? then LeastLimit(node, defs, m) else within
  }

  ghost function StackRank(defs: Defs): (rank: map<string, nat>) {
    map k | k in defs && Terminates(defs[k], defs) ::
      (var limit :| Inline(defs[k], defs, limit).Some?; LeastLimit(defs[k], defs, limit))
  }

  lemma {:induction false} InlinedIsRanked(node: Json, defs: Defs, limit: nat)
    requires Inline(node, defs, limit).Some?
    ensures RefsBelow(node, StackRank(defs), limit)
    decreases limit
  {
    match node
    case Arr(items) =>
      forall i | 0 <= i < |items|
        ensures RefsBelow(items[i], StackRank(defs), limit)
      {
        InlinedIsRanked(items[i], defs, limit - 1);
        RefsBelowGrows(items[i], StackRank(defs), limit - 1, limit);
      }
    case Obj(fields) =>
      if RefOf(fields).Some? {
        var name := LastSegment(RefOf(fields).value);
        assert Inline(defs[name], defs, limit - 1).Some?;
        assert StackRank(defs)[name] <= limit - 1 by {
          assert Terminates(defs[name], defs);
          StackRankIsLeast(defs, name, limit - 1);
        }
      } else {
        forall k | k in fields
          ensures RefsBelow(fields[k], StackRank(defs), limit)
        {
          InlinedIsRanked(fields[k], defs, limit - 1);
          RefsBelowGrows(fields[k], StackRank(defs), limit - 1, limit);
        }
      }
    case _ =>
  }

  lemma StackRankIsLeast(defs: Defs, name: string, limit: nat)
    requires name in defs && Inline(defs[name], defs, limit).Some?
    ensures name in StackRank(defs) && StackRank(defs)[name] <= limit
  {
    assert Terminates(defs[name], defs);
    assert Inline(defs[name], defs, StackRank(defs)[name]).Some?;
  }

  lemma {:induction false} RefsBelowGrows(node: Json, rank: map<string, nat>, bound: nat, larger: nat)
    requires RefsBelow(node, rank, bound) && bound <= larger
    ensures RefsBelow(node, rank, larger)
  {
    match node
    case Arr(items) =>
      forall i | 0 <= i < |items| ensures RefsBelow(items[i], rank, larger) {
        RefsBelowGrows(items[i], rank, bound, larger);
      }
    case Obj(fields) =>
      if RefOf(fields).None? {
        forall k | k in fields ensures RefsBelow(fields[k], rank, larger) {
          RefsBelowGrows(fields[k], rank, bound, larger);
        }
      }
    case _ =>
  }

  /** The rewriter returns on exactly the schemas whose reachable definitions are closed
      and acyclic; on every other one it raises, whatever stack it is given. */
  lemma TerminatesIffResolvable(node: Json, defs: Defs)
    ensures Terminates(node, defs) <==> Resolvable(node, defs)
  {
    if Terminates(node, defs) {
      var limit: nat :| Inline(node, defs, limit).Some?;
      InlinedIsRanked(node, defs, limit);
      var rank := StackRank(defs);
      forall k | k in rank ensures RefsBelow(defs[k], rank, rank[k]) {
        InlinedIsRanked(defs[k], defs, rank[k]);
      }
      assert Ranked(defs, rank) && RefsBelow(node, rank, limit);
    }
    if Resolvable(node, defs) {
      var rank: map<string, nat>, bound: nat :| Ranked(defs, rank) && RefsBelow(node, rank, bound);
      RankedTerminates(node, defs, rank, bound);
    }
  }

  // ----- what it returns ----------------------------------------------------------------

  /** Definitions are schemas, so none of them is a bare string. */
  ghost predicate NoStringDefinition(defs: Defs) {
    forall k | k in defs :: !defs[k].Str?
  }

  lemma {:induction false} StringsStayStrings(node: Json, defs: Defs, limit: nat)
    requires NoStringDefinition(defs) && Inline(node, defs, limit).Some?
    ensures Inline(node, defs, limit).value.Str? <==> node.Str?
    decreases limit
  {
    if node.Obj? && RefOf(node.fields).Some? {
      StringsStayStrings(defs[LastSegment(RefOf(node.fields).value)], defs, limit - 1);
    }
  }

  /** The result holds no reference at all. */
  lemma {:induction false} ResultIsRefFree(node: Json, defs: Defs, limit: nat)
    requires NoStringDefinition(defs)
    requires Inline(node, defs, limit).Some?
    ensures RefFree(Inline(node, defs, limit).value)
    decreases limit
  {
    match node
    case Arr(items) =>
      forall i | 0 <= i < |items|
        ensures RefFree(Inline(items[i], defs, limit - 1).value)
      {
        ResultIsRefFree(items[i], defs, limit - 1);
      }
    case Obj(fields) =>
      if RefOf(fields).Some? {
        ResultIsRefFree(defs[LastSegment(RefOf(fields).value)], defs, limit - 1);
      } else {
        forall k | k in fields
          ensures RefFree(Inline(fields[k], defs, limit - 1).value)
        {
          ResultIsRefFree(fields[k], defs, limit - 1);
        }
        var result := Inline(node, defs, limit).value.fields;
        if "$ref" in result {
          StringsStayStrings(fields["$ref"], defs, limit - 1);
        }
        assert RefOf(result).None?;
      }
    case _ =>
  }

  /** A reference-free schema is a fixed point, whatever definitions it is read with. */
  lemma {:induction false} RefFreeIsFixed(node: Json, defs: Defs, limit: nat)
    requires RefFree(node) && Inline(node, defs, limit).Some?
    ensures Inline(node, defs, limit).value == node
    decreases limit
  {
    match node
    case Arr(items) =>
      forall i | 0 <= i < |items|
        ensures Inline(items[i], defs, limit - 1).value == items[i]
      {
        RefFreeIsFixed(items[i], defs, limit - 1);
      }
      assert Inline(node, defs, limit).value.items == items;
    case Obj(fields) =>
      forall k | k in fields
        ensures Inline(fields[k], defs, limit - 1).value == fields[k]
      {
        RefFreeIsFixed(fields[k], defs, limit - 1);
      }
      assert Inline(node, defs, limit).value.fields == fields;
    case _ =>
  }

  /** Rewriting twice is rewriting once. */
  lemma InlineIsIdempotent(node: Json, defs: Defs, limit: nat, again: Defs)
    requires NoStringDefinition(defs) && Inline(node, defs, limit).Some?
    ensures Terminates(Inline(node, defs, limit).value, again)
    ensures forall m: nat | Inline(Inline(node, defs, limit).value, again, m).Some? ::
      Inline(Inline(node, defs, limit).value, again, m) == Inline(node, defs, limit)
  {
    var result := Inline(node, defs, limit).value;
    ResultIsRefFree(node, defs, limit);
    RankedTerminates(result, again, map[], 0);
    forall m: nat | Inline(result, again, m).Some?
      ensures Inline(result, again, m) == Inline(node, defs, limit)
    {
      RefFreeIsFixed(result, again, m);
    }
  }

  /** Why definitions have to be schemas: a bare string under a `$ref` key becomes a
      reference the result did not have. */
  lemma StringDefinitionLeavesARef()
    ensures var node := Obj(map["$ref" := Obj(map["$ref" := Str("a")])]);
      Inline(node, map["a" := Str("b")], 3) == Some(Obj(map["$ref" := Str("b")]))
  {
    var defs := map["a" := Str("b")];
    var inner := map["$ref" := Str("a")];
    assert LastSegment("a") == "a";
    assert Inline(defs["a"], defs, 1) == Some(Str("b"));
    assert Inline(Obj(inner), defs, 2) == Some(Str("b"));
    var outer := map["$ref" := Obj(inner)];
    assert Inline(Obj(outer), defs, 3).Some?;
    assert Inline(Obj(outer), defs, 3).value.fields == map["$ref" := Str("b")];
  }

  // ----- what a schema accepts -----------------------------------------------------------

  /** The keywords that assert through a value alone (`type`, `enum`, `maximum`, ...), read
      by an arbitrary interpretation; annotations are the ones it always passes. */
  type Reading = (string, Json, Json) -> bool

  /** The definition a `#/$defs/Name` pointer names. */
  function LocalName(ref: string): Option<string> {
    if |ref| > 8 && ref[..8] == "#/$defs/" && forall c | c in ref[8..] :: c !in "/~%"
    then Some(ref[8..])
    else None
  }

  /** A well-formed schema: sub-schemas where JSON Schema puts them, only `#/$defs/Name`
      references, and no `$ref` object inside the values of the other keywords. */
  ghost predicate Schema(node: Json)
    decreases node, 0
  {
    node.Bool? ||
    (node.Obj? &&
     match RefOf(node.fields)
     case Some(ref) => LocalName(ref).Some?
     case None => forall k | k in node.fields :: KeywordShape(k, node.fields[k]))
  }

  ghost predicate KeywordShape(keyword: string, value: Json)
    decreases value, 1
  {
    match keyword
    case "allOf" => value.Arr? && forall i | 0 <= i < |value.items| :: Schema(value.items[i])
    case "anyOf" => value.Arr? && forall i | 0 <= i < |value.items| :: Schema(value.items[i])
    case "oneOf" => value.Arr? && forall i | 0 <= i < |value.items| :: Schema(value.items[i])
    case "not" => Schema(value)
    case "additionalProperties" => Schema(value)
    case "items" =>
      if value.Arr? then forall i | 0 <= i < |value.items| :: Schema(value.items[i]) else Schema(value)
    case "properties" =>
      value.Obj? && RefOf(value.fields).None? && forall k | k in value.fields :: Schema(value.fields[k])
    case _ => RefFree(value)
  }

  lemma {:induction false} PointerNamesLastSegment(ref: string)
    requires LocalName(ref).Some?
    ensures LastSegment(ref) == LocalName(ref).value
  {
    DropToLastSegment(ref, 8);
    assert ref[7] == '/';
    PlainIsLastSegment(ref[8..]);
  }

  lemma {:induction false} DropToLastSegment(ref: string, at: nat)
    requires 0 < at <= |ref| && ref[at - 1] == '/'
    ensures LastSegment(ref) == LastSegment(ref[at..])
  {
    if at > 1 {
      assert ref[1..][at - 2] == '/';
      DropToLastSegment(ref[1..], at - 1);
      assert ref[1..][at - 1..] == ref[at..];
    }
  }

  lemma {:induction false} PlainIsLastSegment(name: string)
    requires '/' !in name
    ensures LastSegment(name) == name
  {
  }

  /** What a validator reads a schema with: the definitions, an order that shows them
      acyclic, and the meaning of the value-only keywords. */
  datatype Vocabulary = Vocabulary(defs: Defs, rank: map<string, nat>, reading: Reading) {
    ghost predicate Valid() {
      Ranked(defs, rank) && forall k | k in rank :: Schema(defs[k])
    }

    ghost predicate Covers(node: Json, bound: nat) {
      Valid() && Schema(node) && RefsBelow(node, rank, bound)
    }

    /** Does `x` satisfy `node`? Siblings of a `$ref` are ignored (draft-07 core, 8.3). */
    ghost predicate Accepts(node: Json, bound: nat, x: Json)
      requires Covers(node, bound)
      decreases bound, node, 0
    {
      match node
      case Bool(b) => b
      case Obj(fields) =>
        (match RefOf(fields)
         case Some(ref) =>
           PointerNamesLastSegment(ref);
           var name := LocalName(ref).value;
           Accepts(defs[name], rank[name], x)
         case None =>
           forall k | k in fields :: Passes(k, fields[k], bound, PropertyNames(fields), x))
    }

    ghost predicate Passes(keyword: string, value: Json, bound: nat, named: set<string>, x: Json)
      requires Valid() && KeywordShape(keyword, value) && RefsBelow(value, rank, bound)
      decreases bound, value, 1
    {
      match keyword
      case "allOf" => forall i | 0 <= i < |value.items| :: Accepts(value.items[i], bound, x)
      case "anyOf" => exists i | 0 <= i < |value.items| :: Accepts(value.items[i], bound, x)
      case "oneOf" =>
        ExactlyOne(seq(|value.items|, i requires 0 <= i < |value.items| => Accepts(value.items[i], bound, x)))
      case "not" => !Accepts(value, bound, x)
      case "items" =>
        x.Arr? ==>
          if value.Arr?
          then forall i | 0 <= i < |value.items| && i < |x.items| :: Accepts(value.items[i], bound, x.items[i])
          else forall i | 0 <= i < |x.items| :: Accepts(value, bound, x.items[i])
      case "properties" =>
        x.Obj? ==>
          forall k | k in value.fields && k in x.fields :: Accepts(value.fields[k], bound, x.fields[k])
      case "additionalProperties" =>
        x.Obj? ==> forall k | k in x.fields && k !in named :: Accepts(value, bound, x.fields[k])
      case _ => reading(keyword, value, x)
    }
  }

  predicate ExactlyOne(verdicts: seq<bool>) {
    exists i | 0 <= i < |verdicts| :: verdicts[i] && forall j | 0 <= j < |verdicts| && j != i :: !verdicts[j]
  }

  function PropertyNames(fields: map<string, Json>): set<string> {
    if "properties" in fields && fields["properties"].Obj? then fields["properties"].fields.Keys else {}
  }

  /** A vocabulary with no definitions left to look up. */
  function Bare(v: Vocabulary): Vocabulary {
    Vocabulary(map[], map[], v.reading)
  }

  lemma {:induction false} ResultIsSchema(v: Vocabulary, node: Json, bound: nat, limit: nat)
    requires v.Covers(node, bound) && Inline(node, v.defs, limit).Some?
    ensures Schema(Inline(node, v.defs, limit).value)
    ensures RefFree(Inline(node, v.defs, limit).value)
    decreases limit, 1
  {
    var result := Inline(node, v.defs, limit).value;
    if node.Obj? {
      if RefOf(node.fields).Some? {
        var name := LastSegment(RefOf(node.fields).value);
        ResultIsSchema(v, v.defs[name], v.rank[name], limit - 1);
      } else {
        forall k | k in node.fields
          ensures KeywordShape(k, result.fields[k]) && RefFree(result.fields[k])
        {
          ResultKeepsKeyword(v, k, node.fields[k], bound, limit - 1);
        }
        assert RefOf(result.fields).None? by {
          if "$ref" in node.fields {
            assert KeywordShape("$ref", node.fields["$ref"]);
            RefFreeIsFixed(node.fields["$ref"], v.defs, limit - 1);
          }
        }
      }
    }
  }

  lemma {:induction false} ResultKeepsKeyword(v: Vocabulary, keyword: string, value: Json, bound: nat, limit: nat)
    requires v.Valid() && KeywordShape(keyword, value) && RefsBelow(value, v.rank, bound)
    requires Inline(value, v.defs, limit).Some?
    ensures KeywordShape(keyword, Inline(value, v.defs, limit).value)
    ensures RefFree(Inline(value, v.defs, limit).value)
    decreases limit, 2
  {
    var result := Inline(value, v.defs, limit).value;
    if keyword in {"allOf", "anyOf", "oneOf"} || (keyword == "items" && value.Arr?) {
      forall i | 0 <= i < |value.items|
        ensures Schema(result.items[i]) && RefFree(result.items[i])
      {
        ResultIsSchema(v, value.items[i], bound, limit - 1);
      }
    } else if keyword in {"not", "additionalProperties", "items"} {
      ResultIsSchema(v, value, bound, limit);
    } else if keyword == "properties" {
      forall k | k in value.fields
        ensures Schema(result.fields[k]) && RefFree(result.fields[k])
      {
        ResultIsSchema(v, value.fields[k], bound, limit - 1);
      }
    } else {
      RefFreeIsFixed(value, v.defs, limit);
    }
  }

  /** The heart of it: the rewritten schema, read with no definitions, accepts exactly what
      the original accepts read with its definitions. */
  lemma {:induction false} InlinePreservesMeaning(v: Vocabulary, node: Json, bound: nat, limit: nat, x: Json)
    requires v.Covers(node, bound) && Inline(node, v.defs, limit).Some?
    ensures Bare(v).Covers(Inline(node, v.defs, limit).value, 0)
    ensures Bare(v).Accepts(Inline(node, v.defs, limit).value, 0, x) <==> v.Accepts(node, bound, x)
    decreases limit, 1
  {
    ResultIsSchema(v, node, bound, limit);
    if node.Obj? {
      if RefOf(node.fields).Some? {
        var name := LastSegment(RefOf(node.fields).value);
        PointerNamesLastSegment(RefOf(node.fields).value);
        InlinePreservesMeaning(v, v.defs[name], v.rank[name], limit - 1, x);
      } else {
        ObjectPreservesMeaning(v, node, bound, limit, x);
      }
    }
  }

  lemma {:induction false} ObjectPreservesMeaning(v: Vocabulary, node: Json, bound: nat, limit: nat, x: Json)
    requires v.Covers(node, bound) && Inline(node, v.defs, limit).Some?
    requires node.Obj? && RefOf(node.fields).None?
    requires Bare(v).Covers(Inline(node, v.defs, limit).value, 0)
    ensures Bare(v).Accepts(Inline(node, v.defs, limit).value, 0, x) <==> v.Accepts(node, bound, x)
    decreases limit, 0
  {
    var result := Inline(node, v.defs, limit).value;
    var named := PropertyNames(node.fields);
    assert PropertyNames(result.fields) == named by {
      if "properties" in node.fields { assert KeywordShape("properties", node.fields["properties"]); }
    }
    forall k | k in node.fields
      ensures Bare(v).Passes(k, result.fields[k], 0, named, x) <==> v.Passes(k, node.fields[k], bound, named, x)
    {
      KeywordPreservesMeaning(v, k, node.fields[k], bound, limit - 1, named, x);
    }
  }

  lemma {:induction false} ItemsPreserveMeaning(
      v: Vocabulary, value: Json, bound: nat, limit: nat, named: set<string>, x: Json)
    requires v.Valid() && KeywordShape("items", value) && RefsBelow(value, v.rank, bound)
    requires Inline(value, v.defs, limit).Some?
    requires KeywordShape("items", Inline(value, v.defs, limit).value)
    requires RefFree(Inline(value, v.defs, limit).value)
    ensures Bare(v).Passes("items", Inline(value, v.defs, limit).value, 0, named, x)
       <==> v.Passes("items", value, bound, named, x)
    decreases limit, 2
  {
    var result := Inline(value, v.defs, limit).value;
    if x.Arr? && value.Arr? {
      forall i | 0 <= i < |value.items| && i < |x.items|
        ensures Bare(v).Accepts(result.items[i], 0, x.items[i]) <==> v.Accepts(value.items[i], bound, x.items[i])
      {
        InlinePreservesMeaning(v, value.items[i], bound, limit - 1, x.items[i]);
      }
    } else if x.Arr? {
      assert !result.Arr? by { ResultIsSchema(v, value, bound, limit); }
      forall i | 0 <= i < |x.items|
        ensures Bare(v).Accepts(result, 0, x.items[i]) <==> v.Accepts(value, bound, x.items[i])
      {
        InlinePreservesMeaning(v, value, bound, limit, x.items[i]);
      }
    }
  }

  lemma {:induction false} ListPreservesMeaning(
      v: Vocabulary, keyword: string, value: Json, bound: nat, limit: nat, named: set<string>, x: Json)
    requires keyword in {"allOf", "anyOf", "oneOf"}
    requires v.Valid() && KeywordShape(keyword, value) && RefsBelow(value, v.rank, bound)
    requires Inline(value, v.defs, limit).Some?
    requires KeywordShape(keyword, Inline(value, v.defs, limit).value)
    requires RefFree(Inline(value, v.defs, limit).value)
    ensures Bare(v).Passes(keyword, Inline(value, v.defs, limit).value, 0, named, x)
       <==> v.Passes(keyword, value, bound, named, x)
    decreases limit, 2
  {
    var result := Inline(value, v.defs, limit).value;
    forall i | 0 <= i < |value.items|
      ensures Bare(v).Covers(result.items[i], 0)
      ensures Bare(v).Accepts(result.items[i], 0, x) <==> v.Accepts(value.items[i], bound, x)
    {
      InlinePreservesMeaning(v, value.items[i], bound, limit - 1, x);
    }
    if keyword == "oneOf" {
      assert seq(|value.items|, i requires 0 <= i < |value.items| => v.Accepts(value.items[i], bound, x))
          == seq(|value.items|, i requires 0 <= i < |value.items| => Bare(v).Accepts(result.items[i], 0, x));
    }
  }

  lemma {:induction false} PropertiesPreserveMeaning(
      v: Vocabulary, keyword: string, value: Json, bound: nat, limit: nat, named: set<string>, x: Json)
    requires keyword in {"properties", "additionalProperties"}
    requires v.Valid() && KeywordShape(keyword, value) && RefsBelow(value, v.rank, bound)
    requires Inline(value, v.defs, limit).Some?
    requires KeywordShape(keyword, Inline(value, v.defs, limit).value)
    requires RefFree(Inline(value, v.defs, limit).value)
    ensures Bare(v).Passes(keyword, Inline(value, v.defs, limit).value, 0, named, x)
       <==> v.Passes(keyword, value, bound, named, x)
    decreases limit, 2
  {
    var result := Inline(value, v.defs, limit).value;
    if !x.Obj? {
    } else if keyword == "properties" {
      forall k | k in value.fields && k in x.fields
        ensures Bare(v).Accepts(result.fields[k], 0, x.fields[k]) <==> v.Accepts(value.fields[k], bound, x.fields[k])
      {
        InlinePreservesMeaning(v, value.fields[k], bound, limit - 1, x.fields[k]);
      }
    } else {
      forall k | k in x.fields
        ensures Bare(v).Accepts(result, 0, x.fields[k]) <==> v.Accepts(value, bound, x.fields[k])
      {
        InlinePreservesMeaning(v, value, bound, limit, x.fields[k]);
      }
    }
  }

  lemma {:induction false} KeywordPreservesMeaning(
      v: Vocabulary, keyword: string, value: Json, bound: nat, limit: nat, named: set<string>, x: Json)
    requires v.Valid() && KeywordShape(keyword, value) && RefsBelow(value, v.rank, bound)
    requires Inline(value, v.defs, limit).Some?
    ensures KeywordShape(keyword, Inline(value, v.defs, limit).value)
    ensures RefFree(Inline(value, v.defs, limit).value)
    ensures Bare(v).Passes(keyword, Inline(value, v.defs, limit).value, 0, named, x)
       <==> v.Passes(keyword, value, bound, named, x)
    decreases limit, 3
  {
    ResultKeepsKeyword(v, keyword, value, bound, limit);
    if keyword in {"allOf", "anyOf", "oneOf"} {
      ListPreservesMeaning(v, keyword, value, bound, limit, named, x);
    } else if keyword == "not" {
      InlinePreservesMeaning(v, value, bound, limit, x);
    } else if keyword == "items" {
      ItemsPreserveMeaning(v, value, bound, limit, named, x);
    } else if keyword in {"properties", "additionalProperties"} {
      PropertiesPreserveMeaning(v, keyword, value, bound, limit, named, x);
    } else {
      RefFreeIsFixed(value, v.defs, limit);
    }
  }

  /** Does `x` satisfy a whole document? `$defs` is where definitions live and asserts
      nothing itself. */
  ghost predicate DocumentAccepts(v: Vocabulary, document: map<string, Json>, bound: nat, x: Json)
    requires v.Covers(Obj(document - {"$defs"}), bound)
  {
    v.Accepts(Obj(document - {"$defs"}), bound, x)
  }

  /** The definitions a document comes with. Without `$defs`, and with an empty one, there are
      none. */
  ghost predicate Defines(document: map<string, Json>, defs: Defs) {
    if "$defs" in document then document["$defs"] == Obj(defs) else defs == map[]
  }

  lemma {:induction false} NothingToReferTo(node: Json, bound: nat)
    requires RefsBelow(node, map[], bound)
    ensures RefFree(node)
  {
    match node
    case Arr(items) =>
      forall i | 0 <= i < |items| ensures RefsBelow(items[i], map[], 0) { NothingToReferTo(items[i], bound); }
    case Obj(fields) =>
      if RefOf(fields).None? {
        forall k | k in fields ensures RefsBelow(fields[k], map[], 0) { NothingToReferTo(fields[k], bound); }
      }
    case _ =>
  }

  /** Without definitions the rewriter would change nothing, and is not asked. */
  lemma PlainSchemaIsItself(v: Vocabulary, schema: Json, bound: nat)
    requires v.Covers(schema, bound) && v.defs == map[]
    ensures RefFree(schema) && exists enough: nat :: Inline(schema, v.defs, enough) == Some(schema)
  {
    assert v.rank.Keys <= {};
    assert v.rank == map[];
    NothingToReferTo(schema, bound);
    RankedTerminates(schema, v.defs, v.rank, bound);
    var enough: nat :| Inline(schema, v.defs, enough).Some?;
    RefFreeIsFixed(schema, v.defs, enough);
  }

  /** For every document, with definitions, with none or with an empty list of them: the schema a
      provider is sent is built for some stack, holds no reference, and accepts an answer exactly
      when the model's own schema does. */
  lemma ToolSchemaIsEquivalent(v: Vocabulary, document: map<string, Json>, bound: nat, limit: nat, x: Json)
    requires Defines(document, v.defs)
    requires v.Covers(Obj(document - {"$defs"}), bound)
    ensures exists enough: nat :: ToolSchema(document, enough).Some?
    ensures ToolSchema(document, limit).Some? ==>
      var result := ToolSchema(document, limit).value;
      && RefFree(result)
      && Bare(v).Covers(result, 0)
      && (Bare(v).Accepts(result, 0, x) <==> DocumentAccepts(v, document, bound, x))
  {
    hide Inline, RefsBelow, Schema;
    var schema := Obj(document - {"$defs"});
    if v.defs == map[] {
      PlainSchemaIsItself(v, schema, bound);
      var enough: nat :| Inline(schema, v.defs, enough) == Some(schema);
      assert ToolSchema(document, enough).Some?;
      InlinePreservesMeaning(v, schema, bound, enough, x);
    } else {
      RankedTerminates(schema, v.defs, v.rank, bound);
      var enough: nat :| Inline(schema, v.defs, enough).Some?;
      assert ToolSchema(document, enough).Some?;
      if ToolSchema(document, limit).Some? {
        InlinePreservesMeaning(v, schema, bound, limit, x);
      }
    }
  }
}
