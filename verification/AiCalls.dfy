/** One provider reply reduced to an answer or a failure, and the loop that retries and ledgers. */
module AiCalls {
  import opened AiErrors
  import opened Common

  /** What one call to a provider ends in. `Bug` is any other exception. */
  datatype Outcome<V> =
    | Answer(value: V, prompt: nat, completion: nat)
    | Failure(kind: Kind, prompt: nat, completion: nat)
    | Bug

  // ----- validation -----------------------------------------------------------------------------

  /** A payload: already the model, a JSON text, or decoded JSON that is or is not an object. */
  datatype Payload<V> = Instance(value: V) | Text(text: string) | Object(id: nat) | Other

  /** What the parser and the schema say, as far as this layer can see. */
  datatype Judges<!V> = Judges(parse: string -> Option<Payload<V>>, accept: nat -> Option<V>)

  /** `validate_output`; None is the one error every rejection becomes. */
  function Validate<V>(j: Judges<V>, payload: Payload<V>): Option<V> {
    match payload
    case Instance(value) => Some(value)
    case Object(id) => j.accept(id)
    case Other => None
    case Text(text) =>
      match j.parse(text) {
        case Some(Object(id)) => j.accept(id)
        case _ => None
      }
  }

  /** Exactly what is accepted, and as what: the model itself as it is, an object as the schema reads
      it, and a text as the object it parses to. Prose, a text that is not JSON, JSON that is not an
      object, and an object the schema refuses are rejected. */
  lemma ValidatedExactly<V>(j: Judges<V>, payload: Payload<V>, value: V)
    ensures Validate(j, payload) == Some(value) <==>
              || payload == Instance(value)
              || (payload.Object? && j.accept(payload.id) == Some(value))
              || (payload.Text? && exists id: nat ::
                    j.parse(payload.text) == Some(Object(id)) && j.accept(id) == Some(value))
  {
    if payload.Text? && j.parse(payload.text).Some? && j.parse(payload.text).value.Object? {
      assert j.parse(payload.text) == Some(Object(j.parse(payload.text).value.id));
    }
  }

  // ----- one reply ------------------------------------------------------------------------------

  datatype Block<V> = Prose | ToolUse(name: string, input: Payload<V>)

  datatype Stop = EndTurn | MaxTokens | Refusal | ContextExceeded | ContentFilter

  /** A reply both vendors can be read as: how it stopped, what it holds, what it was billed. */
  datatype Reply<V> = Reply(stop: Stop, blocks: seq<Block<V>>, prompt: nat, completion: nat)

  function FirstTool<V>(blocks: seq<Block<V>>): Option<Block<V>> {
    if blocks == [] then None
    else if blocks[0].ToolUse? then Some(blocks[0])
    else FirstTool(blocks[1..])
  }

  function Read<V>(j: Judges<V>, tool: string, r: Reply<V>, call: Option<Block<V>>): Outcome<V> {
    if call.Some? && call.value.ToolUse? && call.value.name == tool && Validate(j, call.value.input).Some?
    then Answer(Validate(j, call.value.input).value, r.prompt, r.completion)
    else Failure(Output, r.prompt, r.completion)
  }

  /** `ClaudeProvider._structured`, from the reply on. */
  function Claude<V>(j: Judges<V>, tool: string, r: Reply<V>): Outcome<V> {
    if r.stop == MaxTokens then Failure(Output, r.prompt, r.completion)
    else if r.stop == Refusal || r.stop == ContextExceeded then Failure(Permanent, 0, 0)
    else Read(j, tool, r, FirstTool(r.blocks))
  }

  /** `GroqProvider._structured`: a body that is not JSON has no counts, and only the first
      tool call is looked at. */
  function Groq<V>(j: Judges<V>, tool: string, body: Option<Reply<V>>): Outcome<V> {
    match body
    case None => Failure(Output, 0, 0)
    case Some(r) =>
      if r.stop == MaxTokens then Failure(Output, r.prompt, r.completion)
      else if r.stop == ContentFilter then Failure(Permanent, 0, 0)
      else Read(j, tool, r, if r.blocks == [] then None else Some(r.blocks[0]))
  }

  function Tokens<V>(o: Outcome<V>): (nat, nat) {
    if o.Bug? then (0, 0) else (o.prompt, o.completion)
  }

  /** An answer is only ever a validated value of the tool the call asked for, and a reply is
      never worth retrying. */
  lemma AnswersAreValidated<V>(j: Judges<V>, tool: string, r: Reply<V>)
    ensures Claude(j, tool, r).Answer? ==>
              exists k | 0 <= k < |r.blocks| :: r.blocks[k].ToolUse? && r.blocks[k].name == tool
                && Validate(j, r.blocks[k].input) == Some(Claude(j, tool, r).value)
    ensures Groq(j, tool, Some(r)).Answer? ==>
              r.blocks != [] && r.blocks[0].ToolUse? && r.blocks[0].name == tool
              && Validate(j, r.blocks[0].input) == Some(Groq(j, tool, Some(r)).value)
    ensures Claude(j, tool, r) != Bug && Claude(j, tool, r) != Failure(Transient, r.prompt, r.completion)
  {
    FirstToolIsThere(r.blocks);
  }

  lemma {:induction false} FirstToolIsThere<V>(blocks: seq<Block<V>>)
    ensures FirstTool(blocks).None? <==> forall k | 0 <= k < |blocks| :: blocks[k].Prose?
    ensures FirstTool(blocks).Some? ==> exists k | 0 <= k < |blocks| ::
              blocks[k] == FirstTool(blocks).value && blocks[k].ToolUse? && forall l | 0 <= l < k :: blocks[l].Prose?
  {
    if blocks != [] && blocks[0].Prose? {
      FirstToolIsThere(blocks[1..]);
      if FirstTool(blocks[1..]).Some? {
        var k: nat :| k < |blocks[1..]| && blocks[1..][k] == FirstTool(blocks[1..]).value && blocks[1..][k].ToolUse?
                      && forall l | 0 <= l < k :: blocks[1..][l].Prose?;
        assert blocks[k + 1] == FirstTool(blocks).value;
        assert forall l | 0 < l < k + 1 :: blocks[l] == blocks[1..][l - 1];
      }
    }
  }

  /** Exactly when a reply is an answer, and which failure it is otherwise: permanent when the
      vendor declined, an unusable output in every other case. */
  lemma OutcomesAreExact<V>(j: Judges<V>, tool: string, r: Reply<V>, k: nat)
    requires k <= |r.blocks| && forall l | 0 <= l < k :: r.blocks[l].Prose?
    requires k < |r.blocks| ==> r.blocks[k].ToolUse?
    ensures Claude(j, tool, r).Answer? <==>
              r.stop !in {MaxTokens, Refusal, ContextExceeded} && k < |r.blocks|
              && r.blocks[k].name == tool && Validate(j, r.blocks[k].input).Some?
    ensures Claude(j, tool, r) == Failure(Permanent, 0, 0) <==> r.stop in {Refusal, ContextExceeded}
    ensures Claude(j, tool, r).Failure? && r.stop !in {Refusal, ContextExceeded} ==>
              Claude(j, tool, r) == Failure(Output, r.prompt, r.completion)
    ensures Groq(j, tool, Some(r)) == Failure(Permanent, 0, 0) <==> r.stop == ContentFilter
    ensures Groq(j, tool, Some(r)).Answer? <==>
              r.stop !in {MaxTokens, ContentFilter} && r.blocks != [] && r.blocks[0].ToolUse?
              && r.blocks[0].name == tool && Validate(j, r.blocks[0].input).Some?
  {
    FirstToolAt(r.blocks, k);
  }

  lemma {:induction false} FirstToolAt<V>(blocks: seq<Block<V>>, k: nat)
    requires k <= |blocks| && forall l | 0 <= l < k :: blocks[l].Prose?
    requires k < |blocks| ==> blocks[k].ToolUse?
    ensures FirstTool(blocks) == if k < |blocks| then Some(blocks[k]) else None
  {
    if k > 0 { FirstToolAt(blocks[1..], k - 1); }
  }

  /** The counts a reply was billed ride on whatever it becomes, exactly unless the vendor
      declined to answer: a refusal, an exceeded context, a filtered answer. */
  lemma CountsRide<V>(j: Judges<V>, tool: string, r: Reply<V>)
    ensures Tokens(Claude(j, tool, r)) == (r.prompt, r.completion)
            <==> !(r.stop in {Refusal, ContextExceeded} && (r.prompt, r.completion) != (0, 0))
    ensures Tokens(Groq(j, tool, Some(r))) == (r.prompt, r.completion)
            <==> !(r.stop == ContentFilter && (r.prompt, r.completion) != (0, 0))
  {
  }

  // ----- the loop ---------------------------------------------------------------------------------

  /** A provider double: the outcomes it will give, one a call. Past the end it raises. */
  class Provider<V(==)> {
    const outcomes: seq<Outcome<V>>
    var calls: nat
    var requests: seq<string>

    constructor (outcomes: seq<Outcome<V>>)
      ensures this.outcomes == outcomes && calls == 0 && requests == []
    {
      this.outcomes, calls, requests := outcomes, 0, [];
    }

    method Call(request: string) returns (o: Outcome<V>)
      modifies this
      ensures calls == old(calls) + 1 && requests == old(requests) + [request]
      ensures o == Scripted(outcomes, old(calls))
    {
      o := if calls < |outcomes| then outcomes[calls] else Bug;
      calls, requests := calls + 1, requests + [request];
    }
  }

  function Scripted<V>(outcomes: seq<Outcome<V>>, i: nat): Outcome<V> {
    if i < |outcomes| then outcomes[i] else Bug
  }

  predicate Retryable<V>(o: Outcome<V>) {
    o.Failure? && o.kind.Transient?
  }

  /** One ledger row: what one call used, and whether it was answered. */
  datatype Row = Row(prompt: nat, completion: nat, successful: bool)

  function RowOf<V>(o: Outcome<V>): Row {
    Row(Tokens(o).0, Tokens(o).1, o.Answer?)
  }

  function Pow2(n: nat): nat {
    if n == 0 then 1 else 2 * Pow2(n - 1)
  }

  /** `_backoff_seconds` after attempt `attempt`, with the random factor it drew. */
  function Backoff(base: real, attempt: nat, factor: real): real
    requires attempt >= 1
  {
    factor * (base * Pow2(attempt - 1) as real)
  }

  function Sum(xs: seq<real>): real {
    if xs == [] then 0.0 else Sum(xs[..|xs| - 1]) + xs[|xs| - 1]
  }

  /** The waits of a run together last between half and all of base * (2^n - 1). */
  ghost predicate Within(base: real, waits: seq<real>) {
    base * (Pow2(|waits|) - 1) as real * 0.5 <= Sum(waits) <= base * (Pow2(|waits|) - 1) as real
  }

  /** Each wait is between half and all of its ceiling, which doubles from wait to wait. */
  ghost predicate EachWithin(base: real, waits: seq<real>) {
    forall k | 0 <= k < |waits| :: base * Pow2(k) as real * 0.5 <= waits[k] <= base * Pow2(k) as real
  }

  /** How many calls a script is asked for: on from every retryable outcome, up to the limit. */
  function Calls<V>(outcomes: seq<Outcome<V>>, from: nat, limit: nat): (n: nat)
    requires limit >= 1
    decreases limit
  {
    if limit > 1 && Retryable(Scripted(outcomes, from)) then 1 + Calls(outcomes, from + 1, limit - 1) else 1
  }

  /** It is the number of leading retryable outcomes and one more, or the limit if that is less. */
  lemma {:induction false} CallsAreTheLeadingFailures<V>(outcomes: seq<Outcome<V>>, from: nat, limit: nat)
    requires limit >= 1
    ensures 1 <= Calls(outcomes, from, limit) <= limit
    ensures forall j: nat | from <= j < from + Calls(outcomes, from, limit) - 1 :: Retryable(Scripted(outcomes, j))
    ensures Calls(outcomes, from, limit) < limit ==>
              !Retryable(Scripted(outcomes, from + Calls(outcomes, from, limit) - 1))
    decreases limit
  {
    if limit > 1 && Retryable(Scripted(outcomes, from)) {
      CallsAreTheLeadingFailures(outcomes, from + 1, limit - 1);
    }
  }

  /** `ai_service._run`. `factors` are the numbers drawn for the waits. */
  method Run<V(==)>(provider: Provider<V>, request: string, limit: nat, base: real, factors: seq<real>)
    returns (result: Option<V>, ledger: seq<Row>, waits: seq<real>)
    requires limit >= 1 && base >= 0.0
    requires |factors| >= limit && forall i | 0 <= i < |factors| :: 0.5 <= factors[i] <= 1.0
    modifies provider
    ensures provider.calls == old(provider.calls) + Calls(provider.outcomes, old(provider.calls), limit)
    ensures |provider.requests| == |old(provider.requests)| + Calls(provider.outcomes, old(provider.calls), limit)
    ensures forall i | |old(provider.requests)| <= i < |provider.requests| :: provider.requests[i] == request
    ensures Faithful(provider.outcomes, old(provider.calls),
                     Calls(provider.outcomes, old(provider.calls), limit), result, ledger)
    ensures |waits| == Calls(provider.outcomes, old(provider.calls), limit) - 1
    ensures Within(base, waits)
    ensures EachWithin(base, waits)
  {
    hide Within, EachWithin, Backoff, Calls;
    result, ledger, waits := None, [], [];
    ghost var from, outcomes := provider.calls, provider.outcomes;
    var attempt := 1;
    NoWait(base);
    while true
      invariant 1 <= attempt <= limit && provider.calls == from + attempt - 1
      invariant |provider.requests| == |old(provider.requests)| + attempt - 1
      invariant forall i | |old(provider.requests)| <= i < |provider.requests| :: provider.requests[i] == request
      invariant Calls(outcomes, from, limit) == attempt - 1 + Calls(outcomes, from + attempt - 1, limit - attempt + 1)
      invariant result.None? && |ledger| == attempt - 1 == |waits|
      invariant forall i | 0 <= i < |ledger| :: ledger[i] == RowOf(Scripted(outcomes, from + i))
      invariant Within(base, waits)
      invariant EachWithin(base, waits)
      decreases limit - attempt
    {
      CallsStep(outcomes, provider.calls, limit - attempt + 1);
      var o := provider.Call(request);
      if o.Bug? { return; }
      assert o == Scripted(outcomes, from + |ledger|);
      ledger := ledger + [RowOf(o)];
      if o.Answer? {
        result := Some(o.value);
        return;
      }
      if o.kind != Transient || attempt == limit { return; }
      WaitBounds(base, waits, factors[attempt - 1]);
      waits := waits + [Backoff(base, attempt, factors[attempt - 1])];
      attempt := attempt + 1;
    }
  }

  lemma CallsStep<V>(outcomes: seq<Outcome<V>>, from: nat, limit: nat)
    requires limit >= 1
    ensures Calls(outcomes, from, limit)
            == if limit > 1 && Retryable(Scripted(outcomes, from)) then 1 + Calls(outcomes, from + 1, limit - 1) else 1
  {
  }

  lemma NoWait(base: real)
    ensures Within(base, []) && EachWithin(base, [])
  {
    assert base * 0.0 == 0.0;
  }

  lemma NonNegative(a: real, b: real)
    requires a >= 0.0 && b >= 0.0
    ensures a * b >= 0.0
  {
  }

  lemma Scale(x: real, factor: real)
    requires x >= 0.0 && 0.5 <= factor <= 1.0
    ensures x * 0.5 <= factor * x <= x
  {
    NonNegative(factor - 0.5, x);
    NonNegative(1.0 - factor, x);
  }

  lemma CeilingGrows(base: real, n: nat)
    requires base >= 0.0
    ensures base * Pow2(n) as real >= 0.0
    ensures base * (Pow2(n + 1) - 1) as real == base * (Pow2(n) - 1) as real + base * Pow2(n) as real
  {
    var p: int := Pow2(n);
    assert (Pow2(n + 1) - 1) as real == (p - 1) as real + p as real;
    assert base * ((p - 1) as real + p as real) == base * (p - 1) as real + base * p as real;
  }

  lemma SumSnoc(xs: seq<real>, x: real)
    ensures Sum(xs + [x]) == Sum(xs) + x
  {
    assert (xs + [x])[..|xs|] == xs;
  }

  lemma BackoffWithin(base: real, n: nat, factor: real)
    requires base >= 0.0 && 0.5 <= factor <= 1.0
    ensures base * Pow2(n) as real * 0.5 <= Backoff(base, n + 1, factor) <= base * Pow2(n) as real
  {
    CeilingGrows(base, n);
    var x := base * Pow2(n) as real;
    Scale(x, factor);
    assert Backoff(base, n + 1, factor) == factor * x;
  }

  lemma WaitBounds(base: real, waits: seq<real>, factor: real)
    requires base >= 0.0 && 0.5 <= factor <= 1.0 && Within(base, waits) && EachWithin(base, waits)
    ensures Within(base, waits + [Backoff(base, |waits| + 1, factor)])
    ensures EachWithin(base, waits + [Backoff(base, |waits| + 1, factor)])
  {
    hide Pow2, Sum, Backoff;
    var n := |waits|;
    var wait := Backoff(base, n + 1, factor);
    SumSnoc(waits, wait);
    CeilingGrows(base, n);
    BackoffWithin(base, n, factor);
    assert |waits + [wait]| == n + 1;
    Halves(base * (Pow2(n) - 1) as real, base * Pow2(n) as real, base * (Pow2(n + 1) - 1) as real, Sum(waits), wait);
  }

  lemma Halves(a: real, b: real, c: real, s: real, t: real)
    requires c == a + b && a * 0.5 <= s <= a && b * 0.5 <= t <= b
    ensures c * 0.5 <= s + t <= c
  {
  }

  /** One row for each call that ended in an answer or a failure of this layer, in order, with
      the counts it carried; the value of the last call, if it was an answer. */
  ghost predicate Faithful<V>(outcomes: seq<Outcome<V>>, from: nat, calls: nat, result: Option<V>, ledger: seq<Row>) {
    && calls >= 1
    && |ledger| == (if Scripted(outcomes, from + calls - 1).Bug? then calls - 1 else calls)
    && (forall i | 0 <= i < |ledger| :: ledger[i] == RowOf(Scripted(outcomes, from + i)))
    && (result.Some? <==> Scripted(outcomes, from + calls - 1).Answer?)
    && (result.Some? ==> result.value == Scripted(outcomes, from + calls - 1).value)
  }

  /** At most one row of a run says it succeeded: the last. */
  lemma OneSuccess<V>(outcomes: seq<Outcome<V>>, from: nat, limit: nat, result: Option<V>, ledger: seq<Row>, i: nat)
    requires limit >= 1 && Faithful(outcomes, from, Calls(outcomes, from, limit), result, ledger)
    requires i < |ledger|
    ensures ledger[i].successful <==> result.Some? && i == |ledger| - 1
  {
    CallsAreTheLeadingFailures(outcomes, from, limit);
    var n := Calls(outcomes, from, limit);
    if i < n - 1 { assert Retryable(Scripted(outcomes, from + i)); }
    assert ledger[i] == RowOf(Scripted(outcomes, from + i));
  }

  datatype Vendor = ClaudeApi | GroqApi

  /** What a call brought back: nothing, or a body; one that is not JSON has no reply in it. */
  datatype Response<V> = Unreached | Body(reply: Option<Reply<V>>)

  /** A reply in which the vendor declined to answer. */
  predicate Declined<V>(vendor: Vendor, a: Response<V>) {
    && a.Body? && a.reply.Some?
    && if vendor.ClaudeApi? then a.reply.value.stop in {Refusal, ContextExceeded}
       else a.reply.value.stop == ContentFilter
  }

  /** What can be read of what a call was billed. */
  function Billed<V>(a: Response<V>): (nat, nat) {
    if a.Body? && a.reply.Some? then (a.reply.value.prompt, a.reply.value.completion) else (0, 0)
  }

  /** What a call became: a transport failure or a bug, which have no counts, or a body, read by
      the vendor's own reader. Claude's client hands over parsed replies only. */
  ghost predicate Became<V>(vendor: Vendor, j: Judges<V>, tool: string, a: Response<V>, o: Outcome<V>) {
    match a
    case Unreached => !o.Answer? && Tokens(o) == (0, 0)
    case Body(reply) =>
      if vendor.GroqApi? then o == Groq(j, tool, reply)
      else reply.Some? && o == Claude(j, tool, reply.value)
  }

  lemma BodyIsFinal<V>(vendor: Vendor, j: Judges<V>, tool: string, a: Response<V>, o: Outcome<V>)
    requires Became(vendor, j, tool, a, o)
    ensures Tokens(o) == if Declined(vendor, a) then (0, 0) else Billed(a)
    ensures a.Body? ==> !Retryable(o)
  {
  }

  /** The ledger of a run is what its replies were billed, row by row, with either vendor; it is
      short of the bill exactly at a reply that was billed although the vendor declined; and only
      the last call of a run can have had a body at all. */
  lemma LedgerIsTheBill<V>(vendor: Vendor, j: Judges<V>, tool: string, bodies: seq<Response<V>>,
                           outcomes: seq<Outcome<V>>, from: nat, limit: nat, result: Option<V>,
                           ledger: seq<Row>, i: nat)
    requires limit >= 1 && Faithful(outcomes, from, Calls(outcomes, from, limit), result, ledger)
    requires |bodies| == |outcomes| && forall k | 0 <= k < |bodies| :: Became(vendor, j, tool, bodies[k], outcomes[k])
    requires i < |ledger| && from + i < |bodies|
    ensures Declined(vendor, bodies[from + i]) ==> (ledger[i].prompt, ledger[i].completion) == (0, 0)
    ensures (ledger[i].prompt, ledger[i].completion) == Billed(bodies[from + i])
            <==> !(Declined(vendor, bodies[from + i]) && Billed(bodies[from + i]) != (0, 0))
    ensures bodies[from + i].Body? ==> i == |ledger| - 1
  {
    hide Became, Calls;
    CallsAreTheLeadingFailures(outcomes, from, limit);
    assert ledger[i] == RowOf(Scripted(outcomes, from + i));
    BodyIsFinal(vendor, j, tool, bodies[from + i], outcomes[from + i]);
    if i < Calls(outcomes, from, limit) - 1 { assert Retryable(Scripted(outcomes, from + i)); }
  }
}
