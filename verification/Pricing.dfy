/** What a call cost. Money is in millionths of a dollar, the scale of the ledger column. */
module Pricing {
  import opened Common

  /** A published price in cents per million tokens, and the vendor that serves the model. */
  datatype Rate = Rate(provider: string, input: nat, output: nat)

  const RATES: map<string, Rate> := map[
    "claude-sonnet-5" := Rate("anthropic", 200, 1000),
    "claude-opus-5" := Rate("anthropic", 500, 2500),
    "claude-haiku-4-5-20251001" := Rate("anthropic", 100, 500),
    "claude-fable-5-1" := Rate("anthropic", 1000, 5000),
    "claude-fable-5" := Rate("anthropic", 1000, 5000),
    "openai/gpt-oss-120b" := Rate("groq", 15, 60),
    "text-embedding-3-small" := Rate("openai", 2, 0)]

  /** `rate_for`: None stands for the permanent error on a model without a price. */
  function RateFor(model: string): (r: Option<Rate>)
    ensures r.Some? <==> model in RATES
  {
    if model in RATES then Some(RATES[model]) else None
  }

  /** `cost_usd`: a model without a price is an error, not a free call. */
  function CostUsd(model: string, prompt: nat, completion: nat): Option<nat> {
    match RateFor(model) case None => None case Some(rate) => Some(Cost(rate, prompt, completion))
  }

  /** The exact price, in hundredths of a millionth of a dollar. */
  function Exact(rate: Rate, prompt: nat, completion: nat): nat {
    prompt * rate.input + completion * rate.output
  }

  /** The exact price, quantized to millionths, ROUND_HALF_UP. */
  function Cost(rate: Rate, prompt: nat, completion: nat): nat {
    (Exact(rate, prompt, completion) + 50) / 100
  }

  /** The nearest number of millionths, and of two equally near the larger. */
  lemma CostIsNearest(rate: Rate, prompt: nat, completion: nat, n: nat)
    ensures n == Cost(rate, prompt, completion)
            <==> -50 < 100 * n - (prompt * rate.input + completion * rate.output) <= 50
  {
  }

  /** What a call is charged, by the model's own published price for each direction; a model that is
      not in the table is charged nothing because the charge is an error. */
  lemma ChargedAtItsRate(model: string, prompt: nat, completion: nat, n: nat)
    ensures CostUsd(model, prompt, completion) == Some(n)
            <==> model in RATES
                 && -50 < 100 * n - (prompt * RATES[model].input + completion * RATES[model].output) <= 50
    ensures CostUsd(model, prompt, completion) == None <==> model !in RATES
  {
    if model in RATES { CostIsNearest(RATES[model], prompt, completion, n); }
  }

  lemma MoreCostsNoLess(rate: Rate, prompt: nat, completion: nat, prompt': nat, completion': nat)
    requires prompt <= prompt' && completion <= completion'
    ensures Cost(rate, prompt, completion) <= Cost(rate, prompt', completion')
  {
    MulMonotone(prompt, prompt', rate.input);
    MulMonotone(completion, completion', rate.output);
  }

  lemma MulMonotone(a: nat, b: nat, k: nat)
    requires a <= b
    ensures a * k <= b * k
  {
  }

  // ----- splitting a call ---------------------------------------------------------------------

  ghost predicate Additive(rate: Rate) {
    forall p: nat, c: nat, p': nat, c': nat ::
      Cost(rate, p + p', c + c') == Cost(rate, p, c) + Cost(rate, p', c')
  }

  predicate WholeDollars(rate: Rate) {
    rate.input % 100 == 0 && rate.output % 100 == 0
  }

  lemma WholeDollarCost(rate: Rate, p: nat, c: nat)
    requires WholeDollars(rate)
    ensures Cost(rate, p, c) == p * (rate.input / 100) + c * (rate.output / 100)
  {
    var a, b := rate.input / 100, rate.output / 100;
    assert rate.input == 100 * a && rate.output == 100 * b;
    assert Exact(rate, p, c) == 100 * (p * a + c * b) by {
      assert p * (100 * a) == 100 * (p * a);
      assert c * (100 * b) == 100 * (c * b);
    }
  }

  lemma NothingCostsNothing(rate: Rate)
    ensures Cost(rate, 0, 0) == 0
  {
  }

  lemma OneMore(n: nat, k: nat)
    requires n > 0
    ensures n * k == (n - 1) * k + k
  {
  }

  lemma {:induction false} AdditiveIsLinear(rate: Rate, n: nat)
    requires Additive(rate)
    ensures Cost(rate, n, 0) == n * Cost(rate, 1, 0) && Cost(rate, 0, n) == n * Cost(rate, 0, 1)
  {
    hide Cost;
    if n == 0 {
      NothingCostsNothing(rate);
    } else {
      AdditiveIsLinear(rate, n - 1);
      assert Cost(rate, (n - 1) + 1, 0 + 0) == Cost(rate, n - 1, 0) + Cost(rate, 1, 0);
      assert Cost(rate, 0 + 0, (n - 1) + 1) == Cost(rate, 0, n - 1) + Cost(rate, 0, 1);
      OneMore(n, Cost(rate, 1, 0));
      OneMore(n, Cost(rate, 0, 1));
    }
  }

  lemma DollarsAdd(rate: Rate, p: nat, c: nat, p': nat, c': nat)
    requires WholeDollars(rate)
    ensures Cost(rate, p + p', c + c') == Cost(rate, p, c) + Cost(rate, p', c')
  {
    hide Cost;
    var a, b := rate.input / 100, rate.output / 100;
    WholeDollarCost(rate, p, c);
    WholeDollarCost(rate, p', c');
    WholeDollarCost(rate, p + p', c + c');
    Spread(p, p', a);
    Spread(c, c', b);
  }

  lemma Spread(m: nat, n: nat, k: nat)
    ensures (m + n) * k == m * k + n * k
  {
  }

  lemma HundredCosts(rate: Rate)
    ensures Cost(rate, 100, 0) == rate.input && Cost(rate, 0, 100) == rate.output
  {
  }

  /** Splitting a call never changes its price exactly when the rates are whole dollars. */
  lemma AdditiveExactlyInDollars(rate: Rate)
    ensures Additive(rate) <==> WholeDollars(rate)
  {
    hide Cost;
    if WholeDollars(rate) {
      forall p: nat, c: nat, p': nat, c': nat
        ensures Cost(rate, p + p', c + c') == Cost(rate, p, c) + Cost(rate, p', c')
      {
        DollarsAdd(rate, p, c, p', c');
      }
    }
    if Additive(rate) {
      AdditiveIsLinear(rate, 100);
      HundredCosts(rate);
    }
  }

  // ----- the ledger -----------------------------------------------------------------------------

  datatype Usage = Usage(rate: Rate, prompt: nat, completion: nat)

  function Total(rows: seq<Usage>): nat {
    if rows == [] then 0 else Total(rows[1..]) + Cost(rows[0].rate, rows[0].prompt, rows[0].completion)
  }

  function ExactTotal(rows: seq<Usage>): nat {
    if rows == [] then 0 else ExactTotal(rows[1..]) + Exact(rows[0].rate, rows[0].prompt, rows[0].completion)
  }

  /** A ledger's sum is off by half a millionth of a dollar for each row, at most. */
  lemma {:induction false} TotalIsClose(rows: seq<Usage>)
    ensures -50 * |rows| <= 100 * Total(rows) - ExactTotal(rows) <= 50 * |rows|
  {
    if rows != [] {
      TotalIsClose(rows[1..]);
      CostIsNearest(rows[0].rate, rows[0].prompt, rows[0].completion,
          Cost(rows[0].rate, rows[0].prompt, rows[0].completion));
    }
  }

  /** The bound is reached: rows that each sit on the half are all rounded up. */
  lemma {:induction false} TotalCanBeThatFar(n: nat)
    ensures var rows := seq(n, (i: nat) => Usage(Rate("x", 1, 0), 50, 0));
            100 * Total(rows) - ExactTotal(rows) == 50 * n
  {
    var rows := seq(n, (i: nat) => Usage(Rate("x", 1, 0), 50, 0));
    if n > 0 {
      TotalCanBeThatFar(n - 1);
      assert rows[1..] == seq(n - 1, (i: nat) => Usage(Rate("x", 1, 0), 50, 0));
    }
  }

  const COLUMN := 1_000_000_000_000   // Numeric(12, 6) holds less than a million dollars
  const DIGITS := 10_000_000_000_000_000_000_000_000_000   // 28 significant digits

  /** The column holds the price exactly when the exact price is under a million dollars less
      half a millionth, and then no intermediate result is rounded to 28 digits. */
  lemma ColumnHolds(rate: Rate, prompt: nat, completion: nat)
    ensures Cost(rate, prompt, completion) < COLUMN <==> Exact(rate, prompt, completion) < 100 * COLUMN - 50
    ensures Cost(rate, prompt, completion) < COLUMN ==>
              prompt * rate.input < DIGITS && completion * rate.output < DIGITS
                  && Exact(rate, prompt, completion) < DIGITS
  {
  }

  /** Ten billion tokens each way fit the column, whatever model is asked for. */
  lemma PublishedRatesFit(model: string, prompt: nat, completion: nat)
    requires prompt <= 10_000_000_000 && completion <= 10_000_000_000
    ensures CostUsd(model, prompt, completion).Some? ==> CostUsd(model, prompt, completion).value < COLUMN
  {
    if model !in RATES { return; }
    var rate := RATES[model];
    assert rate.input <= 1000 && rate.output <= 5000;
    MulMonotone(prompt, 10_000_000_000, rate.input);
    MulMonotone(completion, 10_000_000_000, rate.output);
    MulMonotone(rate.input, 1000, 10_000_000_000);
    MulMonotone(rate.output, 5000, 10_000_000_000);
    ColumnHolds(rate, prompt, completion);
  }
}
