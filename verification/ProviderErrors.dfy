/** Turning a vendor's exception into one of the three errors the retry loop knows. */
module ProviderErrors {
  import opened AiErrors
  import opened Common

  /** What a status error carries: the code, and the one vendor-specific word beside it. */
  datatype Status = Status(code: int, word: Option<string>)

  predicate Retryable(code: int) {
    code == 408 || code == 409 || code == 429 || code >= 500
  }

  /** claude.py: the `x-should-retry` header outranks the status. */
  function FromClaude(s: Status): Kind {
    if s.word == Some("false") then Permanent
    else if s.word == Some("true") then Transient
    else if Retryable(s.code) then Transient else Permanent
  }

  /** groq.py: `tool_use_failed` is an unusable answer, whatever its status. */
  function FromGroq(s: Status): Kind {
    if s.word == Some("tool_use_failed") then Output
    else if Retryable(s.code) then Transient else Permanent
  }

  /** openai_embedding.py: an exhausted quota is not worth waiting for. */
  function FromOpenAI(s: Status): Kind {
    if s.word == Some("insufficient_quota") then Permanent
    else if Retryable(s.code) then Transient else Permanent
  }

  /** The vendors classify a status alike exactly when its word does not overrule it. */
  lemma VendorsAgree(code: int, header: Option<string>, groq: Option<string>, openai: Option<string>)
    ensures (FromClaude(Status(code, header)) == FromGroq(Status(code, groq)) == FromOpenAI(Status(code, openai)))
            <==> groq != Some("tool_use_failed")
                 && (if code in {408, 409, 429} || code >= 500
                     then header != Some("false") && openai != Some("insufficient_quota")
                     else header != Some("true"))
  {
  }

  /** The three tables, row by row. No status of Claude's or OpenAI's is an unusable answer. */
  lemma TablesAre(code: int, word: Option<string>)
    ensures FromClaude(Status(code, word)) == Transient <==>
              word == Some("true") || (word != Some("false") && (code in {408, 409, 429} || code >= 500))
    ensures FromClaude(Status(code, word)) != Output && FromOpenAI(Status(code, word)) != Output
    ensures FromGroq(Status(code, word)) == Output <==> word == Some("tool_use_failed")
    ensures FromGroq(Status(code, word)) == Transient <==>
              word != Some("tool_use_failed") && (code in {408, 409, 429} || code >= 500)
    ensures FromOpenAI(Status(code, word)) == Transient <==>
              word != Some("insufficient_quota") && (code in {408, 409, 429} || code >= 500)
  {
  }

  // ----- the chain of causes -----------------------------------------------------------------

  /** An exception object: which of the known classes it is an instance of, and its cause. */
  class Link {
    const retryable: bool
    const timeout: bool
    const connection: bool
    const status: Option<Status>
    var cause: Link?

    constructor (retryable: bool, timeout: bool, connection: bool, status: Option<Status>, cause: Link?)
      ensures this.retryable == retryable && this.timeout == timeout && this.connection == connection
      ensures this.status == status && this.cause == cause
    {
      this.retryable, this.timeout, this.connection := retryable, timeout, connection;
      this.status, this.cause := status, cause;
    }

    /** Is it one of the classes the translation knows? */
    predicate Recognised() {
      retryable || timeout || connection || status.Some?
    }

    /** A recognised link that says to try again: by its class, by the header of its status, or, when
        the header says nothing, by the status itself. */
    predicate WorthRetrying() {
      || retryable || timeout || connection
      || (status.Some? && status.value.word == Some("true"))
      || (status.Some? && status.value.word != Some("false")
          && (status.value.code in {408, 409, 429} || status.value.code >= 500))
    }
  }

  /** `heap` holds the chain: every cause of a link in it is in it too. */
  ghost predicate Closed(heap: set<Link>)
    reads heap
  {
    forall x | x in heap && x.cause != null :: x.cause in heap
  }

  /** The `n`th link of the chain, or null past its end. */
  ghost function Nth(heap: set<Link>, exc: Link?, n: nat): (link: Link?)
    requires Closed(heap) && (exc != null ==> exc in heap)
    reads heap
    ensures link != null ==> link in heap
  {
    if exc == null || n == 0 then exc else Nth(heap, exc.cause, n - 1)
  }

  /** Is the `n`th link the first that is recognised? */
  ghost predicate Decides(heap: set<Link>, exc: Link, n: nat)
    requires Closed(heap) && exc in heap
    reads heap
  {
    && Nth(heap, exc, n) != null && Nth(heap, exc, n).Recognised()
    && forall m: nat | m < n :: Nth(heap, exc, m) != null && !Nth(heap, exc, m).Recognised()
  }

  lemma {:induction false} NthStep(heap: set<Link>, exc: Link?, n: nat)
    requires Closed(heap) && (exc != null ==> exc in heap)
    ensures Nth(heap, exc, n + 1) == if Nth(heap, exc, n) == null then null else Nth(heap, exc, n).cause
    decreases n
  {
    if n > 0 && exc != null { NthStep(heap, exc.cause, n - 1); }
  }

  /** A set of silent links that holds every cause of its own holds the whole chain. */
  lemma {:induction false} ChainStaysIn(heap: set<Link>, seen: set<Link>, exc: Link, n: nat)
    requires Closed(heap) && exc in heap && exc in seen
    requires forall x | x in seen :: x in heap && !x.Recognised() && (x.cause == null || x.cause in seen)
    ensures Nth(heap, exc, n) == null || Nth(heap, exc, n) in seen
  {
    if n > 0 {
      ChainStaysIn(heap, seen, exc, n - 1);
      NthStep(heap, exc, n - 1);
    }
  }

  /** `_translate`: it ends on every chain, cyclic ones included, with the verdict of the first
      link that is recognised, and with a permanent error when none ever is. */
  method Translate(exc: Link, ghost heap: set<Link>) returns (kind: Kind)
    requires Closed(heap) && exc in heap
    ensures forall n: nat | Decides(heap, exc, n) ::
              kind == if Nth(heap, exc, n).WorthRetrying() then Transient else Permanent
    ensures (forall n: nat :: Nth(heap, exc, n) == null || !Nth(heap, exc, n).Recognised()) ==> kind == Permanent
    ensures (exists n: nat :: Decides(heap, exc, n))
            || (forall n: nat :: Nth(heap, exc, n) == null || !Nth(heap, exc, n).Recognised())
  {
    var seen: set<Link> := {};
    var current: Link? := exc;
    ghost var at := 0;
    while current != null && current !in seen
      invariant current == Nth(heap, exc, at)
      invariant current != null ==> current in heap
      invariant seen <= heap && (current == exc || exc in seen)
      invariant forall m: nat | m < at :: Nth(heap, exc, m) != null && !Nth(heap, exc, m).Recognised()
      invariant forall x | x in seen :: !x.Recognised() && (x.cause == null || x.cause in seen || x.cause == current)
      decreases heap - seen
    {
      seen := seen + {current};
      if current.retryable || current.timeout || current.connection {
        OneDecides(heap, exc, at);
        return Transient;
      }
      if current.status.Some? {
        OneDecides(heap, exc, at);
        TablesAre(current.status.value.code, current.status.value.word);
        return FromClaude(current.status.value);
      }
      NthStep(heap, exc, at);
      current := current.cause;
      at := at + 1;
    }
    forall n: nat
      ensures Nth(heap, exc, n) == null || !Nth(heap, exc, n).Recognised()
    {
      ChainStaysIn(heap, seen, exc, n);
    }
    kind := Permanent;
  }

  /** At most one link decides. */
  lemma OneDecides(heap: set<Link>, exc: Link, n: nat)
    requires Closed(heap) && exc in heap && Decides(heap, exc, n)
    ensures forall m: nat | Decides(heap, exc, m) :: m == n
  {
  }
}
