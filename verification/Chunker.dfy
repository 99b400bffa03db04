/** Assembling segments into overlapping passages. */
module Chunker {
  import opened Common
  import opened Segments

  const TARGET := 800
  const OVERLAP := 100
  const MAX_CHUNKS := 500

  datatype TextChunk = TextChunk(index: nat, content: string, tokens: nat)

  /** `_joined_tokens` */
  function Size(parts: seq<string>): nat {
    Tokens(|Joined(parts)|)
  }

  function AsChunk(index: nat, parts: seq<string>): TextChunk {
    TextChunk(index, Joined(parts), Size(parts))
  }

  /** The longest end of `parts` whose estimates sum to no more than `budget`. */
  function Tail(parts: seq<string>, budget: nat): seq<string> {
    if parts == [] then []
    else
      var last := parts[|parts| - 1];
      if Tokens(|last|) > budget then [] else Tail(parts[..|parts| - 1], budget - Tokens(|last|)) + [last]
  }

  function Sum(parts: seq<string>): nat {
    if parts == [] then 0 else Sum(parts[..|parts| - 1]) + Tokens(|parts[|parts| - 1]|)
  }

  /** `_overlap_tail` */
  method OverlapTail(parts: seq<string>) returns (tail: seq<string>)
    ensures tail == Tail(parts, OVERLAP)
  {
    tail := [];
    var total := 0;
    var i := |parts|;
    assert parts[..i] == parts;
    while i > 0
      invariant 0 <= i <= |parts| && total <= OVERLAP
      invariant Tail(parts, OVERLAP) == Tail(parts[..i], OVERLAP - total) + tail
    {
      var segment := parts[i - 1];
      var size := Tokens(|segment|);
      assert parts[..i][..i - 1] == parts[..i - 1];
      if total + size > OVERLAP { break; }
      tail := [segment] + tail;
      total := total + size;
      i := i - 1;
    }
  }

  lemma SumOfMore(parts: seq<string>, part: string)
    ensures Sum(parts + [part]) == Sum(parts) + Tokens(|part|)
  {
    assert (parts + [part])[..|parts|] == parts;
  }

  lemma {:induction false} TailIsAnEnd(parts: seq<string>, budget: nat)
    ensures |Tail(parts, budget)| <= |parts| && Tail(parts, budget) == parts[|parts| - |Tail(parts, budget)|..]
  {
    if parts != [] && Tokens(|parts[|parts| - 1]|) <= budget {
      TailIsAnEnd(parts[..|parts| - 1], budget - Tokens(|parts[|parts| - 1]|));
    }
  }

  lemma {:induction false} TailFits(parts: seq<string>, budget: nat)
    ensures Sum(Tail(parts, budget)) <= budget
  {
    if parts != [] && Tokens(|parts[|parts| - 1]|) <= budget {
      var last := parts[|parts| - 1];
      TailFits(parts[..|parts| - 1], budget - Tokens(|last|));
      SumOfMore(Tail(parts[..|parts| - 1], budget - Tokens(|last|)), last);
    }
  }

  /** It is an end of the passage, within its budget, and no longer end is. */
  lemma {:induction false} TailIsLongest(parts: seq<string>, budget: nat, k: nat)
    requires k < |parts| - |Tail(parts, budget)|
    ensures Sum(parts[k..]) > budget
  {
    hide Sum;
    var n := |parts| - 1;
    var last := parts[n];
    SumOfMore(parts[k..n], last);
    assert parts[k..] == parts[k..n] + [last];
    if Tokens(|last|) <= budget {
      assert parts[..n][k..] == parts[k..n];
      TailIsLongest(parts[..n], budget - Tokens(|last|), k);
    }
  }

  // ----- the assembly --------------------------------------------------------------------------

  /** A passage: what it repeats of the one before, and the segments that are new in it. */
  datatype Passage = Passage(overlap: seq<string>, own: seq<string>)

  function Parts(p: Passage): seq<string> {
    p.overlap + p.own
  }

  function Owned(ps: seq<Passage>): seq<string> {
    if ps == [] then [] else Owned(ps[..|ps| - 1]) + ps[|ps| - 1].own
  }

  /** A passage is new somewhere; it opens with the tail of the one before; past its first
      segment every one fitted; and the one before closed because this segment did not. */
  ghost predicate Fine(ps: seq<Passage>, i: nat)
    requires i < |ps|
  {
    && ps[i].own != []
    && ps[i].overlap == (if i == 0 then [] else Tail(Parts(ps[i - 1]), OVERLAP))
    && (forall k | 1 < k <= |ps[i].own| :: Size(ps[i].overlap + ps[i].own[..k]) <= TARGET)
    && (i > 0 ==> Size(Parts(ps[i - 1]) + [ps[i].own[0]]) > TARGET)
  }

  ghost predicate Greedy(ps: seq<Passage>) {
    forall i | 0 <= i < |ps| :: Fine(ps, i)
  }

  lemma OwnedByMore(ps: seq<Passage>, p: Passage)
    ensures Owned(ps + [p]) == Owned(ps) + p.own
  {
    assert (ps + [p])[..|ps|] == ps;
  }

  lemma GreedyMore(ps: seq<Passage>, p: Passage)
    requires Greedy(ps) && Fine(ps + [p], |ps|)
    ensures Greedy(ps + [p])
  {
    forall i | 0 <= i < |ps + [p]| ensures Fine(ps + [p], i) {
      if i < |ps| { assert Fine(ps, i); }
    }
  }

  lemma GreedyFront(ps: seq<Passage>, p: Passage)
    requires Greedy(ps + [p])
    ensures Greedy(ps) && Fine(ps + [p], |ps|)
  {
    forall i | 0 <= i < |ps| ensures Fine(ps, i) {
      assert Fine(ps + [p], i);
    }
  }

  lemma OwnGrows(ps: seq<Passage>, p: Passage, segment: string)
    requires Greedy(ps + [p]) && Size(Parts(p) + [segment]) <= TARGET
    ensures Greedy(ps + [p.(own := p.own + [segment])])
    ensures Owned(ps + [p.(own := p.own + [segment])]) == Owned(ps + [p]) + [segment]
  {
    hide Greedy, Owned;
    var q := p.(own := p.own + [segment]);
    GreedyFront(ps, p);
    LastGrows(ps, p, segment);
    GreedyMore(ps, q);
    OwnedByMore(ps, p);
    OwnedByMore(ps, q);
    assert Owned(ps) + (p.own + [segment]) == Owned(ps) + p.own + [segment];
  }

  lemma LastGrows(ps: seq<Passage>, p: Passage, segment: string)
    requires Fine(ps + [p], |ps|) && Size(Parts(p) + [segment]) <= TARGET
    ensures Fine(ps + [p.(own := p.own + [segment])], |ps|)
  {
    hide Size, Tail;
    var q := p.(own := p.own + [segment]);
    var before, after := ps + [p], ps + [q];
    assert before[|ps|] == p && after[|ps|] == q;
    forall k | 1 < k <= |q.own| ensures Size(q.overlap + q.own[..k]) <= TARGET {
      if k <= |p.own| {
        assert q.own[..k] == p.own[..k];
      } else {
        assert q.overlap + q.own[..k] == Parts(p) + [segment];
      }
    }
  }

  lemma PassageOpens(ps: seq<Passage>, segment: string)
    requires Greedy(ps) && ps != [] && Size(Parts(ps[|ps| - 1]) + [segment]) > TARGET
    ensures var p := Passage(Tail(Parts(ps[|ps| - 1]), OVERLAP), [segment]);
            Greedy(ps + [p]) && Owned(ps + [p]) == Owned(ps) + [segment]
  {
    hide Size, Tail, Parts, Greedy, Owned;
    var p := Passage(Tail(Parts(ps[|ps| - 1]), OVERLAP), [segment]);
    OwnedByMore(ps, p);
    GreedyMore(ps, p);
  }

  /** The passages of a list of segments, told one segment at a time. */
  function Passages(segments: seq<string>): (ps: seq<Passage>)
    ensures ps == [] <==> segments == []
  {
    if segments == [] then []
    else
      var before, segment := Passages(segments[..|segments| - 1]), segments[|segments| - 1];
      if before == [] then [Passage([], [segment])]
      else
        var n := |before| - 1;
        var last := before[n];
        if Size(Parts(last) + [segment]) > TARGET then before + [Passage(Tail(Parts(last), OVERLAP), [segment])]
        else before[..n] + [last.(own := last.own + [segment])]
  }

  lemma PassagesNext(segments: seq<string>, segment: string)
    requires segments != []
    ensures var before := Passages(segments);
            var n := |before| - 1;
            Passages(segments + [segment]) ==
            if Size(Parts(before[n]) + [segment]) > TARGET
            then before + [Passage(Tail(Parts(before[n]), OVERLAP), [segment])]
            else before[..n] + [before[n].(own := before[n].own + [segment])]
  {
    hide Size, Tail, Parts;
    assert (segments + [segment])[..|segments|] == segments;
  }

  lemma PassagesOfOne(segment: string)
    ensures Passages([segment]) == [Passage([], [segment])]
  {
    assert [segment][..0] == [];
  }

  function Chunks(ps: seq<Passage>): Option<seq<TextChunk>> {
    if |ps| > MAX_CHUNKS then None else Some(seq(|ps|, i requires 0 <= i < |ps| => AsChunk(i, Parts(ps[i]))))
  }

  /** They are assembled greedily, and what is new in them is the segments, in order. */
  lemma {:induction false} PassagesAreGreedy(segments: seq<string>)
    ensures Greedy(Passages(segments)) && Owned(Passages(segments)) == segments
  {
    hide Greedy, Size, Tail, Owned, Parts;
    if segments == [] {
      NothingIsGreedy();
    } else {
      var front, segment := segments[..|segments| - 1], segments[|segments| - 1];
      PassagesAreGreedy(front);
      assert front + [segment] == segments;
      var before := Passages(front);
      if before == [] {
        FirstIsGreedy(segment);
      } else {
        var n := |before| - 1;
        assert before[..n] + [before[n]] == before;
        if Size(Parts(before[n]) + [segment]) > TARGET {
          PassageOpens(before, segment);
        } else {
          OwnGrows(before[..n], before[n], segment);
        }
      }
    }
  }

  lemma NothingIsGreedy()
    ensures Greedy([]) && Owned([]) == []
  {
  }

  lemma FirstIsGreedy(segment: string)
    ensures Greedy([Passage([], [segment])]) && Owned([Passage([], [segment])]) == [segment]
  {
    assert [Passage([], [segment])][..0] == [];
  }

  /** Where the loop stands: the passages closed so far, and the one being filled. */
  ghost predicate Filling(segments: seq<string>, chunks: seq<TextChunk>, buffer: seq<string>) {
    var ps := Passages(segments);
    if ps == [] then buffer == [] && chunks == []
    else
      && buffer != [] && buffer == Parts(ps[|ps| - 1]) && |chunks| == |ps| - 1
      && forall k | 0 <= k < |chunks| :: chunks[k] == AsChunk(k, Parts(ps[k]))
  }

  lemma FillingNext(segments: seq<string>, chunks: seq<TextChunk>, buffer: seq<string>, segment: string)
    requires Filling(segments, chunks, buffer)
    ensures if buffer != [] && Size(buffer + [segment]) > TARGET
            then Filling(segments + [segment], chunks + [AsChunk(|chunks|, buffer)], Tail(buffer, OVERLAP) + [segment])
            else Filling(segments + [segment], chunks, buffer + [segment])
  {
    hide Size, Tail, Parts, Passages, AsChunk;
    if buffer == [] {
      assert [] + [segment] == [segment];
      PassagesOfOne(segment);
      PartsGrow([], segment);
    } else {
      PassagesNext(segments, segment);
      PartsGrow(Tail(buffer, OVERLAP), segment);
      PartsGrow(buffer, segment);
    }
  }

  /** `chunk`, from its segments on; None is the error for too many passages. */
  method Assemble(segments: seq<string>) returns (result: Option<seq<TextChunk>>)
    ensures result == Chunks(Passages(segments))
  {
    hide Size, Tail, Parts, Passages, Filling, AsChunk;
    var chunks: seq<TextChunk> := [];
    var buffer: seq<string> := [];
    var i := 0;
    FillingStarts();
    while i < |segments|
      invariant i <= |segments| && Filling(segments[..i], chunks, buffer)
    {
      var segment := segments[i];
      assert segments[..i + 1] == segments[..i] + [segment];
      FillingNext(segments[..i], chunks, buffer, segment);
      if buffer != [] && Size(buffer + [segment]) > TARGET {
        chunks := chunks + [AsChunk(|chunks|, buffer)];
        buffer := OverlapTail(buffer);
      }
      buffer := buffer + [segment];
      i := i + 1;
    }
    assert segments[..i] == segments;
    FillingEnds(segments, chunks, buffer);
    if buffer != [] {
      chunks := chunks + [AsChunk(|chunks|, buffer)];
    }
    result := if |chunks| > MAX_CHUNKS then None else Some(chunks);
  }

  lemma FillingStarts()
    ensures Filling([], [], [])
  {
  }

  lemma FillingEnds(segments: seq<string>, chunks: seq<TextChunk>, buffer: seq<string>)
    requires Filling(segments, chunks, buffer)
    ensures var all := if buffer == [] then chunks else chunks + [AsChunk(|chunks|, buffer)];
            Chunks(Passages(segments)) == if |all| > MAX_CHUNKS then None else Some(all)
  {
    hide Size, Tail, Parts, Passages, AsChunk;
    var ps := Passages(segments);
    var all := if buffer == [] then chunks else chunks + [AsChunk(|chunks|, buffer)];
    assert |all| == |ps|;
    assert all == seq(|ps|, i requires 0 <= i < |ps| => AsChunk(i, Parts(ps[i])));
  }

  lemma PartsGrow(parts: seq<string>, segment: string)
    ensures Parts(Passage(parts, [segment])) == parts + [segment]
    ensures Parts(Passage([], [segment])) == [segment] && [] + [segment] == [segment]
    ensures forall p: Passage | Parts(p) == parts :: Parts(p.(own := p.own + [segment])) == parts + [segment]
  {
    forall p: Passage | Parts(p) == parts ensures Parts(p.(own := p.own + [segment])) == parts + [segment] {
      assert p.overlap + (p.own + [segment]) == p.overlap + p.own + [segment];
    }
  }

  /** Each passage in its place: numbered from zero, its segments with a blank line between any two
      of them, and its size four characters to a token, rounded up. */
  ghost predicate Told(chunks: seq<TextChunk>, ps: seq<Passage>) {
    && |chunks| == |ps|
    && forall i | 0 <= i < |ps| ::
         && chunks[i].index == i && chunks[i].content == Joined(ps[i].overlap + ps[i].own)
         && |chunks[i].content| <= 4 * chunks[i].tokens < |chunks[i].content| + 4
  }

  lemma ToldBy(ps: seq<Passage>)
    ensures Chunks(ps).None? <==> |ps| > 500
    ensures Chunks(ps).Some? ==> Told(Chunks(ps).value, ps)
  {
    hide Joined;
  }

  /** What `chunk` does with a document. */
  function Chunked(text: string): Option<seq<TextChunk>> {
    Chunks(Passages(Segmented(text)))
  }

  /** `chunk` */
  method Chunk(text: string) returns (result: Option<seq<TextChunk>>)
    ensures result == Chunked(text)
    ensures result.None? <==> |Passages(Segmented(text))| > 500
    ensures result.Some? ==> Told(result.value, Passages(Segmented(text)))
  {
    hide Passages, Chunks, Segmented, Told;
    var segments := Segments.Segments(text);
    result := Assemble(segments);
    ToldBy(Passages(segments));
  }

  /** A passage holds its segments' characters, in order. */
  lemma {:induction false} JoinedKeepsInk(parts: seq<string>)
    ensures Ink(Joined(parts)) == InkOfAll(parts)
  {
    hide Ink, InkOfAll;
    if parts == [] {
      NoParts();
    } else if |parts| == 1 {
      assert parts == [parts[0]];
      InkOfOne(parts[0]);
    } else {
      var n := |parts| - 1;
      JoinedKeepsInk(parts[..n]);
      InkConcat(Joined(parts[..n]) + "\n\n", parts[n]);
      InkConcat(Joined(parts[..n]), "\n\n");
      NoInkInSpace("\n\n");
      InkOfParts(parts[..n], [parts[n]]);
      InkOfOne(parts[n]);
      assert parts == parts[..n] + [parts[n]];
    }
  }

  /** Cutting a document up loses, moves and invents nothing but white space and the repetition
      at the start of a passage: what is new in the passages, in order, is the segments, and
      these hold the document's characters, in order, each once. */
  lemma PassagesKeepInk(text: string)
    ensures Greedy(Passages(Segmented(text))) && InkOfAll(Owned(Passages(Segmented(text)))) == Ink(text)
    ensures forall i | 0 <= i < |Owned(Passages(Segmented(text)))| :: Segment(Owned(Passages(Segmented(text)))[i])
  {
    hide Greedy, Owned, Passages, Segmented, Segment;
    PassagesAreGreedy(Segmented(text));
    SegmentsKeepInk(text);
  }

  // ----- how large a passage is ------------------------------------------------------------------

  function Length(parts: seq<string>): nat {
    if parts == [] then 0 else Length(parts[..|parts| - 1]) + |parts[|parts| - 1]|
  }

  lemma {:induction false} JoinedLength(parts: seq<string>)
    ensures |Joined(parts)| == if parts == [] then 0 else Length(parts) + 2 * (|parts| - 1)
  {
    if |parts| == 1 {
      assert parts[..0] == [];
    } else if |parts| > 1 {
      JoinedLength(parts[..|parts| - 1]);
    }
  }

  lemma LengthOfMore(parts: seq<string>, part: string)
    ensures Length(parts + [part]) == Length(parts) + |part|
  {
    assert (parts + [part])[..|parts|] == parts;
  }

  /** A passage exceeds the target exactly when it did with its first new segment: it then has
      no other, and what it repeats is to blame. */
  lemma OversizeFromTheStart(ps: seq<Passage>, i: nat)
    requires i < |ps| && Fine(ps, i)
    ensures Size(Parts(ps[i])) > TARGET <==> Size(ps[i].overlap + [ps[i].own[0]]) > TARGET
    ensures Size(Parts(ps[i])) > TARGET ==> |ps[i].own| == 1
  {
    hide Size, Tail;
    var own := ps[i].own;
    assert own[..|own|] == own;
    if |own| == 1 {
      assert own == [own[0]];
    } else {
      assert own[..2] == [own[0]] + [own[1]];
      assert Size(ps[i].overlap + own[..2]) <= TARGET;
      LargerWithMore(ps[i].overlap + [own[0]], own[1]);
      assert ps[i].overlap + ([own[0]] + [own[1]]) == ps[i].overlap + [own[0]] + [own[1]];
    }
  }

  lemma LargerWithMore(parts: seq<string>, part: string)
    ensures Size(parts) <= Size(parts + [part])
  {
    JoinedLength(parts);
    JoinedLength(parts + [part]);
    LengthOfMore(parts, part);
  }

  lemma {:induction false} TailLength(parts: seq<string>)
    requires forall i | 0 <= i < |parts| :: parts[i] != ""
    ensures |parts| <= Sum(parts) && Length(parts) <= 4 * Sum(parts)
  {
    if parts != [] { TailLength(parts[..|parts| - 1]); }
  }

  /** Every text is a segment of at most `m` tokens. */
  ghost predicate AtMost(parts: seq<string>, m: nat) {
    forall i | 0 <= i < |parts| :: Segment(parts[i]) && Tokens(|parts[i]|) <= m
  }

  /** A passage past the target is a hundred tokens repeated, fifty for the blank lines between the
      smallest segments, and one segment more. */
  lemma PassagesAreBoundedBy(ps: seq<Passage>, m: nat, i: nat)
    requires Greedy(ps) && i < |ps| && forall k | 0 <= k < |ps| :: AtMost(ps[k].own, m)
    ensures Size(Parts(ps[i])) <= TARGET || Size(Parts(ps[i])) <= m + 150
  {
    hide Size, Tail, Joined, Segment;
    assert Fine(ps, i);
    OversizeFromTheStart(ps, i);
    if Size(Parts(ps[i])) > TARGET {
      var overlap, first := ps[i].overlap, ps[i].own[0];
      assert ps[i].own == [first] && AtMost(ps[i].own, m);
      forall k, j | 0 <= k < |ps| && 0 <= j < |ps[k].own| ensures Segment(ps[k].own[j]) {
        assert AtMost(ps[k].own, m);
      }
      OverlapsAreSegments(ps, i);
      OpeningIsBounded(overlap, first, m);
    }
  }

  lemma SegmentTokens(s: string)
    requires Segment(s)
    ensures Tokens(|s|) <= MAX_SEGMENT_TOKENS
  {
  }

  lemma OwnAtMost(ps: seq<Passage>, m: nat)
    requires AtMost(Owned(ps), m)
    ensures forall k | 0 <= k < |ps| :: AtMost(ps[k].own, m)
  {
    hide Owned, Segment, Tokens;
    forall k, j | 0 <= k < |ps| && 0 <= j < |ps[k].own|
      ensures Segment(ps[k].own[j]) && Tokens(|ps[k].own[j]|) <= m
    {
      OwnIsOwned(ps, k, j);
    }
  }

  lemma ChunksAreBoundedBy(text: string, m: nat, i: nat)
    requires AtMost(Segmented(text), m) && Chunked(text).Some? && i < |Chunked(text).value|
    ensures Chunked(text).value[i].tokens <= TARGET || Chunked(text).value[i].tokens <= m + 150
  {
    hide Greedy, Passages, Segmented, Size, Parts, Segment, Owned, AtMost;
    var ps := Passages(Segmented(text));
    PassagesAreGreedy(Segmented(text));
    OwnAtMost(ps, m);
    PassagesAreBoundedBy(ps, m, i);
  }

  lemma AtMostWhatFits(text: string)
    ensures AtMost(Segmented(text), MAX_SEGMENT_TOKENS)
  {
    hide Segmented, Segment, Tokens;
    SegmentsKeepInk(text);
    forall i | 0 <= i < |Segmented(text)| ensures Tokens(|Segmented(text)[i]|) <= MAX_SEGMENT_TOKENS {
      SegmentTokens(Segmented(text)[i]);
    }
  }

  /** No passage of any document is larger than 850 tokens. */
  lemma ChunksAreBounded(text: string, i: nat)
    requires Chunked(text).Some? && i < |Chunked(text).value|
    ensures Chunked(text).value[i].tokens <= 850
  {
    hide Chunked, AtMost, Segmented;
    AtMostWhatFits(text);
    ChunksAreBoundedBy(text, MAX_SEGMENT_TOKENS, i);
  }

  lemma {:induction false} OwnIsOwned(ps: seq<Passage>, k: nat, j: nat)
    requires k < |ps| && j < |ps[k].own|
    ensures exists i :: 0 <= i < |Owned(ps)| && Owned(ps)[i] == ps[k].own[j]
  {
    var n := |ps| - 1;
    var before := Owned(ps[..n]);
    if k < n {
      OwnIsOwned(ps[..n], k, j);
      var i :| 0 <= i < |before| && before[i] == ps[..n][k].own[j];
      assert Owned(ps)[i] == before[i];
    } else {
      assert Owned(ps)[|before| + j] == ps[n].own[j];
    }
  }

  lemma OpeningIsBounded(overlap: seq<string>, first: string, m: nat)
    requires Tokens(|first|) <= m && Sum(overlap) <= OVERLAP && forall j | 0 <= j < |overlap| :: Segment(overlap[j])
    ensures Size(overlap + [first]) <= m + 150
  {
    TailLength(overlap);
    LengthOfMore(overlap, first);
    JoinedLength(overlap + [first]);
  }

  lemma {:induction false} OverlapsAreSegments(ps: seq<Passage>, i: nat)
    requires Greedy(ps) && i < |ps|
    requires forall k, j | 0 <= k < |ps| && 0 <= j < |ps[k].own| :: Segment(ps[k].own[j])
    ensures forall j | 0 <= j < |ps[i].overlap| :: Segment(ps[i].overlap[j])
    ensures Sum(ps[i].overlap) <= OVERLAP
  {
    hide Size, Tail, Segment;
    if i == 0 {
      assert Fine(ps, 0);
      assert ps[0].overlap == [] && Sum([]) == 0;
    } else {
      OverlapsAreSegments(ps, i - 1);
      assert Fine(ps, i);
      var before := Parts(ps[i - 1]);
      TailIsAnEnd(before, OVERLAP);
      TailFits(before, OVERLAP);
      forall j | 0 <= j < |before| ensures Segment(before[j]) {
        if j >= |ps[i - 1].overlap| { assert before[j] == ps[i - 1].own[j - |ps[i - 1].overlap|]; }
      }
    }
  }

  // ----- where the documented bound holds ----------------------------------------------------------

  /** No passage of the document exceeds the target. */
  ghost predicate WithinTarget(text: string) {
    Chunked(text).Some? ==> forall i | 0 <= i < |Chunked(text).value| :: Chunked(text).value[i].tokens <= TARGET
  }

  function Repeat(c: char, n: nat): string {
    seq(n, _ => c)
  }

  /** A hundred paragraphs of four characters, and then one of `m` tokens. */
  const SHORT := Repeat('a', 4)

  function Shorts(n: nat): seq<string> {
    seq(n, _ => SHORT)
  }

  function Long(m: nat): string {
    Repeat('b', 4 * m)
  }

  function Lopsided(m: nat): seq<string> {
    Shorts(100) + [Long(m)]
  }

  lemma {:induction false} ShortsMeasure(n: nat, budget: nat)
    requires n <= budget
    ensures Sum(Shorts(n)) == n && Length(Shorts(n)) == 4 * n && Tail(Shorts(n), budget) == Shorts(n)
  {
    if n > 0 {
      ShortsMeasure(n - 1, budget - 1);
      assert Shorts(n)[..n - 1] == Shorts(n - 1);
      assert Shorts(n) == Shorts(n - 1) + [SHORT];
    }
  }

  lemma LopsidedSegments(m: nat)
    requires 1 <= m <= MAX_SEGMENT_TOKENS
    ensures Lopsided(m) != [] && Plain(Lopsided(m)) && AtMost(Lopsided(m), m)
  {
    forall i | 0 <= i < |Lopsided(m)|
      ensures Segment(Lopsided(m)[i]) && '\n' !in Lopsided(m)[i] && Tokens(|Lopsided(m)[i]|) <= m
    {
      if i < 100 { assert Lopsided(m)[i] == SHORT; } else { assert Lopsided(m)[i] == Long(m); }
    }
  }

  lemma LopsidedPassages(m: nat)
    requires m > 650
    ensures Passages(Lopsided(m)) == [Passage([], Shorts(100)), Passage(Shorts(100), [Long(m)])]
    ensures Size(Parts(Passages(Lopsided(m))[1])) == m + 150
  {
    hide Size, Tail, Sum, Length, Joined, Passages, Long;
    ShortsPassage(100);
    ShortsMeasure(100, OVERLAP);
    OverflowSize(m);
    var first := Passage([], Shorts(100));
    assert Parts(first) == Shorts(100);
    PassagesNext(Shorts(100), Long(m));
    assert [first] + [Passage(Shorts(100), [Long(m)])] == [first, Passage(Shorts(100), [Long(m)])];
  }

  /** Of the documents whose paragraphs have at most `m` tokens this one is the worst. */
  lemma TargetIsExceeded(m: nat)
    requires 650 < m <= MAX_SEGMENT_TOKENS
    ensures Paragraphs(Joined(Lopsided(m))) == Lopsided(m) && Segmented(Joined(Lopsided(m))) == Lopsided(m)
    ensures var result := Chunked(Joined(Lopsided(m)));
            result.Some? && |result.value| == 2 && result.value[1].tokens == m + 150 > TARGET
  {
    hide Size, Joined, Passages, Segmented, Plain, Parts, Lopsided, Paragraphs, AtMost;
    LopsidedSegments(m);
    JoinedParagraphs(Lopsided(m));
    SegmentedJoined(Lopsided(m));
    LopsidedPassages(m);
  }

  /** All documents whose segments have at most `m` tokens keep to the target exactly when `m` is
      not above 650: a segment may not only leave room for the repetition, but for the blank lines
      in it too. */
  lemma TargetHoldsExactly(m: nat)
    ensures (forall text: string | AtMost(Segmented(text), m) :: WithinTarget(text)) <==> m <= 650
  {
    hide Segmented, AtMost, Chunked;
    if m <= 650 {
      forall text: string | AtMost(Segmented(text), m) ensures WithinTarget(text) {
        KeepsToTarget(text, m);
      }
    } else {
      var n := if m <= MAX_SEGMENT_TOKENS then m else MAX_SEGMENT_TOKENS;
      LopsidedSegments(n);
      TargetIsExceeded(n);
      FewerAreAtMost(Lopsided(n), n, m);
      assert !WithinTarget(Joined(Lopsided(n)));
    }
  }

  lemma FewerAreAtMost(parts: seq<string>, n: nat, m: nat)
    requires n <= m && AtMost(parts, n)
    ensures AtMost(parts, m)
  {
  }

  lemma KeepsToTarget(text: string, m: nat)
    requires m <= 650 && AtMost(Segmented(text), m)
    ensures WithinTarget(text)
  {
    hide Segmented, AtMost, Chunked;
    if Chunked(text).Some? {
      forall i | 0 <= i < |Chunked(text).value| ensures Chunked(text).value[i].tokens <= TARGET {
        ChunksAreBoundedBy(text, m, i);
      }
    }
  }

  /** The paragraphs of a document as it is written: none has more than `m` tokens. */
  ghost predicate ShortParagraphs(text: string, m: nat) {
    forall k | 0 <= k < |Paragraphs(text)| :: Tokens(|Strip(Paragraphs(text)[k])|) <= m
  }

  lemma {:induction false} ShortParagraphsAreSegments(paragraphs: seq<string>, m: nat)
    requires m <= MAX_SEGMENT_TOKENS
    requires forall k | 0 <= k < |paragraphs| :: Tokens(|Strip(paragraphs[k])|) <= m
    ensures forall i | 0 <= i < |OfParagraphs(paragraphs)| :: Tokens(|OfParagraphs(paragraphs)[i]|) <= m
  {
    hide Strip, Tokens, OfSentences, Sentences;
    if paragraphs != [] { ShortParagraphsAreSegments(paragraphs[..|paragraphs| - 1], m); }
  }

  lemma ShortParagraphsAreAtMost(text: string, m: nat)
    requires m <= MAX_SEGMENT_TOKENS && ShortParagraphs(text, m)
    ensures AtMost(Segmented(text), m)
  {
    hide Segment, Tokens, OfParagraphs, Paragraphs, Strip;
    SegmentsKeepInk(text);
    ShortParagraphsAreSegments(Paragraphs(text), m);
  }

  /** The same of what an author can see: the paragraphs. */
  lemma TargetHoldsExactlyForParagraphs(m: nat)
    ensures (forall text: string | ShortParagraphs(text, m) :: WithinTarget(text)) <==> m <= 650
  {
    hide Segmented, AtMost, Chunked, ShortParagraphs;
    if m <= 650 {
      forall text: string | ShortParagraphs(text, m) ensures WithinTarget(text) {
        ShortParagraphsAreAtMost(text, m);
        KeepsToTarget(text, m);
      }
    } else {
      var n := if m <= MAX_SEGMENT_TOKENS then m else MAX_SEGMENT_TOKENS;
      LopsidedSegments(n);
      TargetIsExceeded(n);
      LopsidedParagraphs(n, m);
      assert !WithinTarget(Joined(Lopsided(n)));
    }
  }

  lemma LopsidedParagraphs(n: nat, m: nat)
    requires 650 < n <= m && n <= MAX_SEGMENT_TOKENS
    ensures ShortParagraphs(Joined(Lopsided(n)), m)
  {
    hide Paragraphs, Joined, Lopsided, Strip, Tokens, Segmented, Chunked;
    LopsidedSegments(n);
    TargetIsExceeded(n);
    forall k | 0 <= k < |Lopsided(n)| ensures Tokens(|Strip(Lopsided(n)[k])|) <= m {
      StrippedStays(Lopsided(n)[k]);
    }
  }

  lemma {:induction false} ShortsPassage(n: nat)
    requires 1 <= n <= 100
    ensures Passages(Shorts(n)) == [Passage([], Shorts(n))]
  {
    hide Size, Tail, Passages, Parts, Repeat;
    assert Shorts(n) == Shorts(n - 1) + [SHORT];
    if n == 1 {
      assert Shorts(1) == [SHORT];
      PassagesOfOne(SHORT);
    } else {
      ShortsPassage(n - 1);
      PassagesNext(Shorts(n - 1), SHORT);
      OwnParts(Shorts(n - 1));
      FirstFits(n);
    }
  }

  lemma OwnParts(parts: seq<string>)
    ensures Parts(Passage([], parts)) == parts
  {
  }

  lemma FirstFits(k: nat)
    requires k <= 100
    ensures Size(Shorts(k)) <= TARGET
  {
    ShortsMeasure(k, k);
    JoinedLength(Shorts(k));
  }

  lemma OverflowSize(m: nat)
    ensures Size(Shorts(100) + [Long(m)]) == m + 150
  {
    ShortsMeasure(100, 100);
    LengthOfMore(Shorts(100), Long(m));
    JoinedLength(Shorts(100) + [Long(m)]);
  }
}
