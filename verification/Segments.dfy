/** Breaking a document into the pieces its passages are made of. */
module Segments {
  import opened Common
  import opened Whitespace

  const CHARS_PER_TOKEN := 4
  const MAX_SEGMENT_TOKENS := 700
  const LIMIT := 2800

  /** `estimated_tokens`, of a text this long. */
  function Tokens(length: nat): nat {
    (length + CHARS_PER_TOKEN - 1) / CHARS_PER_TOKEN
  }

  // ----- white space -------------------------------------------------------------------------

  function TrimEnd(s: string): (t: string)
    ensures t <= s && AllSpace(s[|t|..])
    ensures t != "" ==> !IsSpace(t[|t| - 1])
  {
    if s != "" && IsSpace(s[|s| - 1]) then TrimEnd(s[..|s| - 1]) else s
  }

  /** `str.strip` */
  function Strip(s: string): (t: string)
    ensures |t| <= |s|
    ensures t != "" ==> !IsSpace(t[0]) && !IsSpace(t[|t| - 1])
  {
    TrimEnd(s[Skip(s)..])
  }

  /** The characters of a text that are not white space, in order: what a split may not lose. */
  function Ink(s: string): string {
    if s == "" then "" else Ink(s[..|s| - 1]) + (if IsSpace(s[|s| - 1]) then "" else [s[|s| - 1]])
  }

  function InkOfAll(parts: seq<string>): string {
    if parts == [] then "" else InkOfAll(parts[..|parts| - 1]) + Ink(parts[|parts| - 1])
  }

  lemma {:induction false} InkConcat(a: string, b: string)
    ensures Ink(a + b) == Ink(a) + Ink(b)
  {
    if b == "" {
      assert a + b == a;
    } else {
      assert (a + b)[..|a + b| - 1] == a + b[..|b| - 1];
      InkConcat(a, b[..|b| - 1]);
    }
  }

  lemma {:induction false} NoInkInSpace(s: string)
    requires AllSpace(s)
    ensures Ink(s) == ""
  {
    if s != "" { NoInkInSpace(s[..|s| - 1]); }
  }

  lemma InkOfSplit(s: string, i: nat)
    requires i <= |s|
    ensures Ink(s) == Ink(s[..i]) + Ink(s[i..])
  {
    hide Ink;
    InkConcat(s[..i], s[i..]);
    assert s[..i] + s[i..] == s;
  }

  lemma StripKeepsInk(s: string)
    ensures Ink(Strip(s)) == Ink(s)
  {
    hide Ink, Skip, TrimEnd;
    var k := Skip(s);
    InkOfSplit(s, k);
    NoInkInSpace(s[..k]);
    var t := Strip(s);
    assert s[k..][..|t|] == t;
    InkOfSplit(s[k..], |t|);
    NoInkInSpace(s[k..][|t|..]);
  }

  lemma {:induction false} InkOfParts(a: seq<string>, b: seq<string>)
    ensures InkOfAll(a + b) == InkOfAll(a) + InkOfAll(b)
  {
    hide Ink;
    if b == [] {
      assert a + b == a;
    } else {
      var n := |b| - 1;
      InkOfParts(a, b[..n]);
      Unended(a, b);
      Regrouped(InkOfAll(a), InkOfAll(b[..n]), Ink(b[n]));
    }
  }

  lemma Unended<T>(a: seq<T>, b: seq<T>)
    requires b != []
    ensures (a + b)[..|a + b| - 1] == a + b[..|b| - 1] && (a + b)[|a + b| - 1] == b[|b| - 1]
  {
  }

  lemma Regrouped(a: string, b: string, c: string)
    ensures a + b + c == a + (b + c)
  {
  }

  // ----- the two breaks -----------------------------------------------------------------------

  /** How long a match of a pattern is at a place, 0 where there is none. */
  type Break = (string, nat) -> nat

  /** How far the last line break in `s` reaches; 0 when there is none. */
  function LastLine(s: string): (n: nat)
    ensures n <= |s| && (n > 0 ==> s[n - 1] == '\n')
    ensures forall i | n <= i < |s| :: s[i] != '\n'
  {
    if s == "" then 0 else if s[|s| - 1] == '\n' then |s| else LastLine(s[..|s| - 1])
  }

  /** `\n\s*\n`: greedy, so it ends at the last line break of its white space. */
  function ParagraphBreak(s: string, i: nat): nat {
    if i >= |s| || s[i] != '\n' then 0
    else
      var reach := LastLine(s[i + 1..][..Skip(s[i + 1..])]);
      if reach == 0 then 0 else 1 + reach
  }

  /** `(?<=[.!?])\s+`: a run of white space after the end of a sentence. */
  function SentenceEnd(s: string, i: nat): nat {
    if 0 < i < |s| && s[i - 1] in ".!?" then Skip(s[i..]) else 0
  }

  /** What a match of the first pattern is, said without the matcher. */
  ghost predicate IsParagraphBreak(s: string, i: nat, n: nat) {
    2 <= n && i + n <= |s| && s[i] == '\n' && s[i + n - 1] == '\n' && AllSpace(s[i..i + n])
  }

  lemma ParagraphBreakIsLongest(s: string, i: nat, n: nat)
    requires i <= |s|
    ensures var m := ParagraphBreak(s, i);
            && (m > 0 ==> IsParagraphBreak(s, i, m))
            && (IsParagraphBreak(s, i, n) ==> n <= m)
  {
    if i < |s| && s[i] == '\n' {
      var rest := s[i + 1..];
      var k := Skip(rest);
      var m := ParagraphBreak(s, i);
      if m > 0 {
        assert rest[..k][m - 2] == s[i + m - 1];
        forall x | i < x < i + m ensures IsSpace(s[x]) {
          assert s[x] == rest[..k][x - i - 1];
        }
      }
      if IsParagraphBreak(s, i, n) {
        forall x | i < x < i + n ensures IsSpace(s[x]) {
          assert s[x] == s[i..i + n][x - i];
        }
        assert rest[..n - 1] == s[i + 1..i + n];
        SkipReaches(rest, n - 1);
        assert rest[..k][n - 2] == s[i + n - 1];
      }
    }
  }

  /** The second pattern's matches: white space right after a full stop, an exclamation mark or a
      question mark, and all of it. */
  lemma SentenceEndIsExact(s: string, i: nat)
    requires i <= |s|
    ensures SentenceEnd(s, i) > 0 <==> 0 < i < |s| && s[i - 1] in ".!?" && IsSpace(s[i])
    ensures i + SentenceEnd(s, i) <= |s| && forall k | i <= k < i + SentenceEnd(s, i) :: IsSpace(s[k])
    ensures 0 < SentenceEnd(s, i) < |s| - i ==> !IsSpace(s[i + SentenceEnd(s, i)])
  {
    if i < |s| {
      var k := Skip(s[i..]);
      assert s[i..][0] == s[i];
      forall j | i <= j < i + k ensures IsSpace(s[j]) { assert s[j] == s[i..][..k][j - i]; }
      if k < |s| - i { assert s[i..][k] == s[i + k]; }
    }
  }

  /** Matches lie in white space, and inside the text. */
  ghost predicate Spacious(gap: Break, s: string) {
    forall i | 0 <= i <= |s| :: gap(s, i) <= |s| - i && AllSpace(s[i..i + gap(s, i)])
  }

  lemma BreaksAreSpacious(s: string)
    ensures Spacious(ParagraphBreak, s) && Spacious(SentenceEnd, s)
  {
    forall i | 0 <= i <= |s|
      ensures ParagraphBreak(s, i) <= |s| - i && AllSpace(s[i..i + ParagraphBreak(s, i)])
      ensures SentenceEnd(s, i) <= |s| - i && AllSpace(s[i..i + SentenceEnd(s, i)])
    {
      ParagraphBreakIsLongest(s, i, 0);
      if SentenceEnd(s, i) > 0 { assert s[i..i + SentenceEnd(s, i)] == s[i..][..Skip(s[i..])]; }
    }
  }

  /** `Pattern.split`, from `i` on, of a piece that began at `start`. */
  function Split(s: string, gap: Break, start: nat, i: nat): seq<string>
    requires start <= i <= |s| && Spacious(gap, s)
    decreases |s| - i
  {
    if gap(s, i) > 0 then [s[start..i]] + Split(s, gap, i + gap(s, i), i + gap(s, i))
    else if i == |s| then [s[start..]]
    else Split(s, gap, start, i + 1)
  }

  /** A text is cut at its first match: what stands before it is the first piece, and the rest is
      split in turn. Without a match the text is one piece. */
  lemma {:induction false} SplitAtFirst(s: string, gap: Break, start: nat, i: nat, at: nat)
    requires start <= i <= at <= |s| && Spacious(gap, s)
    requires forall k | i <= k < at :: gap(s, k) == 0
    requires at < |s| ==> gap(s, at) > 0
    ensures gap(s, at) > 0 ==> at + gap(s, at) <= |s|
    ensures Split(s, gap, start, i) == if gap(s, at) > 0
                                       then [s[start..at]] + Split(s, gap, at + gap(s, at), at + gap(s, at))
                                       else [s[start..]]
    decreases at - i
  {
    hide Spacious;
    GapIsSpace(s, gap, at);
    if i < at { SplitAtFirst(s, gap, start, i + 1, at); }
  }

  lemma {:induction false} SplitKeepsInk(s: string, gap: Break, start: nat, i: nat)
    requires start <= i <= |s| && Spacious(gap, s)
    ensures InkOfAll(Split(s, gap, start, i)) == Ink(s[start..])
    decreases |s| - i
  {
    hide Ink, InkOfAll, Spacious;
    var n := gap(s, i);
    GapIsSpace(s, gap, i);
    if n > 0 {
      SplitKeepsInk(s, gap, i + n, i + n);
      InkOfParts([s[start..i]], Split(s, gap, i + n, i + n));
      InkOfOne(s[start..i]);
      InkOfSplit(s[start..], i - start);
      assert s[start..][..i - start] == s[start..i] && s[start..][i - start..] == s[i..];
      InkOfSplit(s[i..], n);
      assert s[i..][..n] == s[i..i + n] && s[i..][n..] == s[i + n..];
      NoInkInSpace(s[i..i + n]);
    } else if i == |s| {
      InkOfOne(s[start..]);
    } else {
      SplitKeepsInk(s, gap, start, i + 1);
    }
  }

  lemma GapIsSpace(s: string, gap: Break, i: nat)
    requires i <= |s| && Spacious(gap, s)
    ensures gap(s, i) <= |s| - i && AllSpace(s[i..i + gap(s, i)])
  {
  }

  lemma InkOfOne(s: string)
    ensures InkOfAll([s]) == Ink(s)
  {
    assert [s][..0] == [];
  }

  // ----- the loops ---------------------------------------------------------------------------

  /** A piece no larger than a segment may be, with white space at neither end. */
  predicate Segment(s: string) {
    s != "" && |s| <= LIMIT && !IsSpace(s[0]) && !IsSpace(s[|s| - 1])
  }

  ghost predicate SegmentsOf(parts: seq<string>, text: string) {
    (forall i | 0 <= i < |parts| :: Segment(parts[i])) && InkOfAll(parts) == Ink(text)
  }

  /** `str.rfind(" ", 0, end)`; 0 stands for both a space at the start and none at all, which
      the caller treats alike. */
  function LastSpace(s: string, end: nat): (cut: nat)
    requires end <= |s|
    ensures cut == 0 || (cut < end && s[cut] == ' ')
    ensures forall i | cut < i < end :: s[i] != ' '
  {
    if end == 0 then 0 else if s[end - 1] == ' ' then end - 1 else LastSpace(s, end - 1)
  }

  /** Stripping it changes nothing. */
  predicate Stripped(s: string) {
    s == "" || (!IsSpace(s[0]) && !IsSpace(s[|s| - 1]))
  }

  lemma StrippedStays(s: string)
    ensures Stripped(s) ==> Strip(s) == s
    ensures Stripped(Strip(s))
  {
    if s != "" && Stripped(s) { assert Skip(s) == 0 && s[0..] == s; }
  }

  /** Where a text too large is cut: at the last space of its first 2801 characters, and after
      2800 when there is none past the start. */
  function CutOf(s: string): (at: nat)
    requires |s| > LIMIT
    ensures 0 < at <= LIMIT
  {
    var cut := LastSpace(s, LIMIT + 1);
    if cut > 0 then cut else LIMIT
  }

  function Kept(part: string): seq<string> {
    if part == "" then [] else [part]
  }

  function NonEmpty(parts: seq<string>): seq<string> {
    if parts == [] then [] else NonEmpty(parts[..|parts| - 1]) + Kept(parts[|parts| - 1])
  }

  function HardSplitOf(s: string): seq<string>
    decreases |s|
  {
    if |s| > LIMIT then Kept(Strip(s[..CutOf(s)])) + HardSplitOf(Strip(s[CutOf(s)..]))
    else Kept(s)
  }

  lemma NonEmptyMore(parts: seq<string>, part: string)
    ensures NonEmpty(parts + [part]) == NonEmpty(parts) + Kept(part)
  {
    assert (parts + [part])[..|parts|] == parts;
  }

  /** `_hard_split` */
  method HardSplit(sentence: string) returns (parts: seq<string>)
    ensures parts == HardSplitOf(sentence)
  {
    hide LastSpace, Strip, NonEmpty, Kept;
    parts := [];
    var remaining := sentence;
    NothingIsEmpty();
    while |remaining| > LIMIT
      invariant NonEmpty(parts) + HardSplitOf(remaining) == HardSplitOf(sentence)
      decreases |remaining|
    {
      var cut := LastSpace(remaining, LIMIT + 1);
      var at := if cut > 0 then cut else LIMIT;
      assert at == CutOf(remaining);
      NonEmptyMore(parts, Strip(remaining[..at]));
      parts := parts + [Strip(remaining[..at])];
      remaining := Strip(remaining[at..]);
    }
    KeptOrNot(remaining);
    if remaining != "" {
      NonEmptyMore(parts, remaining);
      parts := parts + [remaining];
    }
    parts := NonEmpty(parts);
  }

  lemma NothingIsEmpty()
    ensures NonEmpty([]) == []
  {
  }

  lemma KeptOrNot(part: string)
    ensures Kept(part) == if part == "" then [] else [part]
  {
  }

  /** What becomes of one sentence. */
  function OfSentence(sentence: string): seq<string> {
    var s := Strip(sentence);
    if s == "" then [] else if Tokens(|s|) <= MAX_SEGMENT_TOKENS then [s] else HardSplitOf(s)
  }

  function OfSentences(sentences: seq<string>): seq<string> {
    if sentences == [] then []
    else OfSentences(sentences[..|sentences| - 1]) + OfSentence(sentences[|sentences| - 1])
  }

  function Sentences(paragraph: string): seq<string> {
    BreaksAreSpacious(paragraph);
    Split(paragraph, SentenceEnd, 0, 0)
  }

  /** `_split_sentences` */
  method SplitSentences(paragraph: string) returns (parts: seq<string>)
    ensures parts == OfSentences(Sentences(paragraph))
  {
    hide Strip, Split, HardSplitOf;
    var sentences := Sentences(paragraph);
    parts := [];
    var i := 0;
    while i < |sentences|
      invariant i <= |sentences| && parts == OfSentences(sentences[..i])
    {
      var sentence := Strip(sentences[i]);
      assert sentences[..i + 1][..i] == sentences[..i];
      assert OfSentences(sentences[..i + 1]) == parts + OfSentence(sentences[i]);
      i := i + 1;
      if sentence == "" { continue; }
      if Tokens(|sentence|) <= MAX_SEGMENT_TOKENS {
        parts := parts + [sentence];
      } else {
        var pieces := HardSplit(sentence);
        parts := parts + pieces;
      }
    }
    assert sentences[..i] == sentences;
  }

  /** What becomes of one paragraph. */
  function OfParagraph(paragraph: string): seq<string> {
    var p := Strip(paragraph);
    if p == "" then [] else if Tokens(|p|) <= MAX_SEGMENT_TOKENS then [p] else OfSentences(Sentences(p))
  }

  function OfParagraphs(paragraphs: seq<string>): seq<string> {
    if paragraphs == [] then []
    else OfParagraphs(paragraphs[..|paragraphs| - 1]) + OfParagraph(paragraphs[|paragraphs| - 1])
  }

  function Paragraphs(text: string): seq<string> {
    BreaksAreSpacious(text);
    Split(text, ParagraphBreak, 0, 0)
  }

  /** The segments of a document. */
  function Segmented(text: string): seq<string> {
    OfParagraphs(Paragraphs(text))
  }

  /** `_segments` */
  method Segments(text: string) returns (parts: seq<string>)
    ensures parts == Segmented(text)
  {
    hide Strip, Split, OfSentences, Sentences;
    var paragraphs := Paragraphs(text);
    parts := [];
    var i := 0;
    while i < |paragraphs|
      invariant i <= |paragraphs| && parts == OfParagraphs(paragraphs[..i])
    {
      var paragraph := Strip(paragraphs[i]);
      assert paragraphs[..i + 1][..i] == paragraphs[..i];
      assert OfParagraphs(paragraphs[..i + 1]) == parts + OfParagraph(paragraphs[i]);
      i := i + 1;
      if paragraph == "" { continue; }
      if Tokens(|paragraph|) <= MAX_SEGMENT_TOKENS {
        parts := parts + [paragraph];
      } else {
        var sentences := SplitSentences(paragraph);
        parts := parts + sentences;
      }
    }
    assert paragraphs[..i] == paragraphs;
  }

  // ----- nothing is lost -----------------------------------------------------------------------

  lemma NoParts()
    ensures InkOfAll([]) == "" && Ink("") == ""
  {
  }

  lemma {:induction false} HardSplitSegments(s: string)
    requires Stripped(s)
    ensures SegmentsOf(HardSplitOf(s), s)
    decreases |s|
  {
    hide Ink, InkOfAll, Strip, CutOf;
    NoParts();
    if |s| > LIMIT {
      var at := CutOf(s);
      var part, rest := Strip(s[..at]), Strip(s[at..]);
      StrippedStays(s[at..]);
      HardSplitSegments(rest);
      InkOfSplit(s, at);
      StripKeepsInk(s[..at]);
      StripKeepsInk(s[at..]);
      PartIsSegment(s, at);
      InkOfOne(part);
      InkOfParts([part], HardSplitOf(rest));
    } else if s != "" {
      InkOfOne(s);
    }
  }

  lemma PartIsSegment(s: string, at: nat)
    requires 0 < at <= |s| && at <= LIMIT && !IsSpace(s[0])
    ensures Segment(Strip(s[..at]))
  {
    assert Skip(s[..at]) == 0 && s[..at][0..] == s[..at];
  }

  lemma SentenceSegments(sentence: string)
    ensures SegmentsOf(OfSentence(sentence), sentence)
  {
    hide Ink, InkOfAll, Strip, HardSplitOf;
    NoParts();
    var s := Strip(sentence);
    StrippedStays(sentence);
    StripKeepsInk(sentence);
    HardSplitSegments(s);
    InkOfOne(s);
  }

  lemma {:induction false} SentencesSegments(sentences: seq<string>)
    ensures forall i | 0 <= i < |OfSentences(sentences)| :: Segment(OfSentences(sentences)[i])
    ensures InkOfAll(OfSentences(sentences)) == InkOfAll(sentences)
  {
    hide Ink, Segment, OfSentence;
    if sentences != [] {
      var n := |sentences| - 1;
      SentencesSegments(sentences[..n]);
      SentenceSegments(sentences[n]);
      InkOfParts(OfSentences(sentences[..n]), OfSentence(sentences[n]));
    }
  }

  lemma ParagraphSegments(paragraph: string)
    ensures SegmentsOf(OfParagraph(paragraph), paragraph)
  {
    hide Ink, InkOfAll, Strip, OfSentences, Split;
    NoParts();
    var p := Strip(paragraph);
    StrippedStays(paragraph);
    StripKeepsInk(paragraph);
    InkOfOne(p);
    BreaksAreSpacious(p);
    SplitKeepsInk(p, SentenceEnd, 0, 0);
    assert p[0..] == p;
    SentencesSegments(Sentences(p));
  }

  lemma {:induction false} ParagraphsSegments(paragraphs: seq<string>)
    ensures forall i | 0 <= i < |OfParagraphs(paragraphs)| :: Segment(OfParagraphs(paragraphs)[i])
    ensures InkOfAll(OfParagraphs(paragraphs)) == InkOfAll(paragraphs)
  {
    hide Ink, Segment, OfParagraph;
    if paragraphs != [] {
      var n := |paragraphs| - 1;
      ParagraphsSegments(paragraphs[..n]);
      ParagraphSegments(paragraphs[n]);
      InkOfParts(OfParagraphs(paragraphs[..n]), OfParagraph(paragraphs[n]));
    }
  }

  /** No segment is too large, none is empty or padded, and nothing but white space is lost or
      moved. */
  lemma SegmentsKeepInk(text: string)
    ensures SegmentsOf(Segmented(text), text)
  {
    hide Ink, InkOfAll, OfParagraphs, Split, Segment;
    BreaksAreSpacious(text);
    SplitKeepsInk(text, ParagraphBreak, 0, 0);
    assert text[0..] == text;
    ParagraphsSegments(Paragraphs(text));
  }

  // ----- paragraphs are found again ------------------------------------------------------------

  /** A break only depends on what comes after. */
  lemma BreakShifts(before: string, s: string, i: nat)
    requires i <= |s|
    ensures ParagraphBreak(before + s, |before| + i) == ParagraphBreak(s, i)
  {
    if i < |s| { assert (before + s)[|before| + i + 1..] == s[i + 1..]; }
  }

  lemma {:induction false} SplitShifts(before: string, s: string, start: nat, i: nat)
    requires start <= i <= |s| && Spacious(ParagraphBreak, s) && Spacious(ParagraphBreak, before + s)
    ensures Split(before + s, ParagraphBreak, |before| + start, |before| + i) == Split(s, ParagraphBreak, start, i)
    decreases |s| - i
  {
    hide ParagraphBreak, Spacious;
    var n := ParagraphBreak(s, i);
    GapIsSpace(s, ParagraphBreak, i);
    BreakShifts(before, s, i);
    assert (before + s)[|before| + start..|before| + i] == s[start..i];
    if n > 0 {
      SplitShifts(before, s, i + n, i + n);
    } else if i < |s| {
      SplitShifts(before, s, start, i + 1);
    } else {
      assert (before + s)[|before| + start..] == s[start..];
    }
  }

  lemma BreakAfter(p: string, rest: string)
    requires rest != "" && !IsSpace(rest[0])
    ensures ParagraphBreak(p + "\n\n" + rest, |p|) == 2
  {
    var s := p + "\n\n" + rest;
    var after := s[|p| + 1..];
    assert after == "\n" + rest;
    assert after[..1] == "\n";
    SkipIsUnique(after, 1);
    assert "\n"[|"\n"| - 1] == '\n';
  }

  lemma {:induction false} FirstParagraph(p: string, rest: string, i: nat)
    requires '\n' !in p && i <= |p| && rest != "" && !IsSpace(rest[0])
    requires Spacious(ParagraphBreak, p + "\n\n" + rest) && Spacious(ParagraphBreak, rest)
    ensures Split(p + "\n\n" + rest, ParagraphBreak, 0, i) == [p] + Split(rest, ParagraphBreak, 0, 0)
    decreases |p| - i
  {
    hide Spacious;
    var s := p + "\n\n" + rest;
    if i < |p| {
      assert s[i] == p[i];
      FirstParagraph(p, rest, i + 1);
    } else {
      BreakAfter(p, rest);
      SplitShifts(p + "\n\n", rest, 0, 0);
      assert s[0..i] == p;
    }
  }

  lemma {:induction false} OnlyParagraph(p: string, i: nat)
    requires '\n' !in p && i <= |p| && Spacious(ParagraphBreak, p)
    ensures Split(p, ParagraphBreak, 0, i) == [p]
    decreases |p| - i
  {
    hide Spacious;
    if i < |p| { OnlyParagraph(p, i + 1); } else { assert p[0..] == p; }
  }

  /** "\n\n".join(...) */
  function Joined(parts: seq<string>): string {
    if parts == [] then ""
    else if |parts| == 1 then parts[0]
    else Joined(parts[..|parts| - 1]) + "\n\n" + parts[|parts| - 1]
  }

  lemma {:induction false} JoinedFront(parts: seq<string>)
    requires |parts| >= 2
    ensures Joined(parts) == parts[0] + "\n\n" + Joined(parts[1..])
  {
    var n := |parts| - 1;
    if n == 1 {
      assert parts[..1] == [parts[0]] && parts[1..] == [parts[1]];
    } else {
      JoinedFront(parts[..n]);
      assert parts[..n][1..] == parts[1..][..n - 1];
    }
  }

  ghost predicate Plain(parts: seq<string>) {
    forall i | 0 <= i < |parts| :: Segment(parts[i]) && '\n' !in parts[i]
  }

  lemma {:induction false} JoinedParagraphs(parts: seq<string>)
    requires parts != [] && Plain(parts)
    ensures Paragraphs(Joined(parts)) == parts
    ensures Joined(parts) != "" && Joined(parts)[0] == parts[0][0]
  {
    hide Split, Spacious, Joined, Skip, LastLine;
    JoinedOne(parts[0]);
    BreaksAreSpacious(Joined(parts));
    if |parts| == 1 {
      assert parts == [parts[0]];
      OnlyParagraph(parts[0], 0);
    } else {
      JoinedFront(parts);
      JoinedParagraphs(parts[1..]);
      var rest := Joined(parts[1..]);
      BreaksAreSpacious(rest);
      FirstParagraph(parts[0], rest, 0);
    }
  }

  lemma JoinedOne(part: string)
    ensures Joined([part]) == part
  {
  }

  lemma {:induction false} SegmentsStay(parts: seq<string>)
    requires forall i | 0 <= i < |parts| :: Segment(parts[i])
    ensures OfParagraphs(parts) == parts
  {
    hide Strip;
    if parts != [] {
      var n := |parts| - 1;
      SegmentsStay(parts[..n]);
      StrippedStays(parts[n]);
      assert parts == parts[..n] + [parts[n]];
    }
  }

  /** Segments of one line each, joined by blank lines, are the segments of the text they make. */
  lemma SegmentedJoined(parts: seq<string>)
    requires parts != [] && Plain(parts)
    ensures Segmented(Joined(parts)) == parts
  {
    hide Paragraphs, OfParagraphs, Joined;
    JoinedParagraphs(parts);
    SegmentsStay(parts);
  }

  // ----- nothing is cut that need not be --------------------------------------------------------

  /** What a text too large for a segment is cut into, told by what lies between the pieces: each
      is followed by white space, reaching past every space of the first 2801 characters, unless
      they hold none; only then is a word cut, and only after 2800 characters of it. */
  ghost predicate CutAtSpaces(parts: seq<string>, s: string) {
    if |parts| <= 1 then (parts == [] && s == "") || (parts == [s] && s != "" && |s| <= LIMIT)
    else exists n: nat :: CutOnce(parts[0], s, n) && CutAtSpaces(parts[1..], s[n..])
  }

  ghost predicate CutOnce(part: string, s: string, n: nat) {
    && |s| > LIMIT && |part| <= n <= |s| && part == s[..|part|] && AllSpace(s[|part|..n])
    && (n == |part| ==> n == LIMIT && forall i | 0 <= i <= LIMIT :: s[i] != ' ')
    && (n > |part| ==> forall i | n <= i <= LIMIT :: s[i] != ' ')
  }

  /** Stripping the front part of a stripped text only takes away its end. */
  lemma FrontTrimmed(s: string, at: nat)
    requires 0 < at <= |s| && !IsSpace(s[0])
    ensures var part := Strip(s[..at]);
            |part| <= at && part == s[..|part|] && AllSpace(s[|part|..at])
  {
    assert Skip(s[..at]) == 0 && s[..at][0..] == s[..at];
    var part := Strip(s[..at]);
    assert s[..at][|part|..] == s[|part|..at];
    assert s[..at][..|part|] == s[..|part|];
  }

  /** And stripping the rest only takes away its beginning. */
  lemma RestSkipped(s: string, at: nat)
    requires at < |s| && !IsSpace(s[|s| - 1])
    ensures var n := at + Skip(s[at..]);
            n < |s| && AllSpace(s[at..n]) && !IsSpace(s[n]) && s[n..] == Strip(s[at..])
  {
    var rest := s[at..];
    var k := Skip(rest);
    assert rest[|rest| - 1] == s[|s| - 1];
    assert k > 0 ==> rest[..k][k - 1] == rest[k - 1];
    var n := at + k;
    assert s[at..n] == rest[..k] && s[n] == rest[k] && s[n..] == rest[k..];
    assert s[n..][|s[n..]| - 1] == s[|s| - 1];
  }

  lemma CutHere(s: string)
    requires Stripped(s) && |s| > LIMIT
    ensures exists n: nat | n < |s| :: CutOnce(Strip(s[..CutOf(s)]), s, n) && s[n..] == Strip(s[CutOf(s)..])
  {
    hide Strip, Skip;
    var at := CutOf(s);
    var part, n := Strip(s[..at]), at + Skip(s[at..]);
    FrontTrimmed(s, at);
    RestSkipped(s, at);
    assert s[|part|..n] == s[|part|..at] + s[at..n];
    if n == |part| { assert s[at] != ' '; }
    assert CutOnce(part, s, n);
  }

  lemma {:induction false} HardSplitCutsAtSpaces(s: string)
    requires Stripped(s)
    ensures CutAtSpaces(HardSplitOf(s), s)
    decreases |s|
  {
    hide Strip, CutOf, CutOnce;
    if |s| > LIMIT {
      var rest := Strip(s[CutOf(s)..]);
      StrippedStays(s[CutOf(s)..]);
      HardSplitCutsAtSpaces(rest);
      CutHere(s);
      var n: nat :| n < |s| && CutOnce(Strip(s[..CutOf(s)]), s, n) && s[n..] == rest;
      NeverEmpty(rest);
      PartIsSegment(s, CutOf(s));
      assert HardSplitOf(s)[1..] == HardSplitOf(rest);
    }
  }

  lemma NeverEmpty(s: string)
    requires s != "" && Stripped(s)
    ensures HardSplitOf(s) != []
  {
    hide Strip;
    if |s| > LIMIT { PartIsSegment(s, CutOf(s)); }
  }

  lemma {:induction false} OfParagraphsConcat(a: seq<string>, b: seq<string>)
    ensures OfParagraphs(a + b) == OfParagraphs(a) + OfParagraphs(b)
  {
    hide OfParagraph;
    if b == [] {
      assert a + b == a;
    } else {
      assert (a + b)[..|a + b| - 1] == a + b[..|b| - 1];
      OfParagraphsConcat(a, b[..|b| - 1]);
    }
  }

  lemma {:induction false} OfSentencesConcat(a: seq<string>, b: seq<string>)
    ensures OfSentences(a + b) == OfSentences(a) + OfSentences(b)
  {
    hide OfSentence;
    if b == [] {
      assert a + b == a;
    } else {
      assert (a + b)[..|a + b| - 1] == a + b[..|b| - 1];
      OfSentencesConcat(a, b[..|b| - 1]);
    }
  }

  lemma Rejoined<T>(all: seq<T>, k: nat)
    requires k < |all|
    ensures all == all[..k] + [all[k]] + all[k + 1..]
  {
  }

  lemma OfParagraphsMore(front: seq<string>, last: string)
    ensures OfParagraphs(front + [last]) == OfParagraphs(front) + OfParagraph(last)
  {
    hide OfParagraph;
    assert (front + [last])[..|front|] == front;
  }

  lemma OfParagraphsAround(all: seq<string>, k: nat)
    requires k < |all|
    ensures OfParagraphs(all) == OfParagraphs(all[..k]) + OfParagraph(all[k]) + OfParagraphs(all[k + 1..])
  {
    hide OfParagraph, OfParagraphs;
    OfParagraphsMore(all[..k], all[k]);
    OfParagraphsConcat(all[..k] + [all[k]], all[k + 1..]);
    Rejoined(all, k);
  }

  /** A paragraph that fits is one segment, between those of the paragraphs around it. */
  lemma ParagraphStaysWhole(text: string, k: nat)
    requires k < |Paragraphs(text)|
    requires var p := Strip(Paragraphs(text)[k]); p != "" && Tokens(|p|) <= MAX_SEGMENT_TOKENS
    ensures Segmented(text)
            == OfParagraphs(Paragraphs(text)[..k]) + [Strip(Paragraphs(text)[k])]
                + OfParagraphs(Paragraphs(text)[k + 1..])
  {
    hide Strip, Paragraphs, OfParagraphs;
    OfParagraphsAround(Paragraphs(text), k);
  }

  lemma OfSentencesMore(front: seq<string>, last: string)
    ensures OfSentences(front + [last]) == OfSentences(front) + OfSentence(last)
  {
    hide OfSentence;
    assert (front + [last])[..|front|] == front;
  }

  lemma OfSentencesAround(all: seq<string>, k: nat)
    requires k < |all|
    ensures OfSentences(all) == OfSentences(all[..k]) + OfSentence(all[k]) + OfSentences(all[k + 1..])
  {
    hide OfSentence, OfSentences;
    OfSentencesMore(all[..k], all[k]);
    OfSentencesConcat(all[..k] + [all[k]], all[k + 1..]);
    Rejoined(all, k);
  }

  /** So is a sentence that fits, in a paragraph that does not. */
  lemma SentenceStaysWhole(paragraph: string, k: nat)
    requires k < |Sentences(paragraph)|
    requires var s := Strip(Sentences(paragraph)[k]); s != "" && Tokens(|s|) <= MAX_SEGMENT_TOKENS
    ensures OfSentences(Sentences(paragraph))
            == OfSentences(Sentences(paragraph)[..k]) + [Strip(Sentences(paragraph)[k])]
               + OfSentences(Sentences(paragraph)[k + 1..])
  {
    hide Strip, Sentences, OfSentences;
    OfSentencesAround(Sentences(paragraph), k);
  }

  /** How a segment came to be: a whole paragraph; a whole sentence of one that does not fit; or
      a piece of a sentence that does not fit either, cut at spaces. */
  ghost predicate AsWholeAsFits(segment: string, paragraph: string) {
    var p := Strip(paragraph);
    if Tokens(|p|) <= MAX_SEGMENT_TOKENS then segment == p
    else exists k :: 0 <= k < |Sentences(p)| && AsWhole(segment, Strip(Sentences(p)[k]))
  }

  ghost predicate AsWhole(segment: string, s: string) {
    if Tokens(|s|) <= MAX_SEGMENT_TOKENS then segment == s
    else exists pieces :: segment in pieces && CutAtSpaces(pieces, s)
  }

  lemma {:induction false} SentencesAsWhole(sentences: seq<string>, j: nat)
    requires j < |OfSentences(sentences)|
    ensures exists k :: 0 <= k < |sentences| && AsWhole(OfSentences(sentences)[j], Strip(sentences[k]))
  {
    hide Strip, CutAtSpaces, HardSplitOf;
    var n := |sentences| - 1;
    var before := OfSentences(sentences[..n]);
    if j < |before| {
      SentencesAsWhole(sentences[..n], j);
      var k :| 0 <= k < n && AsWhole(before[j], Strip(sentences[..n][k]));
      assert sentences[..n][k] == sentences[k];
    } else {
      var s := Strip(sentences[n]);
      assert OfSentences(sentences)[j] == OfSentence(sentences[n])[j - |before|];
      StrippedStays(sentences[n]);
      if Tokens(|s|) > MAX_SEGMENT_TOKENS { HardSplitCutsAtSpaces(s); }
      assert AsWhole(OfSentences(sentences)[j], s);
    }
  }

  lemma {:induction false} ParagraphsAsWhole(paragraphs: seq<string>, j: nat)
    requires j < |OfParagraphs(paragraphs)|
    ensures exists k :: 0 <= k < |paragraphs| && AsWholeAsFits(OfParagraphs(paragraphs)[j], paragraphs[k])
  {
    hide Strip, AsWhole, OfSentences, Sentences;
    var n := |paragraphs| - 1;
    var before := OfParagraphs(paragraphs[..n]);
    if j < |before| {
      ParagraphsAsWhole(paragraphs[..n], j);
      var k :| 0 <= k < n && AsWholeAsFits(before[j], paragraphs[..n][k]);
      assert paragraphs[..n][k] == paragraphs[k];
    } else {
      var p := Strip(paragraphs[n]);
      assert OfParagraphs(paragraphs)[j] == OfParagraph(paragraphs[n])[j - |before|];
      if Tokens(|p|) > MAX_SEGMENT_TOKENS { SentencesAsWhole(Sentences(p), j - |before|); }
      assert AsWholeAsFits(OfParagraphs(paragraphs)[j], paragraphs[n]);
    }
  }

  /** Every segment of every document is as whole as fits. */
  lemma CutOnlyWhenTooLarge(text: string, j: nat)
    requires j < |Segmented(text)|
    ensures exists k :: 0 <= k < |Paragraphs(text)| && AsWholeAsFits(Segmented(text)[j], Paragraphs(text)[k])
  {
    hide AsWholeAsFits, Paragraphs;
    ParagraphsAsWhole(Paragraphs(text), j);
  }
}
