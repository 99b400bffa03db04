/** A reader of the cross-reference layout: sections 7.3.8, 7.5.4, 7.5.5 and 7.7 of ISO 32000-1.
    It starts at the end of a file and follows offsets and references from there, through the
    document catalog and the page tree to the first page's content. */
module PdfReader {
  import opened Common
  import opened Decimal
  import PdfStrings

  const KEYWORD := "startxref\n"
  const END := "\n%%EOF\n"
  const TABLE := "xref\n0 "
  const IN_USE := " 00000 n \n"
  const TRAILER := "trailer\n"
  const ROOT_KEY := "/Root "
  const PAGES_KEY := "/Pages "
  const KIDS_KEY := "/Kids ["
  const CONTENTS_KEY := "/Contents "
  const LENGTH_KEY := "/Length "
  const REFERENCE := " 0 R"
  const STREAM := "stream\n"
  const ENDSTREAM := "\nendstream"

  predicate At(file: string, pos: nat, text: string) {
    pos + |text| <= |file| && forall i | 0 <= i < |text| :: file[pos + i] == text[i]
  }

  /** The number printed between `startxref` and the end-of-file marker. */
  function StartXref(file: string): Option<nat> {
    if |file| < |END| || !At(file, |file| - |END|, END) then None
    else
      var digits := TrailingDigits(file[..|file| - |END|]);
      var from := |file| - |END| - |digits|;
      if digits != "" && from >= 10 && At(file, from - 10, KEYWORD) then Some(Parse(digits)) else None
  }

  /** Where the entries start, and how many the table declares. */
  function TableOf(file: string): Option<(nat, nat)> {
    match StartXref(file)
    case None => None
    case Some(xref) =>
      if !At(file, xref, TABLE) then None
      else
        var digits := LeadingDigits(file[xref + |TABLE|..]);
        var after := xref + |TABLE| + |digits|;
        if digits != "" && At(file, after, "\n") then Some((after + 1, Parse(digits))) else None
  }

  /** The byte offset entry `k` records: each entry is 20 bytes, ten of them digits. */
  function EntryOffset(file: string, k: nat): Option<nat> {
    match TableOf(file)
    case None => None
    case Some(table) =>
      var pos := table.0 + 20 * k;
      if k < table.1 && pos + 20 <= |file| && AllDigits(file[pos..pos + 10]) && At(file, pos + 10, IN_USE)
      then Some(Parse(file[pos..pos + 10])) else None
  }

  /** The offset of object `k`, checked against the object header found there. */
  function ObjectOffset(file: string, k: nat): Option<nat> {
    match EntryOffset(file, k)
    case None => None
    case Some(pos) => if At(file, pos, Print(k) + " 0 obj\n") then Some(pos) else None
  }

  /** The first place from `pos` on where a text stands. */
  function Find(file: string, pos: nat, text: string): (r: Option<nat>)
    ensures r.Some? ==> pos <= r.value && At(file, r.value, text)
    decreases |file| - pos
  {
    if pos + |text| > |file| then None
    else if At(file, pos, text) then Some(pos)
    else if pos < |file| then Find(file, pos + 1, text)
    else None
  }

  /** The number printed after the first key of this name, and where it ends. */
  function NumberAfter(file: string, pos: nat, key: string): Option<(nat, nat)> {
    match Find(file, pos, key)
    case None => None
    case Some(at) =>
      var digits := LeadingDigits(file[at + |key|..]);
      if digits != "" then Some((Parse(digits), at + |key| + |digits|)) else None
  }

  /** The object the first key of this name refers to. */
  function Reference(file: string, pos: nat, key: string): Option<nat> {
    match NumberAfter(file, pos, key)
    case None => None
    case Some(n) => if At(file, n.1, REFERENCE) then Some(n.0) else None
  }

  /** What frames the objects: the header first, the free entry at the head of the table, and a
      trailer whose `/Size` is the number of entries the table declares. */
  predicate Framed(file: string) {
    match TableOf(file)
    case None => false
    case Some(table) =>
      && At(file, 0, "%PDF-1.4\n") && At(file, table.0, "0000000000 65535 f \n")
      && match NumberAfter(file, table.0 + 20 * table.1, "/Size ")
         case None => false
         case Some(size) => size.0 == table.1
  }

  /** The catalog, named by the trailer that follows the table. */
  function RootOf(file: string): Option<nat> {
    match TableOf(file)
    case None => None
    case Some(table) =>
      var end := table.0 + 20 * table.1;
      if At(file, end, TRAILER) then Reference(file, end, ROOT_KEY) else None
  }

  /** The object an entry of object `k` refers to. */
  function Follow(file: string, k: Option<nat>, key: string): Option<nat> {
    match k
    case None => None
    case Some(number) =>
      match ObjectOffset(file, number)
      case None => None
      case Some(pos) => Reference(file, pos, key)
  }

  /** The content of the first page. */
  function ContentOf(file: string): Option<nat> {
    Follow(file, Follow(file, Follow(file, RootOf(file), PAGES_KEY), KIDS_KEY), CONTENTS_KEY)
  }

  /** As many bytes as `length` says, between the keywords `stream` and `endstream`. */
  function Enclosed(file: string, pos: nat, length: nat): Option<string> {
    match Find(file, pos, STREAM)
    case None => None
    case Some(at) =>
      var start := at + |STREAM|;
      var end := start + length;
      if At(file, end, ENDSTREAM) then Some(file[start..end]) else None
  }

  /** The bytes of stream object `k`. */
  function StreamOf(file: string, k: nat): Option<string> {
    match ObjectOffset(file, k)
    case None => None
    case Some(pos) =>
      match NumberAfter(file, pos, LENGTH_KEY)
      case None => None
      case Some(length) => Enclosed(file, length.1, length.0)
  }

  /** The text lines of a file's first page. */
  function Lines(file: string): Option<seq<string>> {
    match ContentOf(file)
    case None => None
    case Some(k) =>
      match StreamOf(file, k)
      case None => None
      case Some(content) => PdfStrings.Shown(content)
  }

  lemma AtMiddle(a: string, b: string, c: string)
    ensures At(a + b + c, |a|, b)
  {
  }

  lemma AtWithin(file: string, pos: nat, a: string, b: string)
    ensures At(file, pos, a + b) <==> At(file, pos, a) && At(file, pos + |a|, b)
  {
    if At(file, pos, a + b) {
      forall i | 0 <= i < |a| ensures file[pos + i] == a[i] { assert (a + b)[i] == a[i]; }
      forall i | 0 <= i < |b| ensures file[pos + |a| + i] == b[i] { assert (a + b)[|a| + i] == b[i]; }
    }
  }

  lemma AtNested(file: string, pos: nat, block: string, inner: nat, text: string)
    requires At(file, pos, block) && At(block, inner, text)
    ensures At(file, pos + inner, text)
  {
    forall i | 0 <= i < |text| ensures file[pos + inner + i] == text[i] {
      assert block[inner + i] == text[i];
    }
  }

  lemma AtIsSlice(file: string, pos: nat, text: string)
    ensures At(file, pos, text) <==> pos + |text| <= |file| && file[pos..pos + |text|] == text
  {
    if pos + |text| <= |file| && file[pos..pos + |text|] == text {
      forall i | 0 <= i < |text| ensures file[pos + i] == text[i] {
        assert file[pos..pos + |text|][i] == text[i];
      }
    }
  }

  lemma StartXrefOf(before: string, xref: nat)
    ensures StartXref(before + KEYWORD + Print(xref) + END) == Some(xref)
  {
    hide Print, Parse, TrailingDigits, At;
    var upto := before + KEYWORD;
    var digits := Print(xref);
    var file := upto + digits + END;
    ParsePrint(xref);
    assert |KEYWORD| == 10 && |END| == 7 && KEYWORD[9] == '\n';
    assert upto[|upto| - 1] == '\n';
    TrailingDigitsOf(upto, digits);
    assert file[..|file| - 7] == upto + digits;
    AtMiddle(upto + digits, END, "");
    assert upto + digits + END + "" == file;
    AtMiddle(before, KEYWORD, digits + END);
    assert before + KEYWORD + (digits + END) == file;
  }

  lemma LeadingDigitsAt(file: string, pos: nat, d: string, after: string)
    requires AllDigits(d) && after != "" && !IsDigit(after[0])
    requires At(file, pos, d) && At(file, pos + |d|, after)
    ensures LeadingDigits(file[pos..]) == d
  {
    var rest := file[pos + |d|..];
    AtIsSlice(file, pos, d);
    assert rest[0] == after[0];
    assert file[pos..] == d + rest;
    LeadingDigitsOf(d, rest);
  }

  /** The table is read wherever it starts, given what `startxref` says. */
  lemma TableAt(file: string, xref: nat, size: nat)
    requires StartXref(file) == Some(xref)
    requires At(file, xref, TABLE + Print(size) + "\n")
    ensures TableOf(file) == Some((xref + |TABLE| + |Print(size)| + 1, size))
  {
    hide At, Parse, Print, LeadingDigits, StartXref;
    ParsePrint(size);
    AtWithin(file, xref, TABLE + Print(size), "\n");
    AtWithin(file, xref, TABLE, Print(size));
    LeadingDigitsAt(file, xref + |TABLE|, Print(size), "\n");
  }

  lemma EntryAt(file: string, k: nat, table: (nat, nat), offset: nat)
    requires TableOf(file) == Some(table) && k < table.1
    requires At(file, table.0 + 20 * k, PadTo(10, offset) + IN_USE)
    requires offset < Pow10(10)
    ensures EntryOffset(file, k) == Some(offset)
  {
    hide At, Parse, PadTo, TableOf, AllDigits;
    var pos := table.0 + 20 * k;
    ParsePad(10, offset);
    PadWidth(10, offset);
    AtWithin(file, pos, PadTo(10, offset), IN_USE);
    AtIsSlice(file, pos, PadTo(10, offset));
    AtIsSlice(file, pos + 10, IN_USE);
    assert |IN_USE| == 10;
  }

  /** A text is found past another that lacks its second character. */
  lemma {:induction false} FindAt(file: string, pos: nat, before: string, text: string)
    requires |text| >= 2 && text[0] != text[1] && text[1] !in before
    requires At(file, pos, before + text)
    ensures Find(file, pos, text) == Some(pos + |before|)
    decreases |before|
  {
    AtWithin(file, pos, before, text);
    if before == "" {
      assert "" + text == text;
    } else {
      assert before + text == [before[0]] + (before[1..] + text);
      AtWithin(file, pos, [before[0]], before[1..] + text);
      FindAt(file, pos + 1, before[1..], text);
      assert file[pos + 1] == (before + text)[1];
      if |before| == 1 { assert file[pos + 1] == text[0]; } else { assert file[pos + 1] == before[1]; }
    }
  }

  lemma NumberAt(file: string, pos: nat, before: string, key: string, n: nat, after: string)
    requires |key| >= 2 && key[0] != key[1] && key[1] !in before
    requires after != "" && !IsDigit(after[0])
    requires At(file, pos, before + key + Print(n) + after)
    ensures NumberAfter(file, pos, key) == Some((n, pos + |before| + |key| + |Print(n)|))
    ensures At(file, pos + |before| + |key| + |Print(n)|, after)
  {
    hide At, Find, Print, Parse, LeadingDigits;
    AtWithin(file, pos, before + key + Print(n), after);
    AtWithin(file, pos, before + key, Print(n));
    AtWithin(file, pos, before, key);
    FindAt(file, pos, before, key);
    ParsePrint(n);
    AtIsSlice(file, pos + |before| + |key|, Print(n));
    LeadingDigitsAt(file, pos + |before| + |key|, Print(n), after);
  }

  lemma ReferenceAt(file: string, pos: nat, before: string, key: string, n: nat, after: string)
    requires |key| >= 2 && key[0] != key[1] && key[1] !in before
    requires At(file, pos, before + key + Print(n) + (REFERENCE + after))
    ensures Reference(file, pos, key) == Some(n)
  {
    hide At, NumberAfter, Print;
    assert (REFERENCE + after)[0] == ' ';
    NumberAt(file, pos, before, key, n, REFERENCE + after);
    AtWithin(file, pos + |before| + |key| + |Print(n)|, REFERENCE, after);
  }

  lemma EnclosedAt(file: string, pos: nat, before: string, body: string)
    requires 't' !in before && At(file, pos, before + STREAM + body + ENDSTREAM)
    ensures Enclosed(file, pos, |body|) == Some(body)
  {
    hide At, Find;
    AtWithin(file, pos, before + STREAM + body, ENDSTREAM);
    AtWithin(file, pos, before + STREAM, body);
    assert STREAM[0] == 's' && STREAM[1] == 't';
    FindAt(file, pos, before, STREAM);
    AtIsSlice(file, pos + |before| + |STREAM|, body);
  }
}
