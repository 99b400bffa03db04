/** `a_pdf`: a minimal PDF, with the byte offset of every object recorded as it is written. */
module PdfWriter {
  import opened Common
  import opened Decimal
  import opened PdfReader
  import opened PdfStrings

  const HEADER := "%PDF-1.4\n"
  const SHOW := " Tj 0 -16 Td"
  const START := "BT /F1 12 Tf 72 720 Td "
  const STOP := " ET"
  const FREE_ENTRY := "0000000000 65535 f \n"

  // ----- the content stream --------------------------------------------------------------

  function Show(line: string): string {
    "(" + Escape(line) + ")" + SHOW
  }

  /** `" ".join(...)` */
  function Joined(lines: seq<string>): string {
    if lines == [] then ""
    else if |lines| == 1 then Show(lines[0])
    else Show(lines[0]) + " " + Joined(lines[1..])
  }

  function Content(lines: seq<string>): string {
    START + Joined(lines) + STOP
  }

  predicate Latin1(text: string) {
    forall c | c in text :: c as int < 256
  }

  function NormalisedLines(lines: seq<string>): seq<string> {
    seq(|lines|, i requires 0 <= i < |lines| => Normalised(lines[i]))
  }

  lemma {:induction false} ShownSkips(plain: string, rest: string)
    requires '(' !in plain
    ensures Shown(plain + rest) == Shown(rest)
  {
    if plain == "" {
      assert plain + rest == rest;
    } else {
      ShownSkips(plain[1..], rest);
      assert (plain + rest)[1..] == plain[1..] + rest;
    }
  }

  lemma ShownLine(line: string, rest: string)
    ensures Shown(Show(line) + rest) ==
      match Shown(rest) case None => None case Some(more) => Some([Normalised(line)] + more)
  {
    var tail := SHOW + rest;
    var s := Show(line) + rest;
    EscapeIsPerCharacter(line);
    assert s[1..] == Closed(line, tail);
    EscapedTextDecodes(line, tail);
    assert " Tj" <= tail by { assert tail[..3] == " Tj"; }
    ShownSkips(SHOW, rest);
  }

  lemma ShownLineThen(line: string, rest: string, more: seq<string>)
    requires Shown(rest) == Some(more)
    ensures Shown(Show(line) + rest) == Some([Normalised(line)] + more)
  {
    ShownLine(line, rest);
  }

  lemma {:induction false} ShownJoined(lines: seq<string>, rest: string)
    requires Shown(rest) == Some([])
    ensures Shown(Joined(lines) + rest) == Some(NormalisedLines(lines))
  {
    if lines == [] {
      assert Joined(lines) + rest == rest;
    } else if |lines| == 1 {
      ShownLineThen(lines[0], rest, []);
      assert NormalisedLines(lines) == [Normalised(lines[0])] + [];
    } else {
      var last := Joined(lines[1..]) + rest;
      ShownJoined(lines[1..], rest);
      ShownSkips(" ", last);
      ShownLineThen(lines[0], " " + last, NormalisedLines(lines[1..]));
      JoinedRegroup(Show(lines[0]), Joined(lines[1..]), rest);
      assert NormalisedLines(lines) == [Normalised(lines[0])] + NormalisedLines(lines[1..]);
    }
  }

  lemma JoinedRegroup(shown: string, joined: string, rest: string)
    ensures shown + " " + joined + rest == shown + (" " + (joined + rest))
  {
  }

  lemma ShownContent(lines: seq<string>)
    ensures Shown(Content(lines)) == Some(NormalisedLines(lines))
  {
    ShownSkips(STOP, "");
    assert STOP + "" == STOP;
    ShownJoined(lines, STOP);
    ShownSkips(START, Joined(lines) + STOP);
    WrappedRegroup(START, Joined(lines), STOP);
  }

  // ----- the file ------------------------------------------------------------------------

  function StreamObject(body: string): string {
    "<< /Length " + Print(|body|) + " >>\nstream\n" + body + "\nendstream"
  }

  const CATALOG := "<< /Type /Catalog " + "/Pages " + "2 0 R >>"
  const PAGES := "<< /Type /Pages " + "/Kids [" + "3 0 R] /Count 1 >>"
  const PAGE := PAGE_START + "/Contents " + "4 0 R >>"
  const PAGE_START := "<< /Type /Page /Parent 2 0 R " + "/MediaBox [0 0 612 792] "
                      + "/Resources << /Font " + "<< /F1 5 0 R >> >> "
  const FONT := "<< /Type /Font /Subtype /Type1 " + "/BaseFont /Helvetica >>"

  function Objects(body: string): seq<string> {
    [CATALOG, PAGES, PAGE, StreamObject(body), FONT]
  }

  function Wrapped(k: nat, object_: string): string {
    Print(k) + " 0 obj\n" + object_ + "\nendobj\n"
  }

  /** The file up to and including object `k`. */
  function Front(objects: seq<string>, k: nat): string
    requires k <= |objects|
  {
    if k == 0 then HEADER else Front(objects, k - 1) + Wrapped(k, objects[k - 1])
  }

  function Entry(offset: nat): string {
    PadTo(10, offset) + IN_USE
  }

  /** The in-use entries of objects 1 to `k`. */
  function Entries(objects: seq<string>, k: nat): string
    requires k <= |objects|
  {
    if k == 0 then "" else Entries(objects, k - 1) + Entry(|Front(objects, k - 1)|)
  }

  function TableHead(n: nat): string {
    TABLE + Print(n + 1) + "\n"
  }

  function TrailerDictionary(n: nat): string {
    "trailer\n<< /Size " + Print(n + 1) + " /Root 1 0 R >>\n"
  }

  function Trailer(n: nat, xref: nat): string {
    TrailerDictionary(n) + KEYWORD + Print(xref) + END
  }

  function File(objects: seq<string>): string {
    var n := |objects|;
    Front(objects, n) + TableHead(n) + FREE_ENTRY + Entries(objects, n) + Trailer(n, |Front(objects, n)|)
  }

  /** The ten digits of an entry can hold every offset the file records. */
  predicate OffsetsFit(objects: seq<string>) {
    objects == [] || |Front(objects, |objects| - 1)| < Pow10(10)
  }

  lemma {:induction false} FrontGrows(objects: seq<string>, k: nat, m: nat)
    requires k <= m <= |objects|
    ensures Front(objects, k) <= Front(objects, m)
    ensures k < m ==> |Front(objects, k)| < |Front(objects, m)|
  {
    if k < m { FrontGrows(objects, k, m - 1); }
  }

  lemma {:induction false} EntriesAreTwentyBytes(objects: seq<string>, k: nat)
    requires k <= |objects| && OffsetsFit(objects)
    ensures |Entries(objects, k)| == 20 * k
  {
    if k > 0 {
      EntriesAreTwentyBytes(objects, k - 1);
      FrontGrows(objects, k - 1, |objects| - 1);
      PadWidth(10, |Front(objects, k - 1)|);
    }
  }

  lemma AtPrefix(a: string, b: string, pos: nat, text: string)
    requires At(a, pos, text)
    ensures At(a + b, pos, text)
  {
    assert (a + b)[pos..pos + |text|] == a[pos..pos + |text|];
  }

  lemma {:induction false} EntryIsAt(objects: seq<string>, k: nat, m: nat)
    requires 1 <= k <= m <= |objects| && OffsetsFit(objects)
    ensures At(Entries(objects, m), 20 * (k - 1), Entry(|Front(objects, k - 1)|))
    ensures |Entry(|Front(objects, k - 1)|)| == 20
  {
    FrontGrows(objects, k - 1, |objects| - 1);
    PadWidth(10, |Front(objects, k - 1)|);
    EntriesAreTwentyBytes(objects, m - 1);
    if k < m {
      EntryIsAt(objects, k, m - 1);
      AtPrefix(Entries(objects, m - 1), Entry(|Front(objects, m - 1)|), 20 * (k - 1), Entry(|Front(objects, k - 1)|));
    } else {
      AtMiddle(Entries(objects, m - 1), Entry(|Front(objects, m - 1)|), "");
      assert Entries(objects, m) + "" == Entries(objects, m);
    }
  }

  lemma Regroup(front: string, dict: string, key: string, digits: string, end: string)
    ensures front + (dict + key + digits + end) == front + dict + key + digits + end
  {
  }

  lemma ReaderFindsStart(objects: seq<string>)
    ensures StartXref(File(objects)) == Some(|Front(objects, |objects|)|)
  {
    var n := |objects|;
    var xref := |Front(objects, n)|;
    var before := Front(objects, n) + TableHead(n) + FREE_ENTRY + Entries(objects, n);
    Regroup(before, TrailerDictionary(n), KEYWORD, Print(xref), END);
    StartXrefOf(before + TrailerDictionary(n), xref);
  }

  lemma ReaderFindsTable(objects: seq<string>)
    ensures TableOf(File(objects)) == Some((|Front(objects, |objects|)| + |TableHead(|objects|)|, |objects| + 1))
  {
    hide Front, Entries, Print, At, TableOf, StartXref, Trailer;
    var n := |objects|;
    ReaderFindsStart(objects);
    FileParts(Front(objects, n), TableHead(n), FREE_ENTRY, Entries(objects, n), Trailer(n, |Front(objects, n)|));
    TableAt(File(objects), |Front(objects, n)|, n + 1);
  }

  lemma FileParts(front: string, head: string, free: string, entries: string, trailer: string)
    ensures At(front + head + free + entries + trailer, 0, front)
    ensures At(front + head + free + entries + trailer, |front|, head)
    ensures At(front + head + free + entries + trailer, |front| + |head|, free)
    ensures At(front + head + free + entries + trailer, |front| + |head| + |free|, entries)
  {
    var file := front + head + free + entries + trailer;
    assert At(file, 0, file);
    AtWithin(file, 0, front + head + free + entries, trailer);
    AtWithin(file, 0, front + head + free, entries);
    AtWithin(file, 0, front + head, free);
    AtWithin(file, 0, front, head);
  }

  lemma ObjectInFront(objects: seq<string>, k: nat)
    requires 1 <= k <= |objects|
    ensures At(Front(objects, |objects|), |Front(objects, k - 1)|, Wrapped(k, objects[k - 1]))
  {
    hide Wrapped, At;
    var front := Front(objects, |objects|);
    var upto := Front(objects, k);
    FrontGrows(objects, k, |objects|);
    AtMiddle(Front(objects, k - 1), Wrapped(k, objects[k - 1]), "");
    assert Front(objects, k - 1) + Wrapped(k, objects[k - 1]) + "" == upto;
    AtPrefix(upto, front[|upto|..], |Front(objects, k - 1)|, Wrapped(k, objects[k - 1]));
    assert front == upto + front[|upto|..];
  }

  /** A reader that follows `startxref` and entry `k` lands on object `k`. */
  lemma ReaderFindsObject(objects: seq<string>, k: nat)
    requires 1 <= k <= |objects| && OffsetsFit(objects)
    ensures ObjectOffset(File(objects), k) == Some(|Front(objects, k - 1)|)
    ensures At(File(objects), |Front(objects, k - 1)|, Wrapped(k, objects[k - 1]))
  {
    hide Front, Entries, Print, PadTo, At, TableOf, Trailer, EntryOffset;
    var n := |objects|;
    var file := File(objects);
    var offset := |Front(objects, k - 1)|;
    ReaderFindsTable(objects);
    FileParts(Front(objects, n), TableHead(n), FREE_ENTRY, Entries(objects, n), Trailer(n, |Front(objects, n)|));
    EntryIsAt(objects, k, n);
    assert |FREE_ENTRY| == 20;
    var base := |Front(objects, n)| + |TableHead(n)|;
    AtNested(file, base + 20, Entries(objects, n), 20 * (k - 1), Entry(offset));
    FrontGrows(objects, k - 1, n - 1);
    EntryAt(file, k, (base, n + 1), offset);
    ObjectInFront(objects, k);
    AtNested(file, 0, Front(objects, n), offset, Wrapped(k, objects[k - 1]));
    AtWithin(file, offset, Print(k) + " 0 obj\n", objects[k - 1] + "\nendobj\n");
    WrappedRegroup(Print(k) + " 0 obj\n", objects[k - 1], "\nendobj\n");
  }

  lemma WrappedRegroup(a: string, b: string, c: string)
    ensures a + b + c == a + (b + c)
  {
  }

  // ----- the whole thing ------------------------------------------------------------------

  /** The bytes `a_pdf` returns, or `None` when a line cannot be encoded. */
  function Pdf(lines: seq<string>): Option<string> {
    if Latin1(Content(lines)) then Some(File(Objects(Content(lines)))) else None
  }

  lemma NotInDigits(n: nat, c: char)
    requires !IsDigit(c)
    ensures c !in Print(n)
  {
    hide Print;
    ParsePrint(n);
  }

  lemma StreamIsContent(objects: seq<string>, k: nat, body: string)
    requires 1 <= k <= |objects| && objects[k - 1] == StreamObject(body) && OffsetsFit(objects)
    ensures StreamOf(File(objects), k) == Some(body)
  {
    hide Front, File, Print, At, NumberAfter, ObjectOffset, Wrapped, StreamObject, Enclosed;
    ReaderFindsObject(objects, k);
    var pos := |Front(objects, k - 1)|;
    var before, after := Print(k) + " 0 obj\n<< ", " >>\nstream\n" + body + "\nendstream" + "\nendobj\n";
    WrappedStreamObject(k, body);
    NotInDigits(k, 'L');
    assert after[0] == ' ';
    NumberAt(File(objects), pos, before, LENGTH_KEY, |body|, after);
    var end := pos + |before| + |LENGTH_KEY| + |Print(|body|)|;
    StreamRegroup(body);
    AtWithin(File(objects), end, " >>\n" + STREAM + body + ENDSTREAM, "\nendobj\n");
    EnclosedAt(File(objects), end, " >>\n", body);
  }

  lemma StreamRegroup(body: string)
    ensures " >>\nstream\n" + body + "\nendstream" + "\nendobj\n"
            == " >>\n" + STREAM + body + ENDSTREAM + "\nendobj\n"
  {
    assert " >>\nstream\n" == " >>\n" + STREAM;
  }

  lemma WrappedStream(k: string, header: string, open: string, key: string, length: string, stream: string,
                      body: string, endstream: string, end: string)
    ensures k + header + (open + key + length + stream + body + endstream) + end
         == k + (header + open) + key + length + (stream + body + endstream + end)
  {
  }

  lemma WrappedStreamObject(k: nat, body: string)
    ensures Wrapped(k, StreamObject(body))
            == Print(k) + " 0 obj\n<< " + LENGTH_KEY + Print(|body|)
                + (" >>\nstream\n" + body + "\nendstream" + "\nendobj\n")
  {
    hide Print;
    WrappedStream(Print(k), " 0 obj\n", "<< ", LENGTH_KEY, Print(|body|), " >>\nstream\n", body,
                  "\nendstream", "\nendobj\n");
    assert "<< /Length " == "<< " + LENGTH_KEY;
    assert " 0 obj\n" + "<< " == " 0 obj\n<< ";
  }

  // ----- from the trailer to the content -------------------------------------------------

  lemma FollowsEntry(objects: seq<string>, k: nat, before: string, key: string, n: nat, after: string)
    requires 1 <= k <= |objects| && OffsetsFit(objects)
    requires objects[k - 1] == before + key + (Print(n) + REFERENCE + after)
    requires |key| >= 2 && key[0] != key[1] && key[1] !in before && key[1] !in " 0 obj\n" && !IsDigit(key[1])
    ensures Follow(File(objects), Some(k), key) == Some(n)
  {
    hide Front, File, Print, At, Reference, ObjectOffset, Wrapped;
    ReaderFindsObject(objects, k);
    NotInDigits(k, key[1]);
    WrappedEntry(k, before, key, n, after);
    ReferenceAt(File(objects), |Front(objects, k - 1)|, Print(k) + " 0 obj\n" + before, key, n, after + "\nendobj\n");
  }

  lemma WrappedEntry(k: nat, before: string, key: string, n: nat, after: string)
    ensures Wrapped(k, before + key + (Print(n) + REFERENCE + after))
            == Print(k) + " 0 obj\n" + before + key + Print(n) + (REFERENCE + (after + "\nendobj\n"))
  {
    hide Print;
    EntryRegroup(Print(k) + " 0 obj\n", before, key, Print(n), REFERENCE, after, "\nendobj\n");
  }

  lemma EntryRegroup(a: string, before: string, key: string, digits: string, reference: string, after: string,
                     end: string)
    ensures a + (before + key + (digits + reference + after)) + end
         == a + before + key + digits + (reference + (after + end))
  {
  }

  lemma TrailerIsAt(objects: seq<string>)
    requires OffsetsFit(objects)
    ensures At(File(objects), |Front(objects, |objects|)| + |TableHead(|objects|)| + 20 * (|objects| + 1),
               Trailer(|objects|, |Front(objects, |objects|)|))
  {
    hide Front, Print, At;
    var n := |objects|;
    EntriesAreTwentyBytes(objects, n);
    assert |FREE_ENTRY| == 20;
    AtMiddle(Front(objects, n) + TableHead(n) + FREE_ENTRY + Entries(objects, n), Trailer(n, |Front(objects, n)|), "");
    assert File(objects) + "" == File(objects);
  }

  lemma TrailerParts(n: nat, xref: nat)
    ensures Trailer(n, xref) == TRAILER + "<< /Size " + Print(n + 1) + " " + ROOT_KEY + Print(1)
                                + (REFERENCE + (" >>\n" + KEYWORD + Print(xref) + END))
  {
    assert Print(1) == "1";
    hide Print;
    assert "trailer\n<< /Size " == TRAILER + "<< /Size ";
    assert " /Root 1 0 R >>\n" == " " + ROOT_KEY + "1" + REFERENCE + " >>\n";
    var before := TRAILER + "<< /Size " + Print(n + 1);
    TrailerRegroup(before, " ", ROOT_KEY, "1", REFERENCE, " >>\n", KEYWORD, Print(xref), END);
  }

  lemma TrailerRegroup(a: string, b: string, c: string, d: string, e: string, f: string, g: string, h: string,
                       i: string)
    ensures a + (b + c + d + e + f) + g + h + i == a + b + c + d + (e + (f + g + h + i))
  {
  }

  lemma ReaderFindsRoot(objects: seq<string>)
    requires OffsetsFit(objects)
    ensures RootOf(File(objects)) == Some(1)
  {
    hide Front, File, Print, At, Reference, TableOf, Trailer, TableHead;
    ReaderFindsTable(objects);
    TrailerIsAt(objects);
    var n, xref := |objects|, |Front(objects, |objects|)|;
    var pos := xref + |TableHead(n)| + 20 * (n + 1);
    TrailerParts(n, xref);
    var before, after := TRAILER + "<< /Size " + Print(n + 1) + " ", " >>\n" + KEYWORD + Print(xref) + END;
    NotInDigits(n + 1, 'R');
    ReferenceAt(File(objects), pos, before, ROOT_KEY, 1, after);
    TrailerStarts(n, xref);
    AtWithin(File(objects), pos, TRAILER, Trailer(n, xref)[|TRAILER|..]);
  }

  /** A reader finds the header, the table and the trailer to agree. */
  lemma FileIsFramed(objects: seq<string>)
    requires OffsetsFit(objects)
    ensures Framed(File(objects))
  {
    hide Entries, Print, At, NumberAfter, TableOf, Trailer, TableHead;
    var n, xref, file := |objects|, |Front(objects, |objects|)|, File(objects);
    ReaderFindsTable(objects);
    FrontGrows(objects, 0, n);
    FileParts(Front(objects, n), TableHead(n), FREE_ENTRY, Entries(objects, n), Trailer(n, xref));
    HeaderFirst(file, Front(objects, n));
    TrailerIsAt(objects);
    var pos := xref + |TableHead(n)| + 20 * (n + 1);
    TrailerParts(n, xref);
    var after := " " + ROOT_KEY + Print(1) + (REFERENCE + (" >>\n" + KEYWORD + Print(xref) + END));
    SizeRegroup(TRAILER, Print(n + 1), ROOT_KEY, Print(1), REFERENCE + (" >>\n" + KEYWORD + Print(xref) + END));
    assert after[0] == ' ';
    NumberAt(file, pos, TRAILER + "<< ", "/Size ", n + 1, after);
  }

  lemma HeaderFirst(file: string, front: string)
    requires HEADER <= front && At(file, 0, front)
    ensures At(file, 0, HEADER)
  {
    AtWithin(file, 0, HEADER, front[|HEADER|..]);
    assert front == HEADER + front[|HEADER|..];
  }

  lemma SizeRegroup(trailer: string, digits: string, key: string, one: string, rest: string)
    ensures trailer + "<< /Size " + digits + " " + key + one + rest
            == trailer + "<< " + "/Size " + digits + (" " + key + one + rest)
  {
    assert "<< /Size " == "<< " + "/Size ";
  }

  lemma TrailerStarts(n: nat, xref: nat)
    ensures |TRAILER| <= |Trailer(n, xref)| && Trailer(n, xref) == TRAILER + Trailer(n, xref)[|TRAILER|..]
  {
    hide Print, Trailer;
    TrailerParts(n, xref);
  }

  lemma CatalogIs()
    ensures CATALOG == "<< /Type /Catalog " + PAGES_KEY + (Print(2) + REFERENCE + " >>")
  {
    assert Print(2) == "2";
    assert "2 0 R >>" == "2" + REFERENCE + " >>";
  }

  lemma PagesIs()
    ensures PAGES == "<< /Type /Pages " + KIDS_KEY + (Print(3) + REFERENCE + "] /Count 1 >>")
  {
    assert Print(3) == "3";
    assert "3 0 R] /Count 1 >>" == "3" + REFERENCE + "] /Count 1 >>";
  }

  lemma PageIs()
    ensures PAGE == PAGE_START + CONTENTS_KEY + (Print(4) + REFERENCE + " >>")
  {
    assert Print(4) == "4";
    assert "4 0 R >>" == "4" + REFERENCE + " >>";
  }

  lemma CatalogLeadsOn(objects: seq<string>)
    requires |objects| == 5 && OffsetsFit(objects) && objects[0] == CATALOG && objects[1] == PAGES && objects[2] == PAGE
    ensures Follow(File(objects), Some(1), PAGES_KEY) == Some(2)
    ensures Follow(File(objects), Some(2), KIDS_KEY) == Some(3)
    ensures Follow(File(objects), Some(3), CONTENTS_KEY) == Some(4)
  {
    hide File, OffsetsFit, Follow, Print;
    CatalogIs();
    FollowsEntry(objects, 1, "<< /Type /Catalog ", PAGES_KEY, 2, " >>");
    PagesIs();
    FollowsEntry(objects, 2, "<< /Type /Pages ", KIDS_KEY, 3, "] /Count 1 >>");
    PageIs();
    NoCapitalC();
    FollowsEntry(objects, 3, PAGE_START, CONTENTS_KEY, 4, " >>");
  }

  /** From the trailer through catalog, page tree and page, a reader arrives at the content. */
  lemma ReaderFindsContent(body: string)
    requires OffsetsFit(Objects(body))
    ensures ContentOf(File(Objects(body))) == Some(4)
  {
    hide File, OffsetsFit, Follow, RootOf, StreamObject;
    ReaderFindsRoot(Objects(body));
    CatalogLeadsOn(Objects(body));
  }

  lemma NoCapitalC()
    ensures 'C' !in PAGE_START
  {
    assert 'C' !in "<< /Type /Page /Parent 2 0 R " && 'C' !in "/MediaBox [0 0 612 792] ";
    assert 'C' !in "/Resources << /Font " && 'C' !in "<< /F1 5 0 R >> >> ";
  }

  /** The reader recovers the lines, with raw line endings normalised. */
  lemma PdfReadsBack(lines: seq<string>)
    requires OffsetsFit(Objects(Content(lines)))
    ensures Lines(File(Objects(Content(lines)))) == Some(NormalisedLines(lines))
  {
    hide File, Content, OffsetsFit, ContentOf, StreamOf, Shown, NormalisedLines, StreamObject;
    ReaderFindsContent(Content(lines));
    StreamIsContent(Objects(Content(lines)), 4, Content(lines));
    ShownContent(lines);
  }

  /** Exactly the documents without a carriage return are read back unchanged. */
  lemma PdfRoundTrip(lines: seq<string>)
    requires OffsetsFit(Objects(Content(lines)))
    ensures Lines(File(Objects(Content(lines)))) == Some(lines)
       <==> forall i | 0 <= i < |lines| :: '\r' !in lines[i]
  {
    hide File, Objects, Content, OffsetsFit, Lines, Normalised;
    PdfReadsBack(lines);
    forall i | 0 <= i < |lines|
      ensures Normalised(lines[i]) == lines[i] <==> '\r' !in lines[i]
    {
      NormalisedIsIdentity(lines[i]);
    }
    if NormalisedLines(lines) == lines {
      forall i | 0 <= i < |lines| ensures '\r' !in lines[i] {
        assert NormalisedLines(lines)[i] == lines[i];
      }
    }
    if forall i | 0 <= i < |lines| :: '\r' !in lines[i] {
      assert NormalisedLines(lines) == lines;
    }
  }

  lemma ShortContentFits(body: string)
    requires |body| < 1000
    ensures OffsetsFit(Objects(body))
  {
    var objects := Objects(body);
    assert Print(1) == "1" && Print(2) == "2" && Print(3) == "3" && Print(4) == "4";
    assert Pow10(3) == 1000;
    PrintWidth(|body|, 3);
    FourObjects(objects, 1000);
    PowGrows();
  }

  lemma PowGrows()
    ensures Pow10(10) > 1_000_000
  {
    assert Pow10(4) == 10_000 && Pow10(6) == 100 * Pow10(4) && Pow10(8) == 100 * Pow10(6)
        && Pow10(10) == 100 * Pow10(8);
  }

  lemma FourObjects(objects: seq<string>, most: nat)
    requires |objects| == 5 && forall k | 0 <= k < 4 :: |objects[k]| <= most + 100
    ensures |Front(objects, 4)| <= 4 * (most + 200)
  {
    assert |Print(1)| == 1 && |Print(2)| == 1 && |Print(3)| == 1 && |Print(4)| == 1;
    hide Print;
    assert |HEADER| == 9;
    assert Front(objects, 1) == HEADER + Wrapped(1, objects[0]);
    assert Front(objects, 2) == Front(objects, 1) + Wrapped(2, objects[1]);
    assert Front(objects, 3) == Front(objects, 2) + Wrapped(3, objects[2]);
  }

  /** A line that is one carriage return comes back as a line feed. */
  lemma CarriageReturnIsLost()
    ensures Lines(File(Objects(Content(["\r"])))) == Some(["\n"])
  {
    hide File, Objects, OffsetsFit, Lines;
    NormalisedReturn();
    ContentOfOne("\r");
    ShortContentFits(Content(["\r"]));
    PdfReadsBack(["\r"]);
    assert NormalisedLines(["\r"]) == ["\n"];
  }

  lemma NormalisedReturn()
    ensures Normalised("\r") == "\n" && Escape("\r") == "\r"
  {
    EscapeIsPerCharacter("\r");
    assert "\r"[1..] == "";
  }

  lemma ContentOfOne(line: string)
    ensures |Content([line])| <= |Escape(line)| + 100
  {
  }

  /** Every file under ten gigabytes keeps its entries at twenty bytes. */
  lemma SmallFilesFit(objects: seq<string>)
    requires |File(objects)| < Pow10(10)
    ensures OffsetsFit(objects)
  {
    hide Pow10, Front, TableHead, Entries, Trailer;
    if objects != [] { FrontGrows(objects, |objects| - 1, |objects|); }
  }

  lemma NextFront(objects: seq<string>, k: nat)
    requires 1 <= k <= |objects|
    ensures Front(objects, k) == Front(objects, k - 1) + Wrapped(k, objects[k - 1])
  {
  }

  lemma NoObjects(objects: seq<string>)
    ensures Front(objects, 0) == HEADER
  {
  }

  /** The objects one after another, each offset recorded as it is reached. */
  method WriteObjects(objects: seq<string>) returns (out: string, offsets: seq<nat>)
    ensures out == Front(objects, |objects|)
    ensures |offsets| == |objects|
    ensures forall k | 0 <= k < |objects| :: offsets[k] == |Front(objects, k)|
  {
    hide Wrapped, Front;
    out := HEADER;
    NoObjects(objects);
    offsets := [];
    var number := 1;
    while number <= |objects|
      invariant 1 <= number <= |objects| + 1
      invariant out == Front(objects, number - 1)
      invariant |offsets| == number - 1
      invariant forall k | 0 <= k < number - 1 :: offsets[k] == |Front(objects, k)|
    {
      offsets := offsets + [|out|];
      NextFront(objects, number);
      out := out + Wrapped(number, objects[number - 1]);
      number := number + 1;
    }
  }

  /** The table the recorded offsets make. */
  method WriteEntries(ghost objects: seq<string>, offsets: seq<nat>) returns (entries: string)
    requires |offsets| == |objects|
    requires forall k | 0 <= k < |objects| :: offsets[k] == |Front(objects, k)|
    ensures entries == Entries(objects, |objects|)
  {
    hide PadTo, Front;
    entries := "";
    for i := 0 to |offsets|
      invariant entries == Entries(objects, i)
    {
      entries := entries + (PadTo(10, offsets[i]) + IN_USE);
    }
  }

  method Assemble(objects: seq<string>) returns (out: string)
    ensures out == File(objects)
  {
    hide Front, Entries, Print;
    var offsets;
    out, offsets := WriteObjects(objects);
    var xref := |out|;
    out := out + (TABLE + Print(|objects| + 1) + "\n") + FREE_ENTRY;
    var entries := WriteEntries(objects, offsets);
    out := out + entries;
    out := out + (TrailerDictionary(|objects|) + KEYWORD + Print(xref) + END);
  }

  lemma Latin1Concat(a: string, b: string)
    ensures Latin1(a + b) <==> Latin1(a) && Latin1(b)
  {
    forall c | c in a ensures c in a + b {
    }
    forall c | c in b ensures c in a + b {
    }
  }

  lemma {:induction false} EncodableEscape(line: string)
    ensures Latin1(EscapedText(line)) <==> Latin1(line)
  {
    if line != "" {
      EncodableEscape(line[1..]);
      Latin1Concat(Escaped(line[0]), EscapedText(line[1..]));
      Latin1Concat([line[0]], line[1..]);
      assert line == [line[0]] + line[1..];
      assert line[0] in Escaped(line[0]);
    }
  }

  lemma EncodableLine(line: string)
    ensures Latin1(Show(line)) <==> Latin1(line)
  {
    EscapeIsPerCharacter(line);
    EncodableEscape(line);
    Latin1Concat("(" + Escape(line), ")" + SHOW);
    Latin1Concat("(", Escape(line));
    assert Show(line) == ("(" + Escape(line)) + (")" + SHOW);
  }

  lemma {:induction false} EncodableJoined(lines: seq<string>)
    ensures Latin1(Joined(lines)) <==> forall i | 0 <= i < |lines| :: Latin1(lines[i])
  {
    hide Latin1, Show;
    if lines == [] {
      NothingIsLatin1();
    } else {
      EncodableLine(lines[0]);
      if |lines| > 1 {
        EncodableJoined(lines[1..]);
        Latin1Concat(Show(lines[0]) + " ", Joined(lines[1..]));
        Latin1Concat(Show(lines[0]), " ");
        NothingIsLatin1();
        forall i | 0 < i < |lines| ensures lines[i] == lines[1..][i - 1] {
        }
      }
    }
  }

  lemma NothingIsLatin1()
    ensures Latin1("") && Latin1(" ")
  {
  }

  /** A document can be encoded exactly when its lines can. */
  lemma EncodableContent(lines: seq<string>)
    ensures Latin1(Content(lines))
            <==> forall i, k | 0 <= i < |lines| && 0 <= k < |lines[i]| :: lines[i][k] as int < 256
  {
    hide Joined, Latin1;
    EncodableJoined(lines);
    Latin1Concat(START + Joined(lines), STOP);
    Latin1Concat(START, Joined(lines));
    FrameIsLatin1();
    LinesAreLatin1(lines);
  }

  lemma FrameIsLatin1()
    ensures Latin1(START) && Latin1(STOP)
  {
  }

  lemma LinesAreLatin1(lines: seq<string>)
    ensures (forall i | 0 <= i < |lines| :: Latin1(lines[i]))
            <==> forall i, k | 0 <= i < |lines| && 0 <= k < |lines[i]| :: lines[i][k] as int < 256
  {
    if forall i | 0 <= i < |lines| :: Latin1(lines[i]) {
      forall i, k | 0 <= i < |lines| && 0 <= k < |lines[i]| ensures lines[i][k] as int < 256 {
        assert Latin1(lines[i]) && lines[i][k] in lines[i];
      }
    } else {
      var i: nat :| i < |lines| && !Latin1(lines[i]);
      var c :| c in lines[i] && c as int >= 256;
      var k: nat :| k < |lines[i]| && lines[i][k] == c;
    }
  }

  /** The bytes of a document, or `None` when a line holds a character Latin-1 lacks. A
      reader that follows the offsets gets the lines back unless one holds a carriage return. */
  method APdf(lines: seq<string>) returns (result: Option<string>)
    ensures result == Pdf(lines)
    ensures result.Some? <==> forall i, k | 0 <= i < |lines| && 0 <= k < |lines[i]| :: lines[i][k] as int < 256
    ensures result.Some? && |result.value| < Pow10(10) ==>
      (Lines(result.value) == Some(lines) <==> forall i | 0 <= i < |lines| :: '\r' !in lines[i])
  {
    hide Content, Lines, OffsetsFit, Objects, File, Pow10;
    var body := Content(lines);
    EncodableContent(lines);
    if !Latin1(body) {
      return None;
    }
    var out := Assemble(Objects(body));
    if |out| < Pow10(10) {
      SmallFilesFit(Objects(body));
      PdfRoundTrip(lines);
    }
    return Some(out);
  }
}
