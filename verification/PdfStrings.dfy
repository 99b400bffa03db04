/** Literal strings of a PDF content stream: how `_escape` writes them and how a reader
    following section 7.3.4.2 of ISO 32000-1 decodes them. A byte is modelled as the
    character of the same code, which is what Latin-1 is. */
module PdfStrings {
  import opened Common

  const EOL := "\n"

  // ----- the writer ----------------------------------------------------------------------

  /** `text.replace(c, put)` for a one-character pattern. */
  function Replace(text: string, c: char, put: string): string {
    if text == "" then "" else (if text[0] == c then put else [text[0]]) + Replace(text[1..], c, put)
  }

  function Escape(text: string): string {
    Replace(Replace(Replace(text, '\\', "\\\\"), '(', "\\("), ')', "\\)")
  }

  /** The escape of one character. */
  function Escaped(c: char): string {
    if c == '\\' || c == '(' || c == ')' then ['\\', c] else [c]
  }

  function EscapedText(text: string): string {
    if text == "" then "" else Escaped(text[0]) + EscapedText(text[1..])
  }

  lemma {:induction false} ReplaceConcat(a: string, b: string, c: char, put: string)
    ensures Replace(a + b, c, put) == Replace(a, c, put) + Replace(b, c, put)
  {
    if a == "" {
      assert a + b == b;
    } else {
      ReplaceConcat(a[1..], b, c, put);
      assert (a + b)[1..] == a[1..] + b;
      var head := if a[0] == c then put else [a[0]];
      assert head + Replace(a[1..], c, put) + Replace(b, c, put)
          == head + (Replace(a[1..], c, put) + Replace(b, c, put));
    }
  }

  /** The three passes never re-read what an earlier pass wrote: together they escape each
      character once. */
  lemma {:induction false} EscapeIsPerCharacter(text: string)
    ensures Escape(text) == EscapedText(text)
  {
    if text != "" {
      EscapeIsPerCharacter(text[1..]);
      var first := Replace(text, '\\', "\\\\");
      var head := if text[0] == '\\' then "\\\\" else [text[0]];
      var tail := Replace(text[1..], '\\', "\\\\");
      assert first == head + tail;
      ReplaceConcat(head, tail, '(', "\\(");
      ReplaceConcat(Replace(head, '(', "\\("), Replace(tail, '(', "\\("), ')', "\\)");
      EscapeOne(text[0]);
    }
  }

  lemma EscapeOne(c: char)
    ensures var head := if c == '\\' then "\\\\" else [c];
      Replace(Replace(head, '(', "\\("), ')', "\\)") == Escaped(c)
  {
    ReplaceOne(c, '(', "\\(");
    ReplaceOne(c, ')', "\\)");
    ReplaceOne('\\', ')', "\\)");
    if c == '\\' {
      ReplaceConcat("\\", "\\", '(', "\\(");
      ReplaceConcat("\\", "\\", ')', "\\)");
      assert "\\" + "\\" == "\\\\";
    } else if c == '(' {
      ReplaceConcat("\\", "(", ')', "\\)");
      assert "\\" + "(" == "\\(";
    }
  }

  lemma ReplaceOne(c: char, d: char, put: string)
    ensures Replace([c], d, put) == if c == d then put else [c]
  {
    assert [c][1..] == "";
  }

  // ----- the reader ----------------------------------------------------------------------

  predicate IsOctal(c: char) { '0' <= c <= '7' }

  function OctalRun(s: string, most: nat): (n: nat)
    ensures n <= |s| && n <= most
  {
    if most > 0 && s != "" && IsOctal(s[0]) then 1 + OctalRun(s[1..], most - 1) else 0
  }

  function OctalValue(s: string, n: nat): nat
    requires n <= |s| && forall i | 0 <= i < n :: IsOctal(s[i])
  {
    if n == 0 then 0
    else
      assert IsOctal(s[n - 1]);
      OctalValue(s, n - 1) * 8 + (s[n - 1] as int - '0' as int)
  }

  lemma {:induction false} OctalRunIsOctal(s: string, most: nat)
    ensures forall i | 0 <= i < OctalRun(s, most) :: IsOctal(s[i])
  {
    if most > 0 && s != "" && IsOctal(s[0]) {
      OctalRunIsOctal(s[1..], most - 1);
      forall i | 0 <= i < OctalRun(s, most) ensures IsOctal(s[i]) {
        if i > 0 { assert s[i] == s[1..][i - 1]; }
      }
    }
  }

  /** An escape sequence after its backslash: the text it stands for and its length. */
  function EscapeSequence(s: string): (r: (string, nat))
    requires s != ""
    ensures 1 <= r.1 <= |s|
  {
    var c := s[0];
    if c == 'n' then ("\n", 1)
    else if c == 'r' then ("\r", 1)
    else if c == 't' then ("\t", 1)
    else if c == 'b' then ([8 as char], 1)
    else if c == 'f' then ([12 as char], 1)
    else if c == '\r' then ("", if |s| > 1 && s[1] == '\n' then 2 else 1)
    else if c == '\n' then ("", 1)
    else if IsOctal(c) then
      OctalRunIsOctal(s, 3);
      ([(OctalValue(s, OctalRun(s, 3)) % 256) as char], OctalRun(s, 3))
    else ([c], 1)
  }

  function Prepend(text: string, r: Option<(string, string)>): Option<(string, string)> {
    match r
    case None => None
    case Some(p) => Some((text + p.0, p.1))
  }

  /** Decode a literal string from just after its opening parenthesis: the text, and what
      follows the matching closing one. Parentheses nest, a bare end-of-line reads as one
      line feed, and a backslash starts an escape sequence. */
  function Literal(s: string, depth: nat): (r: Option<(string, string)>)
    ensures r.Some? ==> |r.value.1| < |s|
    decreases |s|
  {
    if s == "" then None
    else if s[0] == ')' then
      if depth == 0 then Some(("", s[1..])) else Prepend(")", Literal(s[1..], depth - 1))
    else if s[0] == '(' then Prepend("(", Literal(s[1..], depth + 1))
    else if s[0] == '\\' then
      if |s| == 1 then None
      else
        var (text, n) := EscapeSequence(s[1..]);
        Prepend(text, Literal(s[1 + n..], depth))
    else if s[0] == '\r' then
      Prepend(EOL, Literal(if |s| > 1 && s[1] == '\n' then s[2..] else s[1..], depth))
    else Prepend([s[0]], Literal(s[1..], depth))
  }

  /** The strings a content stream shows with `Tj`, in order. */
  function Shown(stream: string): Option<seq<string>>
    decreases |stream|
  {
    if stream == "" then Some([])
    else if stream[0] == '(' then
      match Literal(stream[1..], 0)
      case None => None
      case Some(p) =>
        (match Shown(p.1)
         case None => None
         case Some(rest) => Some((if " Tj" <= p.1 then [p.0] else []) + rest))
    else Shown(stream[1..])
  }

  /** What a reader makes of raw line endings: CR and CR LF become LF. */
  function Normalised(text: string): string {
    if text == "" then ""
    else if text[0] == '\r' then
      EOL + Normalised(if |text| > 1 && text[1] == '\n' then text[2..] else text[1..])
    else [text[0]] + Normalised(text[1..])
  }

  // ----- the round trip --------------------------------------------------------------------

  lemma EscapedCharacterDecodes(c: char, next: string)
    requires c == '\r' ==> next != "" && next[0] != '\n'
    ensures Literal(Escaped(c) + next, 0) == Prepend(if c == '\r' then EOL else [c], Literal(next, 0))
  {
    var s := Escaped(c) + next;
    if c == '\\' || c == '(' || c == ')' {
      assert s[1..] == [c] + next;
      assert EscapeSequence(s[1..]) == ([c], 1);
      assert s[2..] == next;
    } else {
      assert s[1..] == next;
    }
  }

  lemma CrLfDecodes(next: string)
    ensures Literal("\r\n" + next, 0) == Prepend(EOL, Literal(next, 0))
  {
    assert ("\r\n" + next)[2..] == next;
  }

  /** The bytes of `text` as a literal string, closed and followed by `rest`. */
  function Closed(text: string, rest: string): string {
    EscapedText(text) + ")" + rest
  }

  lemma ClosedStep(text: string, rest: string)
    requires text != ""
    ensures Closed(text, rest) == Escaped(text[0]) + Closed(text[1..], rest)
  {
  }

  lemma ClosedStartsWith(text: string, rest: string)
    ensures Closed(text, rest) != ""
    ensures Closed(text, rest)[0] == '\n' <==> text != "" && text[0] == '\n'
  {
  }

  lemma {:induction false} EscapedTextDecodes(text: string, rest: string)
    ensures Literal(Closed(text, rest), 0) == Some((Normalised(text), rest))
    decreases |text|
  {
    if text == "" {
      assert Closed(text, rest)[1..] == rest;
    } else {
      hide Literal, Closed, Escaped;
      ClosedStep(text, rest);
      if text[0] == '\r' && |text| > 1 && text[1] == '\n' {
        EscapedTextDecodes(text[2..], rest);
        ClosedStep(text[1..], rest);
        assert text[1..][1..] == text[2..];
        PlainEscape('\r');
        PlainEscape('\n');
        assert "\r" + ("\n" + Closed(text[2..], rest)) == "\r\n" + Closed(text[2..], rest);
        CrLfDecodes(Closed(text[2..], rest));
      } else {
        EscapedTextDecodes(text[1..], rest);
        ClosedStartsWith(text[1..], rest);
        EscapedCharacterDecodes(text[0], Closed(text[1..], rest));
      }
    }
  }

  lemma PlainEscape(c: char)
    requires c !in "\\()"
    ensures Escaped(c) == [c]
  {
  }

  /** A line survives the reader exactly when it holds no carriage return. */
  lemma {:induction false} NormalisedIsIdentity(text: string)
    ensures Normalised(text) == text <==> '\r' !in text
    ensures |Normalised(text)| <= |text|
    decreases |text|
  {
    if text == "" {
    } else if text[0] == '\r' {
      NormalisedIsIdentity(if |text| > 1 && text[1] == '\n' then text[2..] else text[1..]);
      assert Normalised(text)[0] == '\n';
    } else {
      NormalisedIsIdentity(text[1..]);
      assert text == [text[0]] + text[1..];
      if Normalised(text) == text { assert Normalised(text)[1..] == text[1..]; }
    }
  }
}
