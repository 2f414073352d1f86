// Page content streams: drawing lines of text, and reading the strings back as
// section 7.3.4.2 of ISO 32000-1 defines literal strings.

module PdfContent {
  import opened TextLines

  // -- Writing ------------------------------------------------------------------

  function EscapeChar(c: char): string {
    if c == '\\' then "\\\\" else if c == '(' then "\\(" else if c == ')' then "\\)" else [c]
  }

  function Escape(line: string): string {
    if line == "" then "" else EscapeChar(line[0]) + Escape(line[1..])
  }

  const OPENING := "BT\n/F1 12 Tf\n72 720 Td"
  const NEXT_LINE := "\n0 -14 Td"

  function Show(line: string): string {
    "\n(" + Escape(line) + ") Tj"
  }

  // The operators for lines[k..], and the closing one.
  function Ops(lines: seq<string>, k: nat): string
    requires k <= |lines|
    decreases |lines| - k
  {
    if k == |lines| then "\nET" else Separator(k) + (Show(lines[k]) + Ops(lines, k + 1))
  }

  function Separator(k: nat): string {
    if k > 0 then NEXT_LINE else ""
  }

  function ContentStream(text: string): string {
    OPENING + Ops(Split(text), 0)
  }

  // str.replace with a one-character pattern.
  function ReplaceChar(s: string, c: char, with: string): string {
    if s == "" then "" else (if s[0] == c then with else [s[0]]) + ReplaceChar(s[1..], c, with)
  }

  // The three replacements in the order the writer makes them, backslash first,
  // escape each character once.
  function EscapedByReplacing(line: string): string {
    ReplaceChar(ReplaceChar(ReplaceChar(line, '\\', "\\\\"), '(', "\\("), ')', "\\)")
  }

  lemma {:induction false} ReplaceAppend(a: string, b: string, c: char, with: string)
    ensures ReplaceChar(a + b, c, with) == ReplaceChar(a, c, with) + ReplaceChar(b, c, with)
  {
    if a == "" {
      assert a + b == b;
    } else {
      assert (a + b)[1..] == a[1..] + b;
      ReplaceAppend(a[1..], b, c, with);
    }
  }

  lemma {:induction false} EscapingIsReplacing(line: string)
    ensures EscapedByReplacing(line) == Escape(line)
  {
    if line != "" {
      EscapingIsReplacing(line[1..]);
      var first, rest := [line[0]], line[1..];
      assert line == first + rest;
      ReplaceAppend(first, rest, '\\', "\\\\");
      var a := ReplaceChar(first, '\\', "\\\\");
      ReplaceAppend(a, ReplaceChar(rest, '\\', "\\\\"), '(', "\\(");
      var b := ReplaceChar(a, '(', "\\(");
      ReplaceAppend(b, ReplaceChar(ReplaceChar(rest, '\\', "\\\\"), '(', "\\("), ')', "\\)");
      ReplaceOneChar(line[0]);
    }
  }

  lemma ReplaceOneChar(c: char)
    ensures EscapedByReplacing([c]) == EscapeChar(c)
  {
    assert [c][1..] == "";
    if c == '\\' {
      assert "\\\\"[1..] == "\\" && "\\"[1..] == "";
    } else if c == '(' {
      assert "\\("[1..] == "(" && "("[1..] == "";
    }
  }

  // -- Reading ------------------------------------------------------------------

  datatype Literal = Unterminated | Literal(value: string, rest: string)

  function Prepend(c: char, literal: Literal): Literal {
    if literal.Unterminated? then Unterminated else Literal([c] + literal.value, literal.rest)
  }

  predicate IsOctal(c: char) {
    '0' <= c <= '7'
  }

  // How many of the next characters, at most three, are octal digits.
  function OctalDigits(s: string, n: nat): (k: nat)
    ensures k <= n && k <= |s| && forall i :: 0 <= i < k ==> IsOctal(s[i])
  {
    if n == 0 || s == "" || !IsOctal(s[0]) then 0 else 1 + OctalDigits(s[1..], n - 1)
  }

  function OctalValue(s: string): nat
    requires forall i :: 0 <= i < |s| ==> IsOctal(s[i])
  {
    if s == "" then 0
    else
      assert IsOctal(s[|s| - 1]);
      8 * OctalValue(s[..|s| - 1]) + (s[|s| - 1] as int - '0' as int)
  }

  // A literal string from just after its opening parenthesis: parentheses balance,
  // a backslash escapes, an end-of-line marker reads as a newline.
  function ReadLiteral(s: string, depth: nat): Literal
    decreases |s|
  {
    if s == "" then Unterminated
    else if s[0] == ')' then if depth == 0 then Literal("", s[1..]) else Prepend(')', ReadLiteral(s[1..], depth - 1))
    else if s[0] == '(' then Prepend('(', ReadLiteral(s[1..], depth + 1))
    else if s[0] == '\r' then
      Prepend('\n', ReadLiteral(if |s| > 1 && s[1] == '\n' then s[2..] else s[1..], depth))
    else if s[0] != '\\' then Prepend(s[0], ReadLiteral(s[1..], depth))
    else if |s| == 1 then Unterminated
    else
      match s[1]
      case 'n' => Prepend('\n', ReadLiteral(s[2..], depth))
      case 'r' => Prepend('\r', ReadLiteral(s[2..], depth))
      case 't' => Prepend('\t', ReadLiteral(s[2..], depth))
      case 'b' => Prepend(8 as char, ReadLiteral(s[2..], depth))
      case 'f' => Prepend(12 as char, ReadLiteral(s[2..], depth))
      case '\n' => ReadLiteral(s[2..], depth)
      case '\r' => ReadLiteral(if |s| > 2 && s[2] == '\n' then s[3..] else s[2..], depth)
      case c =>
        if c == '(' || c == ')' || c == '\\' then Prepend(c, ReadLiteral(s[2..], depth))
        else if IsOctal(c) then
          var k := OctalDigits(s[1..], 3);
          Prepend((OctalValue(s[1..][..k]) % 256) as char, ReadLiteral(s[1 + k..], depth))
        else ReadLiteral(s[1..], depth)
  }

  // The strings a content stream shows, in order.
  function Shown(s: string): seq<string>
    decreases |s|
  {
    if s == "" then []
    else if s[0] != '(' then Shown(s[1..])
    else
      var literal := ReadLiteral(s[1..], 0);
      if literal.Unterminated? || |literal.rest| >= |s| then []
      else if " Tj" <= literal.rest then [literal.value] + Shown(literal.rest)
      else Shown(literal.rest)
  }

  // -- Round trip -----------------------------------------------------------------

  // What an end-of-line marker inside a literal string reads as.
  function Eol(line: string): (r: string)
    ensures |r| == |line|
  {
    if line == "" then "" else [if line[0] == '\r' then '\n' else line[0]] + Eol(line[1..])
  }

  // What the writer escapes, the reader restores, but for carriage returns.
  lemma {:induction false} LiteralRoundTrip(line: string, after: string)
    requires '\n' !in line
    ensures ReadLiteral(Escape(line) + ")" + after, 0) == Literal(Eol(line), after)
    decreases |line|
  {
    var s := Escape(line) + ")" + after;
    if line == "" {
      assert s[1..] == after;
    } else {
      var rest := Escape(line[1..]) + ")" + after;
      LiteralRoundTrip(line[1..], after);
      assert s == EscapeChar(line[0]) + rest;
      assert line == [line[0]] + line[1..] && line[0] in line;
      if line[0] == '\\' || line[0] == '(' || line[0] == ')' {
        assert s[2..] == rest;
      } else {
        assert s[1..] == rest;
        StartsNoLine(line[1..], after);
      }
    }
  }

  lemma StartsNoLine(line: string, after: string)
    requires '\n' !in line
    ensures (Escape(line) + ")" + after)[0] != '\n'
  {
    if line != "" {
      assert line[0] in line;
      assert EscapeChar(line[0])[0] != '\n';
    }
  }

  lemma {:induction false} EolKeepsIff(line: string)
    ensures Eol(line) == line <==> '\r' !in line
  {
    if line != "" {
      EolKeepsIff(line[1..]);
      assert line == [line[0]] + line[1..];
      assert Eol(line)[1..] == Eol(line[1..]);
    }
  }

  // A line is read back as it was written exactly when it holds no carriage return:
  // the reader takes each one for a newline.
  lemma CarriageReturnIsLost(line: string, after: string)
    requires '\n' !in line
    ensures ReadLiteral(Escape(line) + ")" + after, 0) == Literal(line, after) <==> '\r' !in line
  {
    LiteralRoundTrip(line, after);
    EolKeepsIff(line);
  }

  lemma {:induction false} SkipPlain(plain: string, s: string)
    requires '(' !in plain
    ensures Shown(plain + s) == Shown(s)
    decreases |plain|
  {
    if plain == "" {
      assert plain + s == s;
    } else {
      assert plain[0] in plain && (plain + s)[1..] == plain[1..] + s;
      SkipPlain(plain[1..], s);
    }
  }

  lemma ShowThen(line: string, after: string)
    requires '\n' !in line
    ensures Shown(Show(line) + after) == [Eol(line)] + Shown(after)
  {
    var body := Escape(line) + ")" + (" Tj" + after);
    LiteralRoundTrip(line, " Tj" + after);
    assert Show(line) + after == "\n" + ("(" + body);
    SkipPlain("\n", "(" + body);
    assert ("(" + body)[1..] == body;
    assert " Tj" <= " Tj" + after;
    SkipPlain(" Tj", after);
  }

  // The lines of a page as a reader decodes them.
  function Decoded(lines: seq<string>): (r: seq<string>)
    ensures |r| == |lines|
  {
    seq(|lines|, i requires 0 <= i < |lines| => Eol(lines[i]))
  }

  lemma {:induction false} OpsRoundTrip(lines: seq<string>, k: nat)
    requires k <= |lines| && forall i :: 0 <= i < |lines| ==> '\n' !in lines[i]
    ensures Shown(Ops(lines, k)) == Decoded(lines)[k..]
    decreases |lines| - k
  {
    if k == |lines| {
      SkipPlain("\nET", "");
      assert "\nET" + "" == "\nET";
    } else {
      var after := Ops(lines, k + 1);
      OpsRoundTrip(lines, k + 1);
      ShowThen(lines[k], after);
      SkipPlain(Separator(k), Show(lines[k]) + after);
      assert Decoded(lines)[k..] == [Eol(lines[k])] + Decoded(lines)[k + 1..];
    }
  }

  // A text holds a carriage return exactly when one of its lines does.
  lemma {:induction false} LinesHaveReturn(text: string)
    ensures '\r' in text <==> exists i :: 0 <= i < |Split(text)| && '\r' in Split(text)[i]
    decreases |text|
  {
    if text != "" {
      var n := |text| - 1;
      var lines, before := Split(text), Split(text[..n]);
      assert text == text[..n] + [text[n]];
      LinesHaveReturn(text[..n]);
      if text[n] != '\n' {
        var last := |lines| - 1;
        assert lines[last] == before[last] + [text[n]];
        assert forall i :: 0 <= i < last ==> lines[i] == before[i];
        assert text[n] in lines[last];
      } else {
        assert forall i :: 0 <= i < |before| ==> lines[i] == before[i];
        assert lines[|before|] == "";
      }
    }
  }

  lemma DecodedKeepsIff(text: string)
    ensures Decoded(Split(text)) == Split(text) <==> '\r' !in text
  {
    var lines := Split(text);
    LinesHaveReturn(text);
    forall i | 0 <= i < |lines| ensures Decoded(lines)[i] == lines[i] <==> '\r' !in lines[i] {
      EolKeepsIff(lines[i]);
    }
  }

  // The strings a reader decodes from a page are the lines of its text, with each
  // carriage return read as a newline: the lines themselves exactly when there is none.
  lemma ContentRoundTrip(text: string)
    ensures Shown(ContentStream(text)) == Decoded(Split(text))
    ensures Shown(ContentStream(text)) == Split(text) <==> '\r' !in text
  {
    SplitThenJoin(text);
    OpsRoundTrip(Split(text), 0);
    SkipPlain(OPENING, Ops(Split(text), 0));
    DecodedKeepsIff(text);
  }
}
