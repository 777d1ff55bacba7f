/**
 Quoting for the POSIX shell: a word reader for the quoting rules of POSIX.1-2017, Shell Command Language,
 sections 2.2.1 to 2.2.3, the three quoters of the program, and the commands it builds with them.
 */
module ShellQuoting {
  import opened Wrappers

  // ---------- reading a command line ----------

  datatype Token = Word(text: string) | Op(text: string)

  datatype Mode = Plain | InSingle | InDouble

  predicate IsBlank(c: char) {
    c == ' ' || c == '\t'
  }

  predicate IsOperatorChar(c: char) {
    c == '|' || c == '&' || c == ';' || c == '<' || c == '>' || c == '(' || c == ')' || c == '\n'
  }

  // Unquoted, these start an expansion, a pattern, a comment or a home directory.
  predicate NeedsShell(c: char) {
    c == '$' || c == '`' || c == '*' || c == '?' || c == '[' || c == '#' || c == '~'
  }

  // Letters, digits and the other characters that stand for themselves.
  predicate IsLiteral(c: char) {
    !IsBlank(c) && !IsOperatorChar(c) && !NeedsShell(c) && c != '\\' && c != '\'' && c != '"'
  }

  // Such text is one word without any quoting.
  predicate IsLiteralWord(text: string) {
    text != "" && forall i :: 0 <= i < |text| ==> IsLiteral(text[i])
  }

  predicate IsTwoCharOperator(s: string) {
    && |s| == 2
    && match s[0]
       case '|' => s[1] == '|'
       case '&' => s[1] == '&'
       case ';' => s[1] == ';'
       case '<' => s[1] == '<' || s[1] == '&' || s[1] == '>'
       case '>' => s[1] == '>' || s[1] == '&' || s[1] == '|'
       case _ => false
  }

  predicate IsDoubleQuoteEscape(c: char) {
    c == '$' || c == '`' || c == '"' || c == '\\'
  }

  function Prepend(tokens: seq<Token>, rest: Option<seq<Token>>): Option<seq<Token>> {
    if rest.None? then None else Some(tokens + rest.value)
  }

  function Flush(word: Option<string>): seq<Token> {
    if word.None? then [] else [Word(word.value)]
  }

  function Current(word: Option<string>): string {
    if word.None? then "" else word.value
  }

  /*
   Reads s with the word begun so far. The result is None if a quote is left open or if something outside the
   quoting rules (an expansion, a pattern, a comment) would have to be interpreted.
   */
  function Scan(s: string, mode: Mode, word: Option<string>): Option<seq<Token>>
    decreases |s|
  {
    if s == "" then
      if mode == Plain then Some(Flush(word)) else None
    else if mode == InSingle then
      // 2.2.2: every character up to the next single quote stands for itself
      if s[0] == '\'' then Scan(s[1..], Plain, word) else Scan(s[1..], InSingle, Some(Current(word) + [s[0]]))
    else if mode == InDouble then
      // 2.2.3: a backslash escapes only $ ` " \ and newline; $ and ` keep their meaning
      if s[0] == '"' then Scan(s[1..], Plain, word)
      else if s[0] == '$' || s[0] == '`' then None
      else if s[0] == '\\' && |s| > 1 && IsDoubleQuoteEscape(s[1]) then
        Scan(s[2..], InDouble, Some(Current(word) + [s[1]]))
      else if s[0] == '\\' && |s| > 1 && s[1] == '\n' then Scan(s[2..], InDouble, word)
      else Scan(s[1..], InDouble, Some(Current(word) + [s[0]]))
    else if s[0] == '\\' then
      // 2.2.1: the next character stands for itself; an escaped newline is removed
      if |s| == 1 then None
      else if s[1] == '\n' then Scan(s[2..], Plain, word)
      else Scan(s[2..], Plain, Some(Current(word) + [s[1]]))
    else if s[0] == '\'' then Scan(s[1..], InSingle, Some(Current(word)))
    else if s[0] == '"' then Scan(s[1..], InDouble, Some(Current(word)))
    else if IsBlank(s[0]) then Prepend(Flush(word), Scan(s[1..], Plain, None))
    else if IsOperatorChar(s[0]) then
      if |s| > 1 && IsTwoCharOperator(s[..2]) then Prepend(Flush(word) + [Op(s[..2])], Scan(s[2..], Plain, None))
      else Prepend(Flush(word) + [Op(s[..1])], Scan(s[1..], Plain, None))
    else if NeedsShell(s[0]) then None
    else Scan(s[1..], Plain, Some(Current(word) + [s[0]]))
  }

  function Read(s: string): Option<seq<Token>> {
    Scan(s, Plain, None)
  }

  // ---------- the quoters ----------

  function ReplaceQuotes(value: string, substitute: string): string {
    if value == "" then "" else (if value[0] == '\'' then substitute else [value[0]]) + ReplaceQuotes(value[1..], substitute)
  }

  const DOUBLE_QUOTED_QUOTE := "'\"'\"'"
  const ESCAPED_QUOTE := "'\\''"

  // sshcmd.QuotePosix
  function QuotePosix(value: string): string {
    if value == "" then "''" else "'" + ReplaceQuotes(value, DOUBLE_QUOTED_QUOTE) + "'"
  }

  // quotePosix of the desktop process
  function QuotePosixJs(value: string): string {
    "'" + ReplaceQuotes(value, DOUBLE_QUOTED_QUOTE) + "'"
  }

  // shellQuote of the forwarding service
  function ShellQuote(value: string): string {
    "'" + ReplaceQuotes(value, ESCAPED_QUOTE) + "'"
  }

  // ---------- what a piece of a command line reads as ----------

  // Between blanks, or at the end, the text reads as these tokens.
  ghost predicate ReadsAs(text: string, tokens: seq<Token>) {
    forall rest: string :: rest == "" || IsBlank(rest[0]) ==>
      Scan(text + rest, Plain, None) == Prepend(tokens, Scan(rest, Plain, None))
  }

  lemma PrependPrepend(a: seq<Token>, b: seq<Token>, rest: Option<seq<Token>>)
    ensures Prepend(a, Prepend(b, rest)) == Prepend(a + b, rest)
  {
    if rest.Some? {
      assert a + (b + rest.value) == (a + b) + rest.value;
    }
  }

  lemma {:induction false} ReadOfText(text: string, tokens: seq<Token>)
    requires ReadsAs(text, tokens)
    ensures Read(text) == Some(tokens)
  {
    assert text + "" == text && tokens + [] == tokens;
  }

  lemma {:induction false} BlankEndsWord(rest: string, word: Option<string>)
    requires rest == "" || IsBlank(rest[0])
    ensures Scan(rest, Plain, word) == Prepend(Flush(word), Scan(rest, Plain, None))
  {
    if rest != "" {
      PrependPrepend(Flush(word), [], Scan(rest[1..], Plain, None));
      assert Flush(word) + [] == Flush(word);
    } else {
      assert Flush(word) + [] == Flush(word);
    }
  }

  lemma {:induction false} ScanOfSpace(text: string)
    ensures Scan(" " + text, Plain, None) == Scan(text, Plain, None)
  {
    assert (" " + text)[1..] == text;
    assert forall tokens: seq<Token> :: [] + tokens == tokens;
  }

  lemma RegroupRight(a: string, b: string, c: string, d: string)
    ensures a + b + c + d == a + (b + (c + d))
  {
  }

  lemma {:induction false} SpaceSeparatesAt(a: string, ta: seq<Token>, b: string, tb: seq<Token>, rest: string)
    requires Scan(a + (" " + (b + rest)), Plain, None) == Prepend(ta, Scan(" " + (b + rest), Plain, None))
    requires Scan(b + rest, Plain, None) == Prepend(tb, Scan(rest, Plain, None))
    ensures Scan(a + " " + b + rest, Plain, None) == Prepend(ta + tb, Scan(rest, Plain, None))
  {
    RegroupRight(a, " ", b, rest);
    ScanOfSpace(b + rest);
    PrependPrepend(ta, tb, Scan(rest, Plain, None));
  }

  lemma {:induction false} SpaceSeparates(a: string, ta: seq<Token>, b: string, tb: seq<Token>)
    requires ReadsAs(a, ta) && ReadsAs(b, tb)
    ensures ReadsAs(a + " " + b, ta + tb)
  {
    forall rest: string | rest == "" || IsBlank(rest[0])
      ensures Scan(a + " " + b + rest, Plain, None) == Prepend(ta + tb, Scan(rest, Plain, None))
    {
      var tail := " " + (b + rest);
      assert tail != "" && IsBlank(tail[0]);
      SpaceSeparatesAt(a, ta, b, tb, rest);
    }
  }

  // ---------- words ----------

  lemma {:induction false} ScanOfClosingQuote(rest: string, sofar: string)
    ensures Scan("'" + rest, InSingle, Some(sofar)) == Scan(rest, Plain, Some(sofar))
  {
    assert ("'" + rest)[1..] == rest;
  }

  lemma {:induction false} ScanOfOrdinary(c: char, tail: string, sofar: string)
    requires c != '\''
    ensures Scan([c] + tail, InSingle, Some(sofar)) == Scan(tail, InSingle, Some(sofar + [c]))
  {
    assert ([c] + tail)[1..] == tail;
  }

  lemma Regroup(a: string, b: string, c: string, d: string)
    ensures a + b + c + d == a + (b + c + d)
  {
  }

  // Inside single quotes, the escaped text and the closing quote contribute exactly the value.
  lemma {:induction false} ScanOfEscaped(value: string, substitute: string, rest: string, sofar: string)
    requires substitute == DOUBLE_QUOTED_QUOTE || substitute == ESCAPED_QUOTE
    ensures Scan(ReplaceQuotes(value, substitute) + "'" + rest, InSingle, Some(sofar)) == Scan(rest, Plain, Some(sofar + value))
  {
    if value == "" {
      ScanOfClosingQuote(rest, sofar);
      assert ReplaceQuotes(value, substitute) + "'" + rest == "'" + rest && sofar + value == sofar;
    } else {
      var tail := ReplaceQuotes(value[1..], substitute) + "'" + rest;
      ScanOfEscaped(value[1..], substitute, rest, sofar + [value[0]]);
      assert sofar + [value[0]] + value[1..] == sofar + value;
      Regroup(if value[0] == '\'' then substitute else [value[0]], ReplaceQuotes(value[1..], substitute), "'", rest);
      if value[0] != '\'' {
        ScanOfOrdinary(value[0], tail, sofar);
      } else if substitute == DOUBLE_QUOTED_QUOTE {
        ScanOfDoubleQuotedQuote(tail, sofar);
      } else {
        ScanOfEscapedQuote(tail, sofar);
      }
    }
  }

  lemma {:induction false} ScanOfDoubleQuotedQuote(tail: string, sofar: string)
    ensures Scan("'\"'\"'" + tail, InSingle, Some(sofar)) == Scan(tail, InSingle, Some(sofar + "'"))
  {
    var s := "'\"'\"'" + tail;
    assert s[1..] == "\"'\"'" + tail;
    assert s[1..][1..] == "'\"'" + tail;
    assert s[1..][1..][1..] == "\"'" + tail;
    assert s[1..][1..][1..][1..] == "'" + tail;
    assert s[1..][1..][1..][1..][1..] == tail;
    calc {
      Scan(s, InSingle, Some(sofar));
      Scan(s[1..], Plain, Some(sofar));
      Scan(s[1..][1..], InDouble, Some(sofar));
      Scan(s[1..][1..][1..], InDouble, Some(sofar + "'"));
      Scan(s[1..][1..][1..][1..], Plain, Some(sofar + "'"));
      Scan(tail, InSingle, Some(sofar + "'"));
    }
  }

  lemma {:induction false} ScanOfEscapedQuote(tail: string, sofar: string)
    ensures Scan("'\\''" + tail, InSingle, Some(sofar)) == Scan(tail, InSingle, Some(sofar + "'"))
  {
    var s := "'\\''" + tail;
    assert s[1..] == "\\''" + tail;
    assert s[1..][2..] == "'" + tail;
    assert s[1..][2..][1..] == tail;
    calc {
      Scan(s, InSingle, Some(sofar));
      Scan(s[1..], Plain, Some(sofar));
      Scan(s[1..][2..], Plain, Some(sofar + "'"));
      Scan(tail, InSingle, Some(sofar + "'"));
    }
  }

  lemma {:induction false} QuotedReadsAsWord(value: string, substitute: string)
    requires substitute == DOUBLE_QUOTED_QUOTE || substitute == ESCAPED_QUOTE
    ensures ReadsAs("'" + ReplaceQuotes(value, substitute) + "'", [Word(value)])
  {
    var text := "'" + ReplaceQuotes(value, substitute) + "'";
    forall rest: string | rest == "" || IsBlank(rest[0])
      ensures Scan(text + rest, Plain, None) == Prepend([Word(value)], Scan(rest, Plain, None))
    {
      var s := text + rest;
      assert s[1..] == ReplaceQuotes(value, substitute) + "'" + rest;
      ScanOfEscaped(value, substitute, rest, "");
      assert "" + value == value;
      BlankEndsWord(rest, Some(value));
    }
  }

  /**
   For every string, each quoter's output reads back as exactly that one word, alone or between blanks, and the
   two spellings of the quoter in Go and TypeScript agree.
   */
  lemma {:induction false} QuotersRoundTrip(value: string)
    ensures ReadsAs(QuotePosix(value), [Word(value)]) && Read(QuotePosix(value)) == Some([Word(value)])
    ensures ReadsAs(QuotePosixJs(value), [Word(value)]) && Read(QuotePosixJs(value)) == Some([Word(value)])
    ensures ReadsAs(ShellQuote(value), [Word(value)]) && Read(ShellQuote(value)) == Some([Word(value)])
    ensures QuotePosix(value) == QuotePosixJs(value)
  {
    QuotedReadsAsWord(value, DOUBLE_QUOTED_QUOTE);
    QuotedReadsAsWord(value, ESCAPED_QUOTE);
    assert "'" + "" + "'" == "''";
    assert QuotePosix(value) == QuotePosixJs(value);
    ReadOfText(QuotePosix(value), [Word(value)]);
    ReadOfText(ShellQuote(value), [Word(value)]);
  }

  lemma {:induction false} ReplaceWithoutQuotes(value: string, substitute: string)
    requires '\'' !in value
    ensures ReplaceQuotes(value, substitute) == value
  {
    if value != "" {
      ReplaceWithoutQuotes(value[1..], substitute);
    }
  }

  lemma ReplaceFirst(c: char, rest: string, substitute: string)
    ensures ReplaceQuotes([c] + rest, substitute) == (if c == '\'' then substitute else [c]) + ReplaceQuotes(rest, substitute)
  {
    assert ([c] + rest)[1..] == rest;
  }

  lemma {:induction false} ReplaceInConcat(a: string, b: string, substitute: string)
    ensures ReplaceQuotes(a + b, substitute) == ReplaceQuotes(a, substitute) + ReplaceQuotes(b, substitute)
  {
    if a == "" {
      assert a + b == b;
    } else {
      ReplaceInConcat(a[1..], b, substitute);
      ReplaceFirst(a[0], a[1..] + b, substitute);
      ReplaceFirst(a[0], a[1..], substitute);
      assert a + b == [a[0]] + (a[1..] + b) && a == [a[0]] + a[1..];
      Reassociate(if a[0] == '\'' then substitute else [a[0]], ReplaceQuotes(a[1..], substitute), ReplaceQuotes(b, substitute));
    }
  }

  lemma Reassociate(a: string, b: string, c: string)
    ensures (a + b) + c == a + (b + c)
  {
  }

  lemma QuotedAtQuote(a: string, b: string, between: string)
    ensures "'" + (a + ("'" + between + "'" + b)) + "'" == ("'" + a + "'") + between + ("'" + b + "'")
  {
  }

  lemma {:induction false} ReplaceAtQuote(a: string, b: string, substitute: string)
    ensures ReplaceQuotes(a + "'" + b, substitute) == ReplaceQuotes(a, substitute) + (substitute + ReplaceQuotes(b, substitute))
  {
    assert a + "'" + b == a + (['\''] + b);
    ReplaceInConcat(a, ['\''] + b, substitute);
    ReplaceFirst('\'', b, substitute);
  }

  /**
   The text of each quoter: a value without a single quote between two of them, and around a single quote the two parts
   quoted with that quote between them, in double quotes or after a backslash.
   */
  lemma {:induction false} QuotersText(a: string, b: string)
    ensures '\'' !in a ==> QuotePosix(a) == "'" + a + "'" && QuotePosixJs(a) == "'" + a + "'" && ShellQuote(a) == "'" + a + "'"
    ensures QuotePosixJs(a + "'" + b) == QuotePosixJs(a) + "\"'\"" + QuotePosixJs(b)
    ensures QuotePosix(a + "'" + b) == QuotePosix(a) + "\"'\"" + QuotePosix(b)
    ensures ShellQuote(a + "'" + b) == ShellQuote(a) + "\\'" + ShellQuote(b)
  {
    if '\'' !in a {
      ReplaceWithoutQuotes(a, DOUBLE_QUOTED_QUOTE);
      ReplaceWithoutQuotes(a, ESCAPED_QUOTE);
    }
    QuotersRoundTrip(a);
    QuotersRoundTrip(b);
    QuotersRoundTrip(a + "'" + b);
    ReplaceAtQuote(a, b, DOUBLE_QUOTED_QUOTE);
    ReplaceAtQuote(a, b, ESCAPED_QUOTE);
    QuotedAtQuote(ReplaceQuotes(a, DOUBLE_QUOTED_QUOTE), ReplaceQuotes(b, DOUBLE_QUOTED_QUOTE), "\"'\"");
    QuotedAtQuote(ReplaceQuotes(a, ESCAPED_QUOTE), ReplaceQuotes(b, ESCAPED_QUOTE), "\\'");
    assert DOUBLE_QUOTED_QUOTE == "'" + "\"'\"" + "'" && ESCAPED_QUOTE == "'" + "\\'" + "'";
  }

  lemma {:induction false} ScanOfLiteral(text: string, rest: string, sofar: string)
    requires forall i :: 0 <= i < |text| ==> IsLiteral(text[i])
    ensures Scan(text + rest, Plain, Some(sofar)) == Scan(rest, Plain, Some(sofar + text))
  {
    if text == "" {
      assert text + rest == rest && sofar + text == sofar;
    } else {
      ScanOfLiteral(text[1..], rest, sofar + [text[0]]);
      assert (text + rest)[1..] == text[1..] + rest;
      assert sofar + [text[0]] + text[1..] == sofar + text;
    }
  }

  lemma {:induction false} LiteralReadsAsWord(text: string)
    requires IsLiteralWord(text)
    ensures ReadsAs(text, [Word(text)])
  {
    forall rest: string | rest == "" || IsBlank(rest[0])
      ensures Scan(text + rest, Plain, None) == Prepend([Word(text)], Scan(rest, Plain, None))
    {
      assert (text + rest)[1..] == text[1..] + rest;
      ScanOfLiteral(text[1..], rest, [text[0]]);
      assert [text[0]] + text[1..] == text;
      assert "" + [text[0]] == [text[0]];
      BlankEndsWord(rest, Some(text));
    }
  }

  lemma {:induction false} ScanOfOneCharOperator(text: string, rest: string)
    requires |text| == 1 && IsOperatorChar(text[0]) && (rest == "" || IsBlank(rest[0]))
    ensures Scan(text + rest, Plain, None) == Prepend([] + [Op(text)], Scan(rest, Plain, None))
  {
    var s := text + rest;
    assert s[1..] == rest && s[..1] == text && s[0] == text[0];
    if |s| > 1 {
      assert s[..2][1] == rest[0];
      assert !IsTwoCharOperator(s[..2]);
    }
  }

  lemma {:induction false} ScanOfTwoCharOperator(text: string, rest: string)
    requires IsTwoCharOperator(text)
    ensures Scan(text + rest, Plain, None) == Prepend([] + [Op(text)], Scan(rest, Plain, None))
  {
    var s := text + rest;
    assert s[2..] == rest && s[..2] == text && s[0] == text[0];
  }

  lemma {:induction false} OperatorReadsAsItself(text: string)
    requires (|text| == 1 && IsOperatorChar(text[0])) || IsTwoCharOperator(text)
    ensures ReadsAs(text, [Op(text)])
  {
    assert [] + [Op(text)] == [Op(text)];
    forall rest: string | rest == "" || IsBlank(rest[0])
      ensures Scan(text + rest, Plain, None) == Prepend([Op(text)], Scan(rest, Plain, None))
    {
      if |text| == 1 {
        ScanOfOneCharOperator(text, rest);
      } else {
        ScanOfTwoCharOperator(text, rest);
      }
    }
  }

  lemma {:induction false} ScanOfRedirect(rest: string)
    ensures Scan("2>&1" + rest, Plain, None) == Prepend([Word("2")] + [Op(">&")], Scan("1" + rest, Plain, None))
  {
    var s := "2>&1" + rest;
    assert s[1..] == ">&1" + rest;
    assert s[1..][2..] == "1" + rest && s[1..][..2] == ">&";
    assert Current(None) + [s[0]] == "2";
  }

  lemma {:induction false} RedirectReads()
    ensures ReadsAs("2>&1", [Word("2"), Op(">&"), Word("1")])
  {
    forall rest: string | rest == "" || IsBlank(rest[0])
      ensures Scan("2>&1" + rest, Plain, None) == Prepend([Word("2"), Op(">&"), Word("1")], Scan(rest, Plain, None))
    {
      ScanOfRedirect(rest);
      LiteralReadsAsWord("1");
      PrependPrepend([Word("2")] + [Op(">&")], [Word("1")], Scan(rest, Plain, None));
      assert [Word("2")] + [Op(">&")] + [Word("1")] == [Word("2"), Op(">&"), Word("1")];
    }
  }

  // ---------- a command line built piece by piece ----------

  datatype Piece = Quoted(value: string) | Literal(text: string) | Operator(text: string) | ErrorsToOutput

  datatype Line = One(piece: Piece) | Then(front: Line, piece: Piece)

  ghost predicate ValidPiece(piece: Piece) {
    match piece
    case Quoted(_) => true
    case Literal(text) => IsLiteralWord(text)
    case Operator(text) => (|text| == 1 && IsOperatorChar(text[0])) || IsTwoCharOperator(text)
    case ErrorsToOutput => true
  }

  ghost predicate ValidLine(line: Line) {
    ValidPiece(line.piece) && (line.Then? ==> ValidLine(line.front))
  }

  function PieceText(piece: Piece): string {
    match piece
    case Quoted(value) => QuotePosix(value)
    case Literal(text) => text
    case Operator(text) => text
    case ErrorsToOutput => "2>&1"
  }

  function PieceTokens(piece: Piece): seq<Token> {
    match piece
    case Quoted(value) => [Word(value)]
    case Literal(text) => [Word(text)]
    case Operator(text) => [Op(text)]
    case ErrorsToOutput => [Word("2"), Op(">&"), Word("1")]
  }

  function LineText(line: Line): string {
    match line
    case One(piece) => PieceText(piece)
    case Then(front, piece) => LineText(front) + " " + PieceText(piece)
  }

  function LineTokens(line: Line): seq<Token> {
    match line
    case One(piece) => PieceTokens(piece)
    case Then(front, piece) => LineTokens(front) + PieceTokens(piece)
  }

  lemma {:induction false} PieceReads(piece: Piece)
    requires ValidPiece(piece)
    ensures ReadsAs(PieceText(piece), PieceTokens(piece))
  {
    match piece
    case Quoted(value) => QuotersRoundTrip(value);
    case Literal(text) => LiteralReadsAsWord(text);
    case Operator(text) => OperatorReadsAsItself(text);
    case ErrorsToOutput => RedirectReads();
  }

  /** A line of quoted values, literal words and operators with single spaces between them reads as exactly those. */
  lemma {:induction false} LineReads(line: Line)
    requires ValidLine(line)
    ensures ReadsAs(LineText(line), LineTokens(line))
    ensures Read(LineText(line)) == Some(LineTokens(line))
  {
    PieceReads(line.piece);
    if line.Then? {
      LineReads(line.front);
      SpaceSeparates(LineText(line.front), LineTokens(line.front), PieceText(line.piece), PieceTokens(line.piece));
    }
    ReadOfText(LineText(line), LineTokens(line));
  }
}
