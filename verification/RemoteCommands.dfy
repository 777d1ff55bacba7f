/**
 The command lines the program sends to remote shells. Each reads as the intended words and operators, and a
 command wrapped for `sh -lc` reads, outer shell first, back to the inner command.
 */
module RemoteCommands {
  import opened Wrappers
  import opened Text
  import opened ShellQuoting

  // ---------- decimal numbers ----------

  function Digit(d: nat): char
    requires d < 10
  {
    ('0' as int + d) as char
  }

  function Decimal(n: nat): string {
    if n < 10 then [Digit(n)] else Decimal(n / 10) + [Digit(n % 10)]
  }

  function Itoa(n: int): string {
    if n < 0 then "-" + Decimal(-n) else Decimal(n)
  }

  lemma {:induction false} DecimalIsLiteral(n: nat)
    ensures IsLiteralWord(Decimal(n))
  {
    if n >= 10 {
      DecimalIsLiteral(n / 10);
    }
  }

  predicate AllDigits(s: string) {
    forall i :: 0 <= i < |s| ==> '0' <= s[i] <= '9'
  }

  function ParseDecimal(s: string): nat
    requires AllDigits(s)
  {
    if s == "" then 0 else 10 * ParseDecimal(s[..|s| - 1]) + (s[|s| - 1] as int - '0' as int)
  }

  /** A number's digits read back as the number, and have no leading zero. */
  lemma {:induction false} DecimalRoundTrip(n: nat)
    ensures Decimal(n) != "" && AllDigits(Decimal(n)) && ParseDecimal(Decimal(n)) == n
    ensures n > 0 ==> Decimal(n)[0] != '0'
  {
    if n >= 10 {
      DecimalRoundTrip(n / 10);
      assert Decimal(n)[..|Decimal(n)| - 1] == Decimal(n / 10);
    } else {
      assert Decimal(n)[..0] == "" && ParseDecimal("") == 0;
    }
  }

  /** An integer is written as its digits, after a minus sign if it is negative. */
  lemma ItoaReadsBack(n: int)
    ensures n >= 0 ==> AllDigits(Itoa(n)) && ParseDecimal(Itoa(n)) == n
    ensures n < 0 ==> Itoa(n) == "-" + Itoa(-n)
  {
    if n >= 0 {
      DecimalRoundTrip(n);
    }
  }

  // ---------- lines with several literal words ----------

  function Words(texts: seq<string>): seq<Token> {
    seq(|texts|, i requires 0 <= i < |texts| => Word(texts[i]))
  }

  function Spaced(words: seq<string>): string {
    if words == [] then "" else " " + words[0] + Spaced(words[1..])
  }

  function WithWords(line: Line, words: seq<string>): Line
    decreases |words|
  {
    if words == [] then line else WithWords(Then(line, Literal(words[0])), words[1..])
  }

  ghost predicate LiteralWords(words: seq<string>) {
    forall i :: 0 <= i < |words| ==> IsLiteralWord(words[i])
  }

  lemma Assoc(a: string, b: string, c: string)
    ensures (a + b) + c == a + (b + c)
  {
  }

  lemma {:induction false} WithWordsReads(line: Line, words: seq<string>)
    requires ValidLine(line) && LiteralWords(words)
    ensures ValidLine(WithWords(line, words))
    ensures LineText(WithWords(line, words)) == LineText(line) + Spaced(words)
    ensures LineTokens(WithWords(line, words)) == LineTokens(line) + Words(words)
    decreases |words|
  {
    if words == [] {
      assert LineText(line) + "" == LineText(line) && LineTokens(line) + [] == LineTokens(line);
    } else {
      var next := Then(line, Literal(words[0]));
      WithWordsReads(next, words[1..]);
      Regroup(LineText(line), words[0], Spaced(words[1..]));
      assert LineTokens(line) + [Word(words[0])] + Words(words[1..]) == LineTokens(line) + Words(words);
    }
  }

  lemma Regroup(a: string, b: string, c: string)
    ensures a + " " + b + c == a + (" " + b + c)
  {
  }

  lemma WordsOfConcat(a: seq<string>, b: seq<string>)
    ensures Words(a + b) == Words(a) + Words(b)
  {
  }

  lemma {:induction false} SpacedUnfolds(word: string, words: seq<string>)
    ensures Spaced([word] + words) == " " + word + Spaced(words)
  {
    assert ([word] + words)[1..] == words;
  }

  // ---------- the containers service ----------

  function LogsFlags(): seq<string> {
    ["logs"] + (["--timestamps"] + (["--tail"] + []))
  }

  lemma {:induction false} LogsFlagsText()
    ensures Spaced(LogsFlags()) + " " == " logs --timestamps --tail "
  {
    SpacedUnfolds("--tail", []);
    SpacedUnfolds("--timestamps", ["--tail"] + []);
    SpacedUnfolds("logs", ["--timestamps"] + (["--tail"] + []));
  }

  lemma LogsWordsAreLiteral()
    ensures IsLiteralWord("logs") && IsLiteralWord("--timestamps") && IsLiteralWord("--tail") && IsLiteralWord("--since")
  {
  }

  lemma LogsFlagsAreLiteral()
    ensures LiteralWords(LogsFlags())
  {
    LogsWordsAreLiteral();
    var flags := LogsFlags();
    assert |flags| == 3 && flags[0] == "logs" && flags[1] == "--timestamps" && flags[2] == "--tail";
  }

  // `runtime logs --timestamps --tail n`, with the flags as a parameter.
  function LogsHead(runtimeCommand: string, flags: seq<string>, lines: nat): Line {
    Then(WithWords(One(Quoted(runtimeCommand)), flags), Literal(Decimal(lines)))
  }

  function SinceLine(head: Line, since: string): Line {
    if since == "" then head else Then(Then(head, Literal("--since")), Quoted(since))
  }

  // A tail of 200 lines unless a positive one is asked for, and a start time unless it is blank.
  function LogsLine(runtimeCommand: string, containerId: string, tail: int, followCursor: string): Line {
    var head := LogsHead(runtimeCommand, LogsFlags(), if tail <= 0 then 200 else tail);
    Then(SinceLine(head, Trim(IsGoSpace, followCursor)), Quoted(containerId))
  }

  lemma {:induction false} HeadReads(runtimeCommand: string, flags: seq<string>, lines: nat)
    requires LiteralWords(flags)
    ensures ValidLine(LogsHead(runtimeCommand, flags, lines))
    ensures LineText(LogsHead(runtimeCommand, flags, lines))
         == QuotePosix(runtimeCommand) + (Spaced(flags) + " ") + Decimal(lines)
    ensures LineTokens(LogsHead(runtimeCommand, flags, lines)) == Words([runtimeCommand] + flags + [Decimal(lines)])
  {
    WithWordsReads(One(Quoted(runtimeCommand)), flags);
    Assoc(QuotePosix(runtimeCommand), Spaced(flags), " ");
    DecimalIsLiteral(lines);
    WordsOfConcat([runtimeCommand], flags);
    WordsOfConcat([runtimeCommand] + flags, [Decimal(lines)]);
    assert Words([runtimeCommand]) == [Word(runtimeCommand)] && Words([Decimal(lines)]) == [Word(Decimal(lines))];
  }

  lemma {:induction false} SinceReads(head: Line, words: seq<string>, since: string)
    requires ValidLine(head) && LineTokens(head) == Words(words) && since != ""
    ensures ValidLine(SinceLine(head, since))
    ensures LineText(SinceLine(head, since)) == LineText(head) + " --since " + QuotePosix(since)
    ensures LineTokens(SinceLine(head, since)) == Words(words + ["--since", since])
  {
    LogsWordsAreLiteral();
    assert " " + "--since" + " " == " --since ";
    Regroup(LineText(head), "--since", " ");
    var one := Then(head, Literal("--since"));
    assert ValidLine(one) && LineTokens(one) == Words(words) + [Word("--since")];
    assert Words(words) + [Word("--since")] + [Word(since)] == Words(words + ["--since", since]);
  }

  method BuildLogsCommand(runtimeCommand: string, containerId: string, tail: int, followCursor: string)
    returns (command: string)
    ensures command == LineText(LogsLine(runtimeCommand, containerId, tail, followCursor))
  {
    var lines := if tail <= 0 then 200 else tail;
    ghost var line := LogsHead(runtimeCommand, LogsFlags(), lines);
    LogsFlagsAreLiteral();
    LogsFlagsText();
    HeadReads(runtimeCommand, LogsFlags(), lines);
    command := QuotePosix(runtimeCommand);
    command := command + " logs --timestamps --tail ";
    command := command + Decimal(lines);
    assert command == LineText(line);
    if Trim(IsGoSpace, followCursor) != "" {
      SinceReads(line, [runtimeCommand] + LogsFlags() + [Decimal(lines)], Trim(IsGoSpace, followCursor));
      command := command + " --since ";
      command := command + QuotePosix(Trim(IsGoSpace, followCursor));
    }
    command := command + " ";
    command := command + QuotePosix(containerId);
  }

  /** A logs command reads as its words, with the container and the cursor unchanged whatever they contain. */
  lemma {:induction false} LogsCommandReads(runtimeCommand: string, containerId: string, tail: int, followCursor: string)
    ensures ValidLine(LogsLine(runtimeCommand, containerId, tail, followCursor))
    ensures Read(LineText(LogsLine(runtimeCommand, containerId, tail, followCursor)))
         == Some(Words([runtimeCommand] + LogsFlags() + [Decimal(if tail <= 0 then 200 else tail)]
                       + (if Trim(IsGoSpace, followCursor) == "" then [] else ["--since", Trim(IsGoSpace, followCursor)])
                       + [containerId]))
  {
    var lines, since := if tail <= 0 then 200 else tail, Trim(IsGoSpace, followCursor);
    var words := [runtimeCommand] + LogsFlags() + [Decimal(lines)];
    var head := LogsHead(runtimeCommand, LogsFlags(), lines);
    LogsFlagsAreLiteral();
    HeadReads(runtimeCommand, LogsFlags(), lines);
    if since == "" {
      assert words + [] == words;
    } else {
      SinceReads(head, words, since);
      words := words + ["--since", since];
    }
    WordsOfConcat(words, [containerId]);
    assert Words([containerId]) == [Word(containerId)];
    LineReads(LogsLine(runtimeCommand, containerId, tail, followCursor));
  }

  // The runtime's own name for a container action; other actions are passed on as they are.
  function ActionVerb(action: string): string {
    if action == "remove" then "rm" else action
  }

  method BuildContainerActionCommand(runtimeCommand: string, action: string, containerId: string) returns (command: string)
    ensures command == QuotePosix(runtimeCommand) + " " + (if action == "remove" then "rm" else action) + " " + QuotePosix(containerId)
  {
    command := QuotePosix(runtimeCommand);
    command := command + " ";
    Assoc(command, ActionVerb(action), " ");
    if action == "start" {
      command := command + "start ";
    } else if action == "stop" {
      command := command + "stop ";
    } else if action == "restart" {
      command := command + "restart ";
    } else if action == "remove" {
      command := command + "rm ";
    } else {
      command := command + action;
      command := command + " ";
    }
    assert "start" + " " == "start " && "stop" + " " == "stop " && "restart" + " " == "restart " && "rm" + " " == "rm ";
    command := command + QuotePosix(containerId);
  }

  predicate IsKnownAction(action: string) {
    action == "start" || action == "stop" || action == "restart" || action == "remove"
  }

  lemma KnownActionIsLiteral(action: string)
    requires IsKnownAction(action)
    ensures IsLiteralWord(ActionVerb(action))
  {
  }

  /** Whatever an action reads as stands between the runtime and the container; the four known ones are one word. */
  lemma {:induction false} ContainerActionReads(runtimeCommand: string, action: string, containerId: string, verb: seq<Token>)
    requires ReadsAs(if action == "remove" then "rm" else action, verb)
    ensures Read(QuotePosix(runtimeCommand) + " " + (if action == "remove" then "rm" else action) + " " + QuotePosix(containerId))
         == Some([Word(runtimeCommand)] + verb + [Word(containerId)])
    ensures IsKnownAction(action) ==> verb == [Word(if action == "remove" then "rm" else action)]
  {
    var front := QuotePosix(runtimeCommand) + " " + ActionVerb(action);
    QuotersRoundTrip(runtimeCommand);
    QuotersRoundTrip(containerId);
    SpaceSeparates(QuotePosix(runtimeCommand), [Word(runtimeCommand)], ActionVerb(action), verb);
    SpaceSeparates(front, [Word(runtimeCommand)] + verb, QuotePosix(containerId), [Word(containerId)]);
    ReadOfText(front + " " + QuotePosix(containerId), [Word(runtimeCommand)] + verb + [Word(containerId)]);
    ReadOfText(ActionVerb(action), verb);
    if IsKnownAction(action) {
      KnownActionIsLiteral(action);
      LiteralReadsAsWord(ActionVerb(action));
      ReadOfText(ActionVerb(action), [Word(ActionVerb(action))]);
    }
  }

  function GrepWords(): seq<string> {
    ["LC_ALL=C"] + (["grep"] + (["-iF"] + (["--"] + [])))
  }

  lemma {:induction false} GrepText()
    ensures " 2>&1" + (" |" + (Spaced(GrepWords()) + " ")) == " 2>&1 | LC_ALL=C grep -iF -- "
  {
    SpacedUnfolds("--", []);
    SpacedUnfolds("-iF", ["--"] + []);
    SpacedUnfolds("grep", ["-iF"] + (["--"] + []));
    SpacedUnfolds("LC_ALL=C", ["grep"] + (["-iF"] + (["--"] + [])));
  }

  lemma GrepWordsAreLiteral()
    ensures IsLiteralWord("LC_ALL=C") && IsLiteralWord("grep") && IsLiteralWord("-iF") && IsLiteralWord("--")
    ensures IsLiteralWord("true")
  {
  }

  lemma GrepLineIsLiteral()
    ensures LiteralWords(GrepWords())
  {
    GrepWordsAreLiteral();
    var words := GrepWords();
    assert |words| == 4 && words[0] == "LC_ALL=C" && words[1] == "grep" && words[2] == "-iF" && words[3] == "--";
  }

  // The logs, both output streams, through a case-insensitive fixed-string grep that may find nothing.
  function SearchLine(logs: Line, grep: seq<string>, query: string): Line {
    Then(Then(Then(WithWords(Then(Then(logs, ErrorsToOutput), Operator("|")), grep), Quoted(query)), Operator("||")), Literal("true"))
  }

  function SearchTokens(logs: seq<Token>, grep: seq<string>, query: string): seq<Token> {
    logs + [Word("2"), Op(">&"), Word("1")] + [Op("|")] + Words(grep) + [Word(query)] + [Op("||")] + [Word("true")]
  }

  lemma {:induction false} PipeReads(logs: Line)
    requires ValidLine(logs)
    ensures var pipe := Then(Then(logs, ErrorsToOutput), Operator("|"));
            && ValidLine(pipe)
            && LineText(pipe) == LineText(logs) + (" 2>&1" + " |")
            && LineTokens(pipe) == LineTokens(logs) + [Word("2"), Op(">&"), Word("1")] + [Op("|")]
  {
    var redirected := Then(logs, ErrorsToOutput);
    assert ValidLine(redirected) && LineTokens(redirected) == LineTokens(logs) + [Word("2"), Op(">&"), Word("1")];
    assert LineText(redirected) + " " + "|" == LineText(logs) + (" 2>&1" + " |");
  }

  lemma OrTrue(s: string)
    ensures s + " " + "||" + " " + "true" == s + " || true"
  {
  }

  lemma {:induction false} QueryReads(words: Line, query: string)
    requires ValidLine(words)
    ensures var line := Then(Then(Then(words, Quoted(query)), Operator("||")), Literal("true"));
            && ValidLine(line)
            && LineText(line) == LineText(words) + " " + QuotePosix(query) + " || true"
            && LineTokens(line) == LineTokens(words) + [Word(query)] + [Op("||")] + [Word("true")]
  {
    GrepWordsAreLiteral();
    var one := Then(words, Quoted(query));
    assert ValidLine(one) && LineTokens(one) == LineTokens(words) + [Word(query)];
    var or := Then(one, Operator("||"));
    assert ValidLine(or) && LineTokens(or) == LineTokens(one) + [Op("||")];
    OrTrue(LineText(one));
  }

  lemma {:induction false} SearchReads(logs: Line, grep: seq<string>, query: string)
    requires ValidLine(logs) && LiteralWords(grep)
    ensures ValidLine(SearchLine(logs, grep, query))
    ensures LineText(SearchLine(logs, grep, query))
         == LineText(logs) + (" 2>&1" + (" |" + (Spaced(grep) + " "))) + QuotePosix(query) + " || true"
    ensures LineTokens(SearchLine(logs, grep, query)) == SearchTokens(LineTokens(logs), grep, query)
  {
    var pipe := Then(Then(logs, ErrorsToOutput), Operator("|"));
    PipeReads(logs);
    WithWordsReads(pipe, grep);
    QueryReads(WithWords(pipe, grep), query);
    PipeText(LineText(logs), Spaced(grep));
  }

  lemma PipeText(logs: string, grep: string)
    ensures logs + (" 2>&1" + " |") + grep + " " == logs + (" 2>&1" + (" |" + (grep + " ")))
  {
  }

  method BuildSearchLogsCommand(runtimeCommand: string, containerId: string, tail: int, query: string)
    returns (command: string)
    ensures command == LineText(SearchLine(LogsLine(runtimeCommand, containerId, tail, ""), GrepWords(), query))
  {
    var logsCommand := BuildLogsCommand(runtimeCommand, containerId, tail, "");
    command := logsCommand + " 2>&1 | LC_ALL=C grep -iF -- " + QuotePosix(query) + " || true";
    LogsCommandReads(runtimeCommand, containerId, tail, "");
    GrepText();
    GrepLineIsLiteral();
    SearchReads(LogsLine(runtimeCommand, containerId, tail, ""), GrepWords(), query);
  }

  /** The search command pipes both outputs of the logs command into grep, with the query as one word whatever it contains. */
  lemma {:induction false} SearchCommandReads(runtimeCommand: string, containerId: string, tail: int, query: string)
    ensures var logs := LogsLine(runtimeCommand, containerId, tail, "");
            && Read(LineText(logs)).Some?
            && Read(LineText(SearchLine(logs, GrepWords(), query)))
               == Some(SearchTokens(Read(LineText(logs)).value, GrepWords(), query))
  {
    var logs := LogsLine(runtimeCommand, containerId, tail, "");
    LogsCommandReads(runtimeCommand, containerId, tail, "");
    GrepLineIsLiteral();
    SearchReads(logs, GrepWords(), query);
    LineReads(logs);
    LineReads(SearchLine(logs, GrepWords(), query));
  }

  // The wrapping in runEndpointShellCommand.
  function WrapForLoginShell(command: string): string {
    "sh -lc " + QuotePosix(command)
  }

  lemma LoginShellWords()
    ensures IsLiteralWord("sh") && IsLiteralWord("-lc") && "sh" + " " + "-lc" + " " == "sh -lc "
  {
  }

  /** The outer shell sees exactly three words, the last of which is the inner command, whatever it contains. */
  lemma {:induction false} WrappedCommandUnwraps(command: string)
    ensures Read(WrapForLoginShell(command)) == Some([Word("sh"), Word("-lc"), Word(command)])
  {
    LoginShellWords();
    var front := Then(One(Literal("sh")), Literal("-lc"));
    assert ValidLine(front) && LineTokens(front) == [Word("sh")] + [Word("-lc")];
    assert LineText(front) == "sh" + " " + "-lc";
    LineReads(Then(front, Quoted(command)));
    assert [Word("sh")] + [Word("-lc")] + [Word(command)] == [Word("sh"), Word("-lc"), Word(command)];
  }

  // ---------- the desktop process ----------

  function ContainerShellInner(runtimeCommand: string, containerId: string): string {
    var id, runtime := QuotePosixJs(containerId), QuotePosixJs(runtimeCommand);
    runtime + " exec -it " + id + " /bin/sh || " + runtime + " exec -it " + id + " /bin/bash"
  }

  function BuildContainerShellCommand(runtimeCommand: string, containerId: string): string {
    "sh -lc " + QuotePosixJs(ContainerShellInner(runtimeCommand, containerId))
  }

  function ExecFlags(): seq<string> {
    ["exec"] + (["-it"] + [])
  }

  lemma {:induction false} ExecFlagsText()
    ensures Spaced(ExecFlags()) + " " == " exec -it " && LiteralWords(ExecFlags())
    ensures IsLiteralWord("/bin/sh") && IsLiteralWord("/bin/bash")
  {
    SpacedUnfolds("-it", []);
    SpacedUnfolds("exec", ["-it"] + []);
    var flags := ExecFlags();
    assert IsLiteralWord("exec") && IsLiteralWord("-it");
    assert |flags| == 2 && flags[0] == "exec" && flags[1] == "-it";
  }

  // `runtime exec -it id shell`, with the flags and the shell as parameters.
  lemma {:induction false} ExecReads(runtimeCommand: string, flags: seq<string>, containerId: string, shell: string)
    requires LiteralWords(flags) && IsLiteralWord(shell)
    ensures ReadsAs(QuotePosix(runtimeCommand) + (Spaced(flags) + " ") + QuotePosix(containerId) + " " + shell,
                    Words([runtimeCommand] + flags + [containerId, shell]))
  {
    var line := WithWords(One(Quoted(runtimeCommand)), flags);
    WithWordsReads(One(Quoted(runtimeCommand)), flags);
    Assoc(QuotePosix(runtimeCommand), Spaced(flags), " ");
    var exec := Then(line, Quoted(containerId));
    assert ValidLine(exec);
    LineReads(Then(exec, Literal(shell)));
    WordsOfConcat([runtimeCommand], flags);
    WordsOfConcat([runtimeCommand] + flags, [containerId, shell]);
    assert Words([runtimeCommand]) == [Word(runtimeCommand)];
    assert Words([containerId, shell]) == [Word(containerId)] + [Word(shell)];
    assert LineTokens(line) + [Word(containerId)] + [Word(shell)] == LineTokens(line) + ([Word(containerId)] + [Word(shell)]);
  }

  lemma TwoExecs(head: string, runtime: string, flags: string, id: string)
    requires head == runtime + flags + id
    ensures (head + " " + "/bin/sh") + " " + "||" + " " + (head + " " + "/bin/bash")
         == head + " /bin/sh || " + runtime + flags + id + " /bin/bash"
  {
    assert (head + " " + "/bin/sh") + " " + "||" + " " == head + " /bin/sh || ";
    var front := head + " /bin/sh || ";
    Assoc(front, runtime, flags);
    Assoc(front, runtime + flags, id);
    Assoc(front, head, " /bin/bash");
    assert head + " " + "/bin/bash" == head + " /bin/bash";
  }

  /** Read by the outer shell and then by the inner one, the container shell command runs sh, or else bash, in the container. */
  lemma {:induction false} ContainerShellCommandReads(runtimeCommand: string, containerId: string)
    ensures Read(BuildContainerShellCommand(runtimeCommand, containerId))
         == Some([Word("sh"), Word("-lc"), Word(ContainerShellInner(runtimeCommand, containerId))])
    ensures Read(ContainerShellInner(runtimeCommand, containerId))
         == Some(Words([runtimeCommand] + ExecFlags() + [containerId, "/bin/sh"]) + [Op("||")]
                 + Words([runtimeCommand] + ExecFlags() + [containerId, "/bin/bash"]))
  {
    QuotersRoundTrip(ContainerShellInner(runtimeCommand, containerId));
    WrappedCommandUnwraps(ContainerShellInner(runtimeCommand, containerId));
    InnerReads(runtimeCommand, containerId);
  }

  lemma {:induction false} InnerReads(runtimeCommand: string, containerId: string)
    ensures Read(ContainerShellInner(runtimeCommand, containerId))
         == Some(Words([runtimeCommand] + ExecFlags() + [containerId, "/bin/sh"]) + [Op("||")]
                 + Words([runtimeCommand] + ExecFlags() + [containerId, "/bin/bash"]))
  {
    var head := QuotePosix(runtimeCommand) + " exec -it " + QuotePosix(containerId);
    var t1 := Words([runtimeCommand] + ExecFlags() + [containerId, "/bin/sh"]);
    var t2 := Words([runtimeCommand] + ExecFlags() + [containerId, "/bin/bash"]);
    QuotersRoundTrip(runtimeCommand);
    QuotersRoundTrip(containerId);
    ExecFlagsText();
    ExecReads(runtimeCommand, ExecFlags(), containerId, "/bin/sh");
    ExecReads(runtimeCommand, ExecFlags(), containerId, "/bin/bash");
    OrReads(head + " " + "/bin/sh", t1, head + " " + "/bin/bash", t2);
    TwoExecs(head, QuotePosix(runtimeCommand), " exec -it ", QuotePosix(containerId));
  }

  lemma {:induction false} OrReads(first: string, t1: seq<Token>, second: string, t2: seq<Token>)
    requires ReadsAs(first, t1) && ReadsAs(second, t2)
    ensures Read(first + " " + "||" + " " + second) == Some(t1 + [Op("||")] + t2)
  {
    OperatorReadsAsItself("||");
    SpaceSeparates(first, t1, "||", [Op("||")]);
    SpaceSeparates(first + " " + "||", t1 + [Op("||")], second, t2);
    ReadOfText(first + " " + "||" + " " + second, t1 + [Op("||")] + t2);
  }

  // ---------- the forwarding service ----------

  function BuildSessionProxyCommand(interpreterPath: string, script: string, targetHost: string, targetPort: int): string {
    ShellQuote(interpreterPath) + " -u -c " + ShellQuote(script) + " " + ShellQuote(targetHost) + " " + ShellQuote(Itoa(targetPort))
  }

  lemma ProxyFlags(q: string)
    ensures IsLiteralWord("-u") && IsLiteralWord("-c") && q + " " + "-u" + " " + "-c" + " " == q + " -u -c "
  {
  }

  /** The proxy command reads as the interpreter, its two flags, the script, the host and the port. */
  lemma {:induction false} SessionProxyCommandReads(interpreterPath: string, script: string, targetHost: string, targetPort: int)
    ensures Read(BuildSessionProxyCommand(interpreterPath, script, targetHost, targetPort))
         == Some(Words([interpreterPath, "-u", "-c", script, targetHost, Itoa(targetPort)]))
  {
    ProxyFlags(ShellQuote(interpreterPath));
    ProxyReads(interpreterPath, "-u", "-c", script, targetHost, Itoa(targetPort));
  }

  // The same, with the flags as parameters.
  lemma {:induction false} ProxyReads(interpreter: string, u: string, c: string, script: string, host: string, port: string)
    requires IsLiteralWord(u) && IsLiteralWord(c)
    ensures Read(ShellQuote(interpreter) + " " + u + " " + c + " " + ShellQuote(script) + " " + ShellQuote(host) + " " + ShellQuote(port))
         == Some(Words([interpreter, u, c, script, host, port]))
  {
    var q := ShellQuote(interpreter);
    QuotersRoundTrip(interpreter);
    LiteralReadsAsWord(u);
    LiteralReadsAsWord(c);
    SpaceSeparates(q, [Word(interpreter)], u, [Word(u)]);
    SpaceSeparates(q + " " + u, [Word(interpreter)] + [Word(u)], c, [Word(c)]);
    var t := [Word(interpreter)] + [Word(u)] + [Word(c)];
    ThreeMoreRead(q + " " + u + " " + c, t, script, host, port);
    assert t + [Word(script)] + [Word(host)] + [Word(port)] == Words([interpreter, u, c, script, host, port]);
  }

  lemma {:induction false} ThreeMoreRead(head: string, t: seq<Token>, a: string, b: string, c: string)
    requires ReadsAs(head, t)
    ensures Read(head + " " + ShellQuote(a) + " " + ShellQuote(b) + " " + ShellQuote(c))
         == Some(t + [Word(a)] + [Word(b)] + [Word(c)])
  {
    QuotersRoundTrip(a);
    QuotersRoundTrip(b);
    QuotersRoundTrip(c);
    SpaceSeparates(head, t, ShellQuote(a), [Word(a)]);
    SpaceSeparates(head + " " + ShellQuote(a), t + [Word(a)], ShellQuote(b), [Word(b)]);
    SpaceSeparates(head + " " + ShellQuote(a) + " " + ShellQuote(b), t + [Word(a)] + [Word(b)], ShellQuote(c), [Word(c)]);
    ReadOfText(head + " " + ShellQuote(a) + " " + ShellQuote(b) + " " + ShellQuote(c), t + [Word(a)] + [Word(b)] + [Word(c)]);
  }
}
