/**
 The activity log: a list in memory, newest first, and a file with one record per line to which new records are
 appended and which is rewritten on every other change.
 */
module ActivityLog {
  import opened Wrappers
  import opened StableSort

  // createdAt stands for the ISO timestamp, whose text order is the order of time.
  datatype Record = Record(id: string, createdAt: int, body: string)

  // The log is capped at this many records.
  const MAX_ACTIVITY_LOGS := 10_000

  // compareIsoDesc(a, b) <= 0
  predicate NewerFirst(a: Record, b: Record) {
    a.createdAt >= b.createdAt
  }

  function NewestFirst(): ((Record, Record) -> bool) {
    (a, b) => NewerFirst(a, b)
  }

  lemma NewestFirstIsPreorder()
    ensures TotalPreorder(NewestFirst())
  {
  }

  function Capped(records: seq<Record>): seq<Record> {
    if |records| > MAX_ACTIVITY_LOGS then records[..MAX_ACTIVITY_LOGS] else records
  }

  // The index of the record with this id, or the length of the list.
  function FindIndex(records: seq<Record>, id: string): (i: nat)
    ensures i <= |records|
    ensures i < |records| ==> records[i].id == id
    ensures forall j :: 0 <= j < i ==> records[j].id != id
  {
    if records == [] || records[0].id == id then 0 else 1 + FindIndex(records[1..], id)
  }

  // ---------- the specification: memory and file lines ----------

  // A record as a line of JSON; reading it back normalises it, and fails on a line that is no record.
  datatype Codec = Codec(render: Record -> string, parse: string -> Option<Record>)

  datatype Log = Log(memory: seq<Record>, file: seq<string>)

  function Rendered(codec: Codec, records: seq<Record>): (lines: seq<string>)
    ensures |lines| == |records|
  {
    if records == [] then [] else [codec.render(records[0])] + Rendered(codec, records[1..])
  }

  // The records of the lines that parse.
  function Parsed(codec: Codec, lines: seq<string>): seq<Record> {
    if lines == [] then []
    else
      var first, rest := codec.parse(lines[0]), Parsed(codec, lines[1..]);
      if first.Some? then [first.value] + rest else rest
  }

  function Append(codec: Codec, log: Log, record: Record): Log {
    var memory := [record] + log.memory;
    if |memory| > MAX_ACTIVITY_LOGS then Log(Capped(memory), Rendered(codec, Capped(memory)))
    else Log(memory, log.file + [codec.render(record)])
  }

  // The record takes the place of the first one with its id, or goes to the front.
  function Put(records: seq<Record>, record: Record): seq<Record> {
    var i := FindIndex(records, record.id);
    if i < |records| then records[i := record] else [record] + records
  }

  function Upsert(codec: Codec, log: Log, record: Record): Log {
    var sorted := Capped(Sort(NewestFirst(), Put(log.memory, record)));
    Log(sorted, Rendered(codec, sorted))
  }

  // What loading the file gives.
  function Reload(codec: Codec, log: Log): seq<Record> {
    Capped(Sort(NewestFirst(), Parsed(codec, log.file)))
  }

  class ActivityLogStorage {
    const codec: Codec
    var activityLogs: seq<Record>
    var file: seq<string>

    constructor (codec: Codec)
      ensures this.codec == codec && Abs() == Log([], [])
    {
      this.codec := codec;
      activityLogs, file := [], [];
    }

    function Abs(): Log
      reads this
    {
      Log(activityLogs, file)
    }

    method RewriteLogsFile()
      modifies this`file
      ensures file == Rendered(codec, activityLogs)
    {
      file := Rendered(codec, activityLogs);
    }

    method AppendActivityLog(record: Record)
      modifies this
      ensures Abs() == Append(codec, old(Abs()), record)
    {
      activityLogs := [record] + activityLogs;
      file := file + [codec.render(record)];
      if |activityLogs| > MAX_ACTIVITY_LOGS {
        activityLogs := activityLogs[..MAX_ACTIVITY_LOGS];
        RewriteLogsFile();
      }
    }

    method UpsertActivityLog(record: Record)
      modifies this
      ensures Abs() == Upsert(codec, old(Abs()), record)
    {
      var currentIndex := FindIndex(activityLogs, record.id);
      if currentIndex < |activityLogs| {
        activityLogs := activityLogs[currentIndex := record];
      } else {
        activityLogs := [record] + activityLogs;
      }
      activityLogs := Sort(NewestFirst(), activityLogs);
      if |activityLogs| > MAX_ACTIVITY_LOGS {
        activityLogs := activityLogs[..MAX_ACTIVITY_LOGS];
      }
      RewriteLogsFile();
    }

    method ClearActivityLogs()
      modifies this
      ensures Abs() == Log([], [])
    {
      activityLogs := [];
      RewriteLogsFile();
    }

    method LoadActivityLogs() returns (logs: seq<Record>)
      ensures logs == Reload(codec, Abs())
    {
      logs := [];
      for i := 0 to |file|
        invariant logs == Parsed(codec, file[..i])
      {
        ParsedLine(codec, file, i);
        var parsed := codec.parse(file[i]);
        if parsed.Some? {
          logs := logs + [parsed.value];
        }
      }
      assert file[..|file|] == file;
      logs := Sort(NewestFirst(), logs);
      if |logs| > MAX_ACTIVITY_LOGS {
        logs := logs[..MAX_ACTIVITY_LOGS];
      }
    }
  }

  lemma {:induction false} ParsedConcat(codec: Codec, a: seq<string>, b: seq<string>)
    ensures Parsed(codec, a + b) == Parsed(codec, a) + Parsed(codec, b)
  {
    if a == [] {
      assert a + b == b;
    } else {
      ParsedConcat(codec, a[1..], b);
      assert (a + b)[1..] == a[1..] + b;
    }
  }

  lemma {:induction false} ParsedLine(codec: Codec, lines: seq<string>, i: nat)
    requires i < |lines|
    ensures var parsed := codec.parse(lines[i]);
            Parsed(codec, lines[..i + 1]) == Parsed(codec, lines[..i]) + if parsed.Some? then [parsed.value] else []
  {
    assert lines[..i + 1] == lines[..i] + [lines[i]];
    ParsedConcat(codec, lines[..i], [lines[i]]);
  }

  lemma {:induction false} ParsedWithoutBroken(codec: Codec, before: seq<string>, broken: string, after: seq<string>)
    requires codec.parse(broken).None?
    ensures Parsed(codec, before + [broken] + after) == Parsed(codec, before + after)
  {
    var upTo := before + [broken];
    ParsedConcat(codec, upTo, after);
    ParsedConcat(codec, before, after);
    assert upTo[..|before| + 1] == upTo && upTo[..|before|] == before;
    ParsedLine(codec, upTo, |before|);
    assert Parsed(codec, before) + [] == Parsed(codec, before);
  }

  /** A line that does not parse, wherever it stands, costs no other record. */
  lemma {:induction false} BrokenLineIsSkipped(codec: Codec, before: seq<string>, broken: string, after: seq<string>, memory: seq<Record>)
    requires codec.parse(broken).None?
    ensures Reload(codec, Log(memory, before + [broken] + after)) == Reload(codec, Log(memory, before + after))
  {
    ParsedWithoutBroken(codec, before, broken, after);
  }

  // ---------- runs ----------

  datatype Command = AppendRecord(record: Record) | UpsertRecord(record: Record) | Clear

  function Apply(codec: Codec, log: Log, command: Command): Log {
    match command
    case AppendRecord(record) => Append(codec, log, record)
    case UpsertRecord(record) => Upsert(codec, log, record)
    case Clear => Log([], [])
  }

  function Run(codec: Codec, commands: seq<Command>): Log {
    if commands == [] then Log([], [])
    else Apply(codec, Run(codec, commands[..|commands| - 1]), commands[|commands| - 1])
  }

  // No record is appended that is older than the newest one in memory.
  ghost predicate AppendsInOrder(codec: Codec, commands: seq<Command>) {
    commands == [] ||
    (&& AppendsInOrder(codec, commands[..|commands| - 1])
     && var last := commands[|commands| - 1];
        var memory := Run(codec, commands[..|commands| - 1]).memory;
        last.AppendRecord? ==> memory == [] || NewerFirst(last.record, memory[0]))
  }

  lemma {:induction false} BagOfRendered(codec: Codec, record: Record, records: seq<Record>, lines: seq<string>)
    requires multiset(lines) == multiset(Rendered(codec, records))
    ensures multiset(lines + [codec.render(record)]) == multiset(Rendered(codec, [record] + records))
  {
    assert ([record] + records)[1..] == records;
  }

  lemma {:induction false} AppendAgrees(codec: Codec, log: Log, record: Record)
    requires multiset(log.file) == multiset(Rendered(codec, log.memory)) && |log.memory| <= MAX_ACTIVITY_LOGS
    ensures var after := Append(codec, log, record);
            multiset(after.file) == multiset(Rendered(codec, after.memory)) && |after.memory| <= MAX_ACTIVITY_LOGS
  {
    BagOfRendered(codec, record, log.memory, log.file);
  }

  /** After any run the file holds the lines of the records that memory holds, at most 10000 of them. */
  lemma {:induction false} FileAgreesWithMemory(codec: Codec, commands: seq<Command>)
    ensures multiset(Run(codec, commands).file) == multiset(Rendered(codec, Run(codec, commands).memory))
    ensures |Run(codec, commands).memory| <= MAX_ACTIVITY_LOGS
  {
    if commands != [] {
      var front := commands[..|commands| - 1];
      FileAgreesWithMemory(codec, front);
      var log := Run(codec, front);
      match commands[|commands| - 1]
      case AppendRecord(record) => AppendAgrees(codec, log, record);
      case UpsertRecord(record) =>
      case Clear =>
    }
  }

  /** Appending keeps a sorted log sorted exactly if the record is not older than the newest one. */
  lemma AppendKeepsSorted(codec: Codec, log: Log, record: Record)
    requires Sorted(NewestFirst(), log.memory) && |log.memory| <= MAX_ACTIVITY_LOGS
    ensures Sorted(NewestFirst(), Append(codec, log, record).memory) <==> log.memory == [] || NewerFirst(record, log.memory[0])
  {
    var leq, memory := NewestFirst(), Append(codec, log, record).memory;
    assert MAX_ACTIVITY_LOGS > 1;
    if log.memory != [] {
      assert memory[0] == record && memory[1] == log.memory[0];
      assert leq(memory[0], memory[1]) <==> NewerFirst(record, log.memory[0]);
      if NewerFirst(record, log.memory[0]) {
        forall i, j | 0 <= i < j < |memory| ensures leq(memory[i], memory[j]) {
          if i == 0 {
            assert j == 1 || leq(log.memory[0], log.memory[j - 1]);
          } else {
            assert leq(log.memory[i - 1], log.memory[j - 1]);
          }
        }
      }
    }
  }

  lemma UpsertSorts(codec: Codec, log: Log, record: Record)
    ensures Sorted(NewestFirst(), Upsert(codec, log, record).memory)
  {
    NewestFirstIsPreorder();
    SortSorts(NewestFirst(), Put(log.memory, record));
    CappedStaysSorted(Sort(NewestFirst(), Put(log.memory, record)));
  }

  lemma CappedStaysSorted(records: seq<Record>)
    requires Sorted(NewestFirst(), records)
    ensures Sorted(NewestFirst(), Capped(records))
  {
  }

  lemma {:induction false} MemoryStaysSorted(codec: Codec, commands: seq<Command>)
    requires AppendsInOrder(codec, commands)
    ensures Sorted(NewestFirst(), Run(codec, commands).memory)
  {
    if commands != [] {
      var front := commands[..|commands| - 1];
      var log := Run(codec, front);
      MemoryStaysSorted(codec, front);
      FileAgreesWithMemory(codec, front);
      match commands[|commands| - 1]
      case AppendRecord(record) => AppendKeepsSorted(codec, log, record);
      case UpsertRecord(record) => UpsertSorts(codec, log, record);
      case Clear =>
    }
  }

  // ---------- reloading ----------

  function Times(records: seq<Record>): (times: seq<int>)
    ensures |times| == |records| && forall i :: 0 <= i < |records| ==> times[i] == records[i].createdAt
  {
    if records == [] then [] else [records[0].createdAt] + Times(records[1..])
  }

  // The list without the first occurrence of x.
  function Without<T(==)>(s: seq<T>, x: T): (rest: seq<T>)
    requires x in s
    ensures |rest| == |s| - 1
  {
    if s[0] == x then s[1..] else [s[0]] + Without(s[1..], x)
  }

  lemma {:induction false} WithoutTakesOne<T>(s: seq<T>, x: T)
    requires x in s
    ensures multiset(s) == multiset(Without(s, x)) + multiset{x}
  {
    assert s == [s[0]] + s[1..];
    if s[0] != x {
      WithoutTakesOne(s[1..], x);
    }
  }

  lemma {:induction false} WithoutTakesOneTime(records: seq<Record>, x: Record)
    requires x in records
    ensures multiset(Times(records)) == multiset(Times(Without(records, x))) + multiset{x.createdAt}
  {
    if records[0] != x {
      WithoutTakesOneTime(records[1..], x);
      var rest := Without(records[1..], x);
      assert ([records[0]] + rest)[1..] == rest;
    }
  }

  lemma BagCancel<T>(a: multiset<T>, b: multiset<T>, x: T)
    requires a + multiset{x} == b + multiset{x}
    ensures a == b
  {
    assert a == (a + multiset{x}) - multiset{x} && b == (b + multiset{x}) - multiset{x};
  }

  lemma {:induction false} SameRecordsSameTimes(a: seq<Record>, b: seq<Record>)
    requires multiset(a) == multiset(b)
    ensures multiset(Times(a)) == multiset(Times(b))
    decreases |a|
  {
    SameElements(a, b);
    if a != [] {
      var x := a[0];
      var rest := Without(b, x);
      WithoutTakesOne(b, x);
      WithoutTakesOne(a, x);
      BagCancel(multiset(Without(a, x)), multiset(rest), x);
      SameRecordsSameTimes(Without(a, x), rest);
      WithoutTakesOneTime(a, x);
      WithoutTakesOneTime(b, x);
    }
  }

  ghost predicate Descending(times: seq<int>) {
    forall i, j :: 0 <= i < j < |times| ==> times[i] >= times[j]
  }

  lemma SameHead(a: seq<int>, b: seq<int>)
    requires multiset(a) == multiset(b) && Descending(a) && Descending(b) && a != [] && b != []
    ensures a[0] == b[0]
  {
    SameElements(a, b);
    assert a[0] in b && b[0] in a;
  }

  lemma SameTail(a: seq<int>, b: seq<int>)
    requires multiset(a) == multiset(b) && a != [] && b != [] && a[0] == b[0]
    ensures multiset(a[1..]) == multiset(b[1..])
  {
    assert a == [a[0]] + a[1..] && b == [b[0]] + b[1..];
    assert multiset(a[1..]) == multiset(a) - multiset{a[0]};
    assert multiset(b[1..]) == multiset(b) - multiset{b[0]};
  }

  lemma {:induction false} DescendingIsUnique(a: seq<int>, b: seq<int>)
    requires multiset(a) == multiset(b) && Descending(a) && Descending(b)
    ensures a == b
  {
    SameElements(a, b);
    if a != [] {
      SameHead(a, b);
      SameTail(a, b);
      DescendingIsUnique(a[1..], b[1..]);
      assert a == [a[0]] + a[1..] && b == [b[0]] + b[1..];
    }
  }

  /** Two sorted lists of the same records have the same times position by position. */
  lemma {:induction false} SortedListsAgreeOnTimes(a: seq<Record>, b: seq<Record>)
    requires multiset(a) == multiset(b) && Sorted(NewestFirst(), a) && Sorted(NewestFirst(), b)
    ensures |a| == |b| && forall i :: 0 <= i < |a| ==> a[i].createdAt == b[i].createdAt
  {
    SameRecordsSameTimes(a, b);
    SortedIsDescending(a);
    SortedIsDescending(b);
    DescendingIsUnique(Times(a), Times(b));
    assert forall i :: 0 <= i < |a| ==> Times(a)[i] == a[i].createdAt;
  }

  lemma SortedIsDescending(records: seq<Record>)
    requires Sorted(NewestFirst(), records)
    ensures Descending(Times(records))
  {
    forall i, j | 0 <= i < j < |records| ensures Times(records)[i] >= Times(records)[j] {
      assert NewestFirst()(records[i], records[j]);
    }
  }

  // What the line x adds to the parsed records.
  lemma {:induction false} WithoutTakesOneParsed(codec: Codec, lines: seq<string>, x: string)
    requires x in lines
    ensures var parsed := codec.parse(x);
            multiset(Parsed(codec, lines))
            == multiset(Parsed(codec, Without(lines, x))) + if parsed.Some? then multiset{parsed.value} else multiset{}
  {
    assert lines == [lines[0]] + lines[1..];
    if lines[0] != x {
      WithoutTakesOneParsed(codec, lines[1..], x);
      var rest := Without(lines[1..], x);
      assert ([lines[0]] + rest)[1..] == rest;
    }
  }

  lemma {:induction false} SameLinesSameRecords(codec: Codec, a: seq<string>, b: seq<string>)
    requires multiset(a) == multiset(b)
    ensures multiset(Parsed(codec, a)) == multiset(Parsed(codec, b))
    decreases |a|
  {
    SameElements(a, b);
    if a != [] {
      var x := a[0];
      WithoutTakesOne(a, x);
      WithoutTakesOne(b, x);
      BagCancel(multiset(Without(a, x)), multiset(Without(b, x)), x);
      SameLinesSameRecords(codec, Without(a, x), Without(b, x));
      WithoutTakesOneParsed(codec, a, x);
      WithoutTakesOneParsed(codec, b, x);
    }
  }

  // The records come back as they are, as normalised ones do.
  ghost predicate RoundTrip(codec: Codec, records: seq<Record>) {
    forall i :: 0 <= i < |records| ==> codec.parse(codec.render(records[i])) == Some(records[i])
  }

  lemma {:induction false} ParsedOfRendered(codec: Codec, records: seq<Record>)
    requires RoundTrip(codec, records)
    ensures Parsed(codec, Rendered(codec, records)) == records
  {
    if records != [] {
      assert RoundTrip(codec, records[1..]) by {
        assert forall i :: 0 <= i < |records[1..]| ==> records[1..][i] == records[i + 1];
      }
      ParsedOfRendered(codec, records[1..]);
    }
  }

  /** Whatever the order of its lines, reloading the file gives the records of memory. */
  lemma {:induction false} FileParsesToMemory(codec: Codec, commands: seq<Command>)
    requires RoundTrip(codec, Run(codec, commands).memory)
    ensures multiset(Parsed(codec, Run(codec, commands).file)) == multiset(Run(codec, commands).memory)
  {
    var log := Run(codec, commands);
    FileAgreesWithMemory(codec, commands);
    SameLinesSameRecords(codec, log.file, Rendered(codec, log.memory));
    ParsedOfRendered(codec, log.memory);
  }

  /**
   With appends in order of time, memory stays sorted newest first, and loading the file again gives the same records
   in the same order of time.
   */
  lemma {:induction false} ReloadReproducesMemory(codec: Codec, commands: seq<Command>)
    requires AppendsInOrder(codec, commands) && RoundTrip(codec, Run(codec, commands).memory)
    ensures var log := Run(codec, commands);
            && Sorted(NewestFirst(), log.memory)
            && multiset(Reload(codec, log)) == multiset(log.memory)
            && |Reload(codec, log)| == |log.memory|
            && forall i :: 0 <= i < |log.memory| ==> Reload(codec, log)[i].createdAt == log.memory[i].createdAt
  {
    var log := Run(codec, commands);
    MemoryStaysSorted(codec, commands);
    FileAgreesWithMemory(codec, commands);
    FileParsesToMemory(codec, commands);
    var sorted := Sort(NewestFirst(), Parsed(codec, log.file));
    NewestFirstIsPreorder();
    SortSorts(NewestFirst(), Parsed(codec, log.file));
    SameElements(sorted, log.memory);
    SortedListsAgreeOnTimes(sorted, log.memory);
  }

  // ---------- what appending and upserting do to the records ----------

  lemma {:induction false} RenderedAt(codec: Codec, records: seq<Record>, i: nat)
    requires i < |records|
    ensures Rendered(codec, records)[i] == codec.render(records[i])
  {
    if i > 0 {
      RenderedAt(codec, records[1..], i - 1);
    }
  }

  /**
   An appended record stands first and the others after it in their order, the last one dropped when there are 10000
   already. The file gets one more line, or then holds the lines of memory.
   */
  lemma {:induction false} AppendPutsFirst(codec: Codec, log: Log, record: Record)
    requires |log.memory| <= 10_000
    ensures var after := Append(codec, log, record);
            && |after.memory| == (if |log.memory| == 10_000 then 10_000 else |log.memory| + 1)
            && after.memory[0] == record
            && (forall i :: 1 <= i < |after.memory| ==> after.memory[i] == log.memory[i - 1])
            && (|log.memory| < 10_000 ==> after.file == log.file + [codec.render(record)])
            && (|log.memory| == 10_000 ==>
                  |after.file| == 10_000 && forall i :: 0 <= i < 10_000 ==> after.file[i] == codec.render(after.memory[i]))
  {
    var after := Append(codec, log, record);
    if |log.memory| == 10_000 {
      forall i | 0 <= i < 10_000 ensures after.file[i] == codec.render(after.memory[i]) {
        RenderedAt(codec, after.memory, i);
      }
    }
  }

  // The records kept are the newest, in order, and with those dropped they are all.
  ghost predicate AreNewestOf(kept: seq<Record>, dropped: seq<Record>, records: seq<Record>) {
    && multiset(kept) + multiset(dropped) == multiset(records)
    && |kept| == (if |records| > 10_000 then 10_000 else |records|)
    && (forall i, j :: 0 <= i < j < |kept| ==> kept[i].createdAt >= kept[j].createdAt)
    && (forall i, j :: 0 <= i < |kept| && 0 <= j < |dropped| ==> kept[i].createdAt >= dropped[j].createdAt)
  }

  lemma {:induction false} CapKeepsNewest(records: seq<Record>) returns (dropped: seq<Record>)
    ensures AreNewestOf(Capped(Sort(NewestFirst(), records)), dropped, records)
  {
    var sorted := Sort(NewestFirst(), records);
    var kept := Capped(sorted);
    dropped := sorted[|kept|..];
    NewestFirstIsPreorder();
    SortSorts(NewestFirst(), records);
    assert sorted == kept + dropped;
    SameElements(sorted, records);
    forall i, j | 0 <= i < j < |sorted| ensures sorted[i].createdAt >= sorted[j].createdAt {
      assert NewestFirst()(sorted[i], sorted[j]);
    }
  }

  // The index of the first record with the id, or the length of the list.
  ghost predicate IsFirstOfId(records: seq<Record>, id: string, i: nat) {
    && i <= |records| && (forall j :: 0 <= j < i ==> records[j].id != id)
    && (i < |records| ==> records[i].id == id)
  }

  function WithoutAt(records: seq<Record>, i: nat): seq<Record> {
    if i < |records| then records[..i] + records[i + 1..] else records
  }

  lemma BagOfExchange(before: seq<Record>, record: Record, after: seq<Record>)
    ensures multiset(before + [record] + after) == multiset([record] + (before + after))
  {
  }

  lemma PutAt(records: seq<Record>, record: Record, i: nat)
    requires IsFirstOfId(records, record.id, i)
    ensures i < |records| ==> Put(records, record) == records[..i] + [record] + records[i + 1..]
    ensures i == |records| ==> Put(records, record) == [record] + records
  {
    assert FindIndex(records, record.id) == i;
    if i < |records| {
      assert records[i := record] == records[..i] + [record] + records[i + 1..];
    }
  }

  lemma {:induction false} PutIsExchange(records: seq<Record>, record: Record, i: nat)
    requires IsFirstOfId(records, record.id, i)
    ensures multiset(Put(records, record)) == multiset([record] + WithoutAt(records, i))
  {
    PutAt(records, record, i);
    if i < |records| {
      BagOfExchange(records[..i], record, records[i + 1..]);
    }
  }

  lemma SameBagSameNewest(kept: seq<Record>, dropped: seq<Record>, a: seq<Record>, b: seq<Record>)
    requires AreNewestOf(kept, dropped, a) && multiset(a) == multiset(b)
    ensures AreNewestOf(kept, dropped, b)
  {
    SameElements(a, b);
  }

  /**
   An upserted record takes the place of the first one with its id, if there is one, and every other record stays, save
   that of 10001 the oldest is dropped. The file then holds the lines of memory in order.
   */
  lemma {:induction false} UpsertExchangesOne(codec: Codec, log: Log, record: Record, i: nat) returns (dropped: seq<Record>)
    requires IsFirstOfId(log.memory, record.id, i)
    ensures var after := Upsert(codec, log, record);
            && AreNewestOf(after.memory, dropped, [record] + WithoutAt(log.memory, i))
            && |after.file| == |after.memory|
            && forall k :: 0 <= k < |after.file| ==> after.file[k] == codec.render(after.memory[k])
  {
    var memory := Upsert(codec, log, record).memory;
    dropped := CapKeepsNewest(Put(log.memory, record));
    PutIsExchange(log.memory, record, i);
    SameBagSameNewest(memory, dropped, Put(log.memory, record), [record] + WithoutAt(log.memory, i));
    forall k | 0 <= k < |memory| ensures Rendered(codec, memory)[k] == codec.render(memory[k]) {
      RenderedAt(codec, memory, k);
    }
  }

  /** Loading keeps the newest 10000 of the records that the lines hold, newest first. */
  lemma {:induction false} LoadKeepsNewest(codec: Codec, log: Log) returns (dropped: seq<Record>)
    ensures AreNewestOf(Reload(codec, log), dropped, Parsed(codec, log.file))
  {
    dropped := CapKeepsNewest(Parsed(codec, log.file));
  }
}
