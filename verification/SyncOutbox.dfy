/**
 The outbox of deletions that still have to be sent to the server.
 */
module SyncOutbox {
  import opened Wrappers

  datatype SyncKind = Groups | Hosts | Secrets | KnownHosts | PortForwards | Preferences

  datatype Deletion = Deletion(kind: SyncKind, recordId: string, deletedAt: string)

  // What a caller asks to clear: one exact deletion, or any deletion of the record.
  datatype ClearRequest = ClearRequest(kind: SyncKind, recordId: string, deletedAt: Option<string>)

  function KindText(kind: SyncKind): string {
    match kind
    case Groups => "groups"
    case Hosts => "hosts"
    case Secrets => "secrets"
    case KnownHosts => "knownHosts"
    case PortForwards => "portForwards"
    case Preferences => "preferences"
  }

  function RecordKey(kind: SyncKind, recordId: string): string {
    KindText(kind) + ":" + recordId
  }

  function ExactKey(kind: SyncKind, recordId: string, deletedAt: string): string {
    KindText(kind) + ":" + recordId + ":" + deletedAt
  }

  // ---------- the operations on the entry list ----------

  predicate SameRecord(a: Deletion, kind: SyncKind, recordId: string) {
    a.kind == kind && a.recordId == recordId
  }

  function Upsert(entries: seq<Deletion>, record: Deletion): seq<Deletion> {
    if entries == [] then [record]
    else if SameRecord(entries[0], record.kind, record.recordId) then [record] + entries[1..]
    else [entries[0]] + Upsert(entries[1..], record)
  }

  // The index of the record's entry, or the length of the list.
  function FindIndex(entries: seq<Deletion>, kind: SyncKind, recordId: string): (i: nat)
    ensures i <= |entries|
    ensures i < |entries| ==> SameRecord(entries[i], kind, recordId)
    ensures forall j :: 0 <= j < i ==> !SameRecord(entries[j], kind, recordId)
  {
    if entries == [] || SameRecord(entries[0], kind, recordId) then 0 else 1 + FindIndex(entries[1..], kind, recordId)
  }

  lemma {:induction false} UpsertAtIndex(entries: seq<Deletion>, record: Deletion)
    ensures var i := FindIndex(entries, record.kind, record.recordId);
            Upsert(entries, record) == if i < |entries| then entries[i := record] else entries + [record]
  {
    if entries != [] && !SameRecord(entries[0], record.kind, record.recordId) {
      UpsertAtIndex(entries[1..], record);
      AfterFirst(entries, FindIndex(entries[1..], record.kind, record.recordId), record);
    }
  }

  lemma AfterFirst<T>(s: seq<T>, i: nat, x: T)
    requires s != []
    ensures i < |s[1..]| ==> [s[0]] + s[1..][i := x] == s[i + 1 := x]
    ensures [s[0]] + (s[1..] + [x]) == s + [x]
  {
  }

  function UpsertAll(entries: seq<Deletion>, records: seq<Deletion>): seq<Deletion>
    decreases |records|
  {
    if records == [] then entries else UpsertAll(Upsert(entries, records[0]), records[1..])
  }

  function Keep(entries: seq<Deletion>, exactKeys: set<string>, recordKeys: set<string>): seq<Deletion> {
    if entries == [] then []
    else
      (if ExactKey(entries[0].kind, entries[0].recordId, entries[0].deletedAt) in exactKeys then []
       else if RecordKey(entries[0].kind, entries[0].recordId) in recordKeys then []
       else [entries[0]])
      + Keep(entries[1..], exactKeys, recordKeys)
  }

  function ExactKeys(records: seq<ClearRequest>): set<string> {
    set record | record in records && record.deletedAt.Some? :: ExactKey(record.kind, record.recordId, record.deletedAt.value)
  }

  function RecordKeys(records: seq<ClearRequest>): set<string> {
    set record | record in records && record.deletedAt.None? :: RecordKey(record.kind, record.recordId)
  }

  function ClearManySpec(entries: seq<Deletion>, records: seq<ClearRequest>): seq<Deletion> {
    Keep(entries, ExactKeys(records), RecordKeys(records))
  }

  class SyncOutboxRepository {
    var entries: seq<Deletion>

    constructor (entries: seq<Deletion>)
      ensures this.entries == entries
    {
      this.entries := entries;
    }

    method UpsertDeletion(kind: SyncKind, recordId: string, deletedAt: string)
      modifies this
      ensures entries == Upsert(old(entries), Deletion(kind, recordId, deletedAt))
    {
      var nextRecord := Deletion(kind, recordId, deletedAt);
      var currentIndex := FindIndex(entries, kind, recordId);
      UpsertAtIndex(entries, nextRecord);
      if currentIndex < |entries| {
        entries := entries[currentIndex := nextRecord];
        return;
      }
      entries := entries + [nextRecord];
    }

    method ClearMany(records: seq<ClearRequest>)
      modifies this
      ensures entries == ClearManySpec(old(entries), records)
    {
      var exactKeys := ExactKeys(records);
      var fallbackKeys := RecordKeys(records);
      entries := Keep(entries, exactKeys, fallbackKeys);
    }
  }

  // ---------- what the keys distinguish ----------

  lemma KindTextHasNoColon(kind: SyncKind)
    ensures forall i :: 0 <= i < |KindText(kind)| ==> KindText(kind)[i] != ':'
  {
    match kind
    case Groups =>
    case Hosts =>
    case Secrets =>
    case KnownHosts =>
    case PortForwards =>
    case Preferences =>
  }

  lemma KindTextIsInjective(a: SyncKind, b: SyncKind)
    requires KindText(a) == KindText(b)
    ensures a == b
  {
    var s := KindText(a);
    assert |s| == 6 || |s| == 5 || |s| == 7 || |s| == 10 || |s| == 12 || |s| == 11;
  }

  // Text without a colon before the first colon is determined by the whole.
  lemma FirstColon(a: string, x: string, b: string, y: string)
    requires forall i :: 0 <= i < |a| ==> a[i] != ':'
    requires forall i :: 0 <= i < |b| ==> b[i] != ':'
    requires a + ":" + x == b + ":" + y
    ensures a == b && x == y
  {
    var s, t := a + ":" + x, b + ":" + y;
    assert s[|a|] == ':' && t[|b|] == ':';
    assert forall i :: 0 <= i < |a| ==> s[i] == a[i];
    assert forall i :: 0 <= i < |b| ==> t[i] == b[i];
    assert |a| == |b|;
    assert a == s[..|a|] && b == t[..|b|];
    assert x == s[|a| + 1..] && y == t[|b| + 1..];
  }

  predicate SameKey(a: Deletion, b: Deletion) {
    ExactKey(a.kind, a.recordId, a.deletedAt) == ExactKey(b.kind, b.recordId, b.deletedAt)
  }

  // One timestamp is text, a colon and the other.
  predicate EndsWithTimestamp(longer: string, shorter: string) {
    |longer| > |shorter| && longer[|longer| - |shorter| - 1] == ':' && longer[|longer| - |shorter|..] == shorter
  }

  lemma EndsWithTimestampMeans(longer: string, shorter: string)
    ensures EndsWithTimestamp(longer, shorter) <==> exists text :: longer == text + ":" + shorter
  {
    if EndsWithTimestamp(longer, shorter) {
      var text := longer[..|longer| - |shorter| - 1];
      assert longer == text + ":" + shorter;
    }
    if text :| longer == text + ":" + shorter {
      assert longer[|text|] == ':' && longer[|text| + 1..] == shorter;
    }
  }

  /** Whatever the kind and the record, a timestamp that ends with another one makes two deletions share a key. */
  lemma KeysCanCollide(kind: SyncKind, recordId: string, text: string, deletedAt: string)
    ensures var a, b := Deletion(kind, recordId, text + ":" + deletedAt), Deletion(kind, recordId + ":" + text, deletedAt);
            a != b && SameKey(a, b)
  {
    Reassociate(KindText(kind) + ":" + recordId + ":", text, ":" + deletedAt);
    assert text + ":" + deletedAt == text + (":" + deletedAt);
    assert KindText(kind) + ":" + (recordId + ":" + text) == (KindText(kind) + ":" + recordId + ":") + text;
    assert |recordId| < |recordId + ":" + text|;
  }

  lemma Reassociate(a: string, b: string, c: string)
    ensures (a + b) + c == a + (b + c)
  {
  }

  // The same record id and timestamp, or a colon of one key inside the other's timestamp.
  lemma EqualTails(x: string, t: string, y: string, u: string)
    requires x + ":" + t == y + ":" + u
    ensures |t| == |u| ==> x == y && t == u
    ensures |t| > |u| ==> EndsWithTimestamp(t, u)
  {
    var s, r := x + ":" + t, y + ":" + u;
    assert x == s[..|x|] && t == s[|x| + 1..] && s[|x|] == ':';
    assert y == r[..|y|] && u == r[|y| + 1..] && r[|y|] == ':';
    if |t| > |u| {
      assert t[|t| - |u| - 1] == s[|x| + 1 + (|t| - |u| - 1)];
      assert t[|t| - |u|..] == s[|s| - |u|..];
    }
  }

  // After the kind and its colon.
  function KeyTail(deletion: Deletion): string {
    deletion.recordId + ":" + deletion.deletedAt
  }

  lemma KeyOfTail(deletion: Deletion)
    ensures ExactKey(deletion.kind, deletion.recordId, deletion.deletedAt) == KindText(deletion.kind) + ":" + KeyTail(deletion)
  {
    Reassociate(KindText(deletion.kind) + ":", deletion.recordId, ":" + deletion.deletedAt);
    assert KeyTail(deletion) == deletion.recordId + (":" + deletion.deletedAt);
  }

  lemma EqualKeys(a: Deletion, b: Deletion)
    requires SameKey(a, b)
    ensures a == b || EndsWithTimestamp(a.deletedAt, b.deletedAt) || EndsWithTimestamp(b.deletedAt, a.deletedAt)
  {
    KeyOfTail(a);
    KeyOfTail(b);
    KindTextHasNoColon(a.kind);
    KindTextHasNoColon(b.kind);
    FirstColon(KindText(a.kind), KeyTail(a), KindText(b.kind), KeyTail(b));
    KindTextIsInjective(a.kind, b.kind);
    EqualTails(a.recordId, a.deletedAt, b.recordId, b.deletedAt);
    EqualTails(b.recordId, b.deletedAt, a.recordId, a.deletedAt);
  }

  // Different deletions at these times have different keys, whatever their kinds and record ids.
  ghost predicate KeysAreDistinct(times: iset<string>) {
    forall a: Deletion, b: Deletion :: a.deletedAt in times && b.deletedAt in times && SameKey(a, b) ==> a == b
  }

  ghost predicate NoneEndsWithAnother(times: iset<string>) {
    forall longer, shorter :: longer in times && shorter in times ==> !EndsWithTimestamp(longer, shorter)
  }

  /**
   For any set of timestamps, the concatenated keys tell all deletions at those times apart exactly if no timestamp of
   the set is text, a colon and another one.
   */
  lemma {:induction false} KeysAreDistinctIff(times: iset<string>)
    ensures KeysAreDistinct(times) <==> NoneEndsWithAnother(times)
  {
    if KeysAreDistinct(times) {
      forall longer, shorter | longer in times && shorter in times ensures !EndsWithTimestamp(longer, shorter) {
        if EndsWithTimestamp(longer, shorter) {
          EndsWithTimestampMeans(longer, shorter);
          var text :| longer == text + ":" + shorter;
          KeysCanCollide(Hosts, "", text, shorter);
        }
      }
    }
    if NoneEndsWithAnother(times) {
      forall a: Deletion, b: Deletion | a.deletedAt in times && b.deletedAt in times && SameKey(a, b) ensures a == b
      {
        EqualKeys(a, b);
      }
    }
  }

  /**
   So two deletions with timestamps of one length have the same key only if they are the same deletion, although record
   ids may contain colons.
   */
  lemma ExactKeyIsInjective(a: Deletion, b: Deletion)
    requires |a.deletedAt| == |b.deletedAt|
    ensures SameKey(a, b) <==> a == b
  {
    var times := iset t: string | |t| == |a.deletedAt|;
    assert NoneEndsWithAnother(times);
    KeysAreDistinctIff(times);
  }

  // ---------- exact clearing ----------

  // The request that pushDirty makes for a deletion it has sent.
  function Exactly(record: Deletion): ClearRequest {
    ClearRequest(record.kind, record.recordId, Some(record.deletedAt))
  }

  function AllExactly(records: seq<Deletion>): (requests: seq<ClearRequest>)
    ensures |requests| == |records| && forall i :: 0 <= i < |records| ==> requests[i] == Exactly(records[i])
  {
    seq(|records|, i requires 0 <= i < |records| => Exactly(records[i]))
  }

  // Timestamps as nowIso writes them.
  const TIMESTAMP_LENGTH := 24

  ghost predicate FixedLength(entries: seq<Deletion>) {
    forall entry :: entry in entries ==> |entry.deletedAt| == TIMESTAMP_LENGTH
  }

  ghost predicate OnePerRecord(entries: seq<Deletion>) {
    forall i, j :: 0 <= i < j < |entries| ==> !SameRecord(entries[i], entries[j].kind, entries[j].recordId)
  }

  lemma {:induction false} KeepContents(entries: seq<Deletion>, exactKeys: set<string>, recordKeys: set<string>)
    ensures forall entry :: entry in Keep(entries, exactKeys, recordKeys) <==>
              && entry in entries
              && ExactKey(entry.kind, entry.recordId, entry.deletedAt) !in exactKeys
              && RecordKey(entry.kind, entry.recordId) !in recordKeys
    ensures OnePerRecord(entries) ==> OnePerRecord(Keep(entries, exactKeys, recordKeys))
  {
    if entries != [] {
      KeepContents(entries[1..], exactKeys, recordKeys);
      if OnePerRecord(entries) {
        assert OnePerRecord(entries[1..]);
        forall entry | entry in entries[1..] ensures !SameRecord(entries[0], entry.kind, entry.recordId) {
          var i :| 0 <= i < |entries[1..]| && entries[1..][i] == entry;
          assert entries[i + 1] == entry;
        }
      }
    }
  }

  lemma {:induction false} KeyIsSent(entry: Deletion, sent: seq<Deletion>)
    requires |entry.deletedAt| == TIMESTAMP_LENGTH && FixedLength(sent)
    ensures ExactKey(entry.kind, entry.recordId, entry.deletedAt) in ExactKeys(AllExactly(sent)) <==> entry in sent
  {
    var requests := AllExactly(sent);
    if i :| 0 <= i < |sent| && sent[i] == entry {
      assert requests[i] in requests;
    }
    if ExactKey(entry.kind, entry.recordId, entry.deletedAt) in ExactKeys(requests) {
      var request :| request in requests && request.deletedAt.Some?
        && ExactKey(request.kind, request.recordId, request.deletedAt.value) == ExactKey(entry.kind, entry.recordId, entry.deletedAt);
      var i :| 0 <= i < |requests| && requests[i] == request;
      assert sent[i] in sent;
      ExactKeyIsInjective(entry, sent[i]);
    }
  }

  /** Clearing what was sent removes exactly the sent deletions; a newer deletion of the same record stays. */
  lemma {:induction false} ClearingIsExact(entries: seq<Deletion>, sent: seq<Deletion>)
    requires FixedLength(entries) && FixedLength(sent)
    ensures forall entry :: entry in ClearManySpec(entries, AllExactly(sent)) <==> entry in entries && entry !in sent
    ensures OnePerRecord(entries) ==> OnePerRecord(ClearManySpec(entries, AllExactly(sent)))
  {
    var requests := AllExactly(sent);
    KeepContents(entries, ExactKeys(requests), RecordKeys(requests));
    assert RecordKeys(requests) == {};
    forall entry | entry in entries
      ensures ExactKey(entry.kind, entry.recordId, entry.deletedAt) in ExactKeys(requests) <==> entry in sent
    {
      KeyIsSent(entry, sent);
    }
  }

  lemma RecordKeyIsInjective(a: SyncKind, x: string, b: SyncKind, y: string)
    ensures RecordKey(a, x) == RecordKey(b, y) <==> a == b && x == y
  {
    if RecordKey(a, x) == RecordKey(b, y) {
      KindTextHasNoColon(a);
      KindTextHasNoColon(b);
      FirstColon(KindText(a), x, KindText(b), y);
      KindTextIsInjective(a, b);
    }
  }

  /** Clearing without timestamps removes every deletion of the requested records, whenever made, and no other. */
  lemma {:induction false} ClearingByRecord(entries: seq<Deletion>, requests: seq<ClearRequest>, entry: Deletion)
    requires forall request :: request in requests ==> request.deletedAt.None?
    ensures entry in ClearManySpec(entries, requests)
       <==> entry in entries && forall request :: request in requests ==> !SameRecord(entry, request.kind, request.recordId)
  {
    KeepContents(entries, ExactKeys(requests), RecordKeys(requests));
    assert ExactKeys(requests) == {};
    forall request | request in requests
      ensures RecordKey(request.kind, request.recordId) == RecordKey(entry.kind, entry.recordId)
         <==> SameRecord(entry, request.kind, request.recordId)
    {
      RecordKeyIsInjective(request.kind, request.recordId, entry.kind, entry.recordId);
    }
  }

  lemma KeepFirst(first: Deletion, rest: seq<Deletion>, exactKeys: set<string>, recordKeys: set<string>)
    ensures Keep([first] + rest, exactKeys, recordKeys) == Keep([first], exactKeys, recordKeys) + Keep(rest, exactKeys, recordKeys)
  {
    assert ([first] + rest)[1..] == rest;
    assert Keep([first][1..], exactKeys, recordKeys) == [];
  }

  lemma Regroup(head: seq<Deletion>, rest: seq<Deletion>, tail: seq<Deletion>)
    ensures (head + rest) + tail == head + (rest + tail)
  {
  }

  lemma {:induction false} KeepOfConcat(a: seq<Deletion>, b: seq<Deletion>, exactKeys: set<string>, recordKeys: set<string>)
    ensures Keep(a + b, exactKeys, recordKeys) == Keep(a, exactKeys, recordKeys) + Keep(b, exactKeys, recordKeys)
  {
    if a == [] {
      assert a + b == b;
    } else {
      var first, rest := a[0], a[1..];
      assert a == [first] + rest;
      KeepOfConcat(rest, b, exactKeys, recordKeys);
      KeepFirst(first, rest, exactKeys, recordKeys);
      KeepFirst(first, rest + b, exactKeys, recordKeys);
      Regroup([first], rest, b);
      Regroup(Keep([first], exactKeys, recordKeys), Keep(rest, exactKeys, recordKeys), Keep(b, exactKeys, recordKeys));
    }
  }

  /** Clearing keeps the order: what it leaves of two lists one after the other is what it leaves of each. */
  lemma ClearingKeepsOrder(a: seq<Deletion>, b: seq<Deletion>, requests: seq<ClearRequest>)
    ensures ClearManySpec(a + b, requests) == ClearManySpec(a, requests) + ClearManySpec(b, requests)
  {
    KeepOfConcat(a, b, ExactKeys(requests), RecordKeys(requests));
  }

  /** An upsert leaves one deletion for the record, the new one, and touches no other record. */
  lemma {:induction false} UpsertContents(entries: seq<Deletion>, record: Deletion)
    requires OnePerRecord(entries)
    ensures OnePerRecord(Upsert(entries, record))
    ensures forall entry :: entry in Upsert(entries, record) <==>
              entry == record || (entry in entries && !SameRecord(entry, record.kind, record.recordId))
  {
    if entries != [] {
      assert OnePerRecord(entries[1..]);
      assert entries == [entries[0]] + entries[1..];
      forall entry | entry in entries[1..] ensures !SameRecord(entries[0], entry.kind, entry.recordId) {
        var i :| 0 <= i < |entries[1..]| && entries[1..][i] == entry;
        assert entries[i + 1] == entry;
      }
      if !SameRecord(entries[0], record.kind, record.recordId) {
        UpsertContents(entries[1..], record);
      }
    }
  }
}
