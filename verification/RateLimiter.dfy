/**
 The authentication rate limiter: fixed windows per key, several keys per call, expired entries pruned in place.
 Times are in nanoseconds; the mutex makes each call atomic, so a run is a sequence of calls.
 */
module RateLimiter {
  import opened Text

  const SECOND := 1_000_000_000

  datatype RuleConfig = RuleConfig(limit: int, windowSeconds: int)

  datatype Entry = Entry(count: int, resetAt: int)

  type Entries = map<string, Entry>

  // ---------- one call, as a function of the stored entries ----------

  datatype Rule = Rule(limit: int, window: int)

  // What the constructor guarantees of a limiter that is not nil.
  predicate ValidRule(rule: Rule) {
    rule.limit >= 1 && rule.window >= SECOND
  }

  // The keys a call names: trimmed, blanks dropped.
  function KeySet(keys: seq<string>): set<string> {
    set key | key in keys && Trim(IsGoSpace, key) != "" :: Trim(IsGoSpace, key)
  }

  predicate Live(entries: Entries, key: string, now: int) {
    key in entries && now < entries[key].resetAt
  }

  function Prune(entries: Entries, now: int): Entries {
    map key | key in entries && Live(entries, key, now) :: entries[key]
  }

  predicate Blocked(rule: Rule, entries: Entries, keys: set<string>, now: int) {
    exists key :: key in keys && Live(entries, key, now) && entries[key].count >= rule.limit
  }

  function Charge(rule: Rule, entries: Entries, key: string, now: int): Entry {
    if Live(entries, key, now) then entries[key].(count := entries[key].count + 1)
    else Entry(1, now + rule.window)
  }

  function ChargeAll(rule: Rule, entries: Entries, keys: set<string>, now: int): Entries {
    map key | key in entries.Keys + keys :: if key in keys then Charge(rule, entries, key, now) else entries[key]
  }

  // A limiter that never deletes entries.
  function AllowKeeping(rule: Rule, entries: Entries, keys: set<string>, now: int): (bool, Entries) {
    if Blocked(rule, entries, keys, now) then (false, entries) else (true, ChargeAll(rule, entries, keys, now))
  }

  function AllowSpec(rule: Rule, entries: Entries, keys: set<string>, now: int): (bool, Entries) {
    if keys == {} then (true, entries) else AllowKeeping(rule, Prune(entries, now), keys, now)
  }

  // ---------- the limiter ----------

  method UniqueRateLimitKeys(keys: seq<string>) returns (result: seq<string>)
    ensures forall i, j :: 0 <= i < j < |result| ==> result[i] != result[j]
    ensures forall key :: key in result <==> key in KeySet(keys)
  {
    var seen: set<string> := {};
    result := [];
    for i := 0 to |keys|
      invariant forall i, j :: 0 <= i < j < |result| ==> result[i] != result[j]
      invariant forall key :: key in result <==> key in seen
      invariant seen == KeySet(keys[..i])
    {
      assert keys[..i + 1] == keys[..i] + [keys[i]];
      var trimmed := Trim(IsGoSpace, keys[i]);
      if trimmed == "" {
        assert KeySet(keys[..i + 1]) == KeySet(keys[..i]);
        continue;
      }
      assert KeySet(keys[..i + 1]) == KeySet(keys[..i]) + {trimmed};
      if trimmed in seen {
        continue;
      }
      seen := seen + {trimmed};
      result := result + [trimmed];
    }
    assert keys[..|keys|] == keys;
  }

  class AuthRateLimiter {
    const limit: int
    const window: int
    var entries: Entries

    constructor (limit: int, window: int)
      ensures this.limit == limit && this.window == window && entries == map[]
    {
      this.limit := limit;
      this.window := window;
      this.entries := map[];
    }

    function GetRule(): Rule {
      Rule(limit, window)
    }

    // First pass: delete what has expired.
    method DeleteExpired(now: int)
      modifies this
      ensures entries == Prune(old(entries), now)
    {
      var pending := entries.Keys;
      while pending != {}
        invariant pending <= old(entries).Keys
        invariant forall key :: key in entries <==>
                    key in old(entries) && (key in pending || now < old(entries)[key].resetAt)
        invariant forall key :: key in entries ==> entries[key] == old(entries)[key]
        decreases pending
      {
        var key :| key in pending;
        pending := pending - {key};
        if !(now < entries[key].resetAt) {
          entries := entries - {key};
        }
      }
    }

    // Second pass: is some key out of budget?
    method AnyExhausted(keys: seq<string>, now: int) returns (exhausted: bool)
      ensures exhausted <==> Blocked(GetRule(), entries, (set key | key in keys), now)
    {
      for i := 0 to |keys|
        invariant forall j :: 0 <= j < i ==> !(Live(entries, keys[j], now) && entries[keys[j]].count >= limit)
      {
        var key := keys[i];
        if key in entries && now < entries[key].resetAt && entries[key].count >= limit {
          return true;
        }
      }
      return false;
    }

    // Third pass: charge every key once.
    method ChargeKeys(keys: seq<string>, now: int)
      requires forall i, j :: 0 <= i < j < |keys| ==> keys[i] != keys[j]
      modifies this
      ensures entries == ChargeAll(GetRule(), old(entries), (set key | key in keys), now)
    {
      for i := 0 to |keys|
        invariant forall key :: key in entries <==> key in old(entries) || key in keys[..i]
        invariant forall key :: key in entries ==>
                    entries[key] == if key in keys[..i] then Charge(GetRule(), old(entries), key, now) else old(entries)[key]
      {
        var key := keys[i];
        assert key !in keys[..i];
        assert keys[..i + 1] == keys[..i] + [key];
        if !(key in entries) || !(now < entries[key].resetAt) {
          entries := entries[key := Entry(1, now + window)];
        } else {
          entries := entries[key := entries[key].(count := entries[key].count + 1)];
        }
      }
      assert keys[..|keys|] == keys;
    }

    method Allow(keys: seq<string>, now: int) returns (allowed: bool)
      modifies this
      ensures (allowed, entries) == AllowSpec(GetRule(), old(entries), KeySet(keys), now)
    {
      var normalizedKeys := UniqueRateLimitKeys(keys);
      assert KeySet(keys) == set key | key in normalizedKeys;
      if |normalizedKeys| == 0 {
        return true;
      }
      assert normalizedKeys[0] in KeySet(keys);
      DeleteExpired(now);
      var exhausted := AnyExhausted(normalizedKeys, now);
      if exhausted {
        return false;
      }
      ChargeKeys(normalizedKeys, now);
      return true;
    }
  }

  // A rule without a positive limit and window gives no limiter at all.
  method NewAuthRateLimiter(config: RuleConfig) returns (limiter: AuthRateLimiter?)
    ensures limiter == null <==> config.limit <= 0 || config.windowSeconds <= 0
    ensures limiter != null ==>
              fresh(limiter) && ValidRule(limiter.GetRule()) && limiter.entries == map[]
              && limiter.GetRule() == Rule(config.limit, config.windowSeconds * SECOND)
  {
    if config.limit <= 0 || config.windowSeconds <= 0 {
      return null;
    }
    limiter := new AuthRateLimiter(config.limit, config.windowSeconds * SECOND);
  }

  // ---------- runs ----------

  // One call, with the set of keys it names and the clock reading.
  datatype Call = Call(keys: set<string>, now: int)

  // The sets of keys that calls can name: those with a trimmed, nonblank spelling of each key.
  ghost predicate ArePlain(keys: set<string>) {
    forall key :: key in keys ==> key != "" && Trimmed(IsGoSpace, key)
  }

  /** A call names a set of plain keys, and every such set is named by any list of its elements. */
  lemma KeySetsArePlain(keys: seq<string>)
    ensures ArePlain(KeySet(keys))
    ensures ArePlain(set key | key in keys) ==> KeySet(keys) == set key | key in keys
  {
    forall key | key in keys
      ensures Trimmed(IsGoSpace, Trim(IsGoSpace, key)) && (Trimmed(IsGoSpace, key) ==> Trim(IsGoSpace, key) == key)
    {
      TrimProperties(IsGoSpace, key);
    }
    if ArePlain(set key | key in keys) {
      forall key | key in keys ensures key in KeySet(keys) {
        assert key in set k | k in keys;
        assert Trim(IsGoSpace, key) == key;
      }
    }
  }

  /** A call names a key exactly if one of its strings is that key with spaces around it, and the key is not empty. */
  lemma NamedWithSpaces(keys: seq<string>, key: string)
    ensures key in KeySet(keys) <==> key != "" && exists i :: 0 <= i < |keys| && Trim(IsGoSpace, keys[i]) == key
  {
    if key != "" {
      if i :| 0 <= i < |keys| && Trim(IsGoSpace, keys[i]) == key {
        assert keys[i] in keys;
      }
    }
  }

  /**
   A call is admitted exactly if no live entry of its keys has reached the limit. Each of its keys then has one more
   call in its window, or the first of a new window; all other live entries stay as they are.
   */
  lemma CallIsDecidedByCounts(rule: Rule, entries: Entries, keys: set<string>, now: int)
    ensures var (admitted, after) := AllowSpec(rule, entries, keys, now);
            && (admitted <==> forall key :: key in keys && key in entries && now < entries[key].resetAt ==> entries[key].count < rule.limit)
            && (admitted ==> forall key :: key in keys ==>
                  && key in after
                  && after[key] == if key in entries && now < entries[key].resetAt
                                   then Entry(entries[key].count + 1, entries[key].resetAt) else Entry(1, now + rule.window))
            && (forall key :: key in entries && now < entries[key].resetAt && (key !in keys || !admitted) ==>
                  key in after && after[key] == entries[key])
            && (forall key :: key in after ==> key in entries || (admitted && key in keys))
  {
    var live := Prune(entries, now);
    assert forall key :: Live(live, key, now) <==> Live(entries, key, now);
  }

  // The entries after a run of calls on a new limiter.
  function EntriesAfter(rule: Rule, calls: seq<Call>): Entries {
    if calls == [] then map[]
    else
      var last := calls[|calls| - 1];
      AllowSpec(rule, EntriesAfter(rule, calls[..|calls| - 1]), last.keys, last.now).1
  }

  // The answer to the last call of a nonempty run.
  predicate LastAdmitted(rule: Rule, calls: seq<Call>)
    requires calls != []
  {
    var last := calls[|calls| - 1];
    AllowSpec(rule, EntriesAfter(rule, calls[..|calls| - 1]), last.keys, last.now).0
  }

  ghost predicate NonDecreasing(calls: seq<Call>) {
    forall i, j :: 0 <= i < j < |calls| ==> calls[i].now <= calls[j].now
  }

  // How many admitted calls of the run name the key at a time in [from, from + window).
  function AdmittedIn(rule: Rule, calls: seq<Call>, key: string, from: int): nat {
    if calls == [] then 0
    else
      var last := calls[|calls| - 1];
      AdmittedIn(rule, calls[..|calls| - 1], key, from)
      + (if LastAdmitted(rule, calls) && key in last.keys && from <= last.now < from + rule.window then 1 else 0)
  }

  // ---------- pruning is invisible ----------

  function EntriesKept(rule: Rule, calls: seq<Call>): Entries {
    if calls == [] then map[]
    else
      var last := calls[|calls| - 1];
      AllowKeeping(rule, EntriesKept(rule, calls[..|calls| - 1]), last.keys, last.now).1
  }

  // From time `now` on the two tables hold the same live entries.
  ghost predicate SameLive(pruned: Entries, kept: Entries, now: int) {
    forall key, t :: t >= now ==>
      (Live(pruned, key, t) <==> Live(kept, key, t)) && (Live(pruned, key, t) ==> pruned[key] == kept[key])
  }

  lemma StepKeepsSameLive(rule: Rule, pruned: Entries, kept: Entries, keys: set<string>, before: int, now: int)
    requires SameLive(pruned, kept, before) && before <= now
    ensures AllowSpec(rule, pruned, keys, now).0 == AllowKeeping(rule, kept, keys, now).0
    ensures SameLive(AllowSpec(rule, pruned, keys, now).1, AllowKeeping(rule, kept, keys, now).1, now)
  {
    var live := Prune(pruned, now);
    assert SameLive(live, kept, now) by {
      forall key, t | t >= now
        ensures (Live(live, key, t) <==> Live(kept, key, t)) && (Live(live, key, t) ==> live[key] == kept[key])
      {
        assert Live(pruned, key, t) <==> Live(kept, key, t);
        assert Live(pruned, key, t) ==> Live(pruned, key, now);
      }
    }
    assert Blocked(rule, live, keys, now) <==> Blocked(rule, kept, keys, now);
    if keys == {} {
      assert ChargeAll(rule, kept, keys, now) == kept;
    } else if !Blocked(rule, live, keys, now) {
      ChargingKeepsSameLive(rule, live, kept, keys, now);
    }
  }

  lemma ChargingKeepsSameLive(rule: Rule, live: Entries, kept: Entries, keys: set<string>, now: int)
    requires SameLive(live, kept, now)
    ensures SameLive(ChargeAll(rule, live, keys, now), ChargeAll(rule, kept, keys, now), now)
  {
    var a, b := ChargeAll(rule, live, keys, now), ChargeAll(rule, kept, keys, now);
    forall key, t | t >= now
      ensures (Live(a, key, t) <==> Live(b, key, t)) && (Live(a, key, t) ==> a[key] == b[key])
    {
      assert Live(live, key, now) <==> Live(kept, key, now);
      assert Live(live, key, t) <==> Live(kept, key, t);
      if key in keys {
        assert a[key] == Charge(rule, live, key, now) && b[key] == Charge(rule, kept, key, now);
      }
    }
  }

  /** Over non-decreasing times the limiter decides every call as one that never deletes an entry. */
  lemma {:induction false} PruningIsInvisible(rule: Rule, calls: seq<Call>)
    requires NonDecreasing(calls)
    ensures calls != [] ==> SameLive(EntriesAfter(rule, calls), EntriesKept(rule, calls), calls[|calls| - 1].now)
    ensures calls != [] ==>
              var last := calls[|calls| - 1];
              LastAdmitted(rule, calls)
              == AllowKeeping(rule, EntriesKept(rule, calls[..|calls| - 1]), last.keys, last.now).0
  {
    if calls != [] {
      var front, last := calls[..|calls| - 1], calls[|calls| - 1];
      PruningIsInvisible(rule, front);
      var before := if front == [] then last.now else front[|front| - 1].now;
      StepKeepsSameLive(rule, EntriesAfter(rule, front), EntriesKept(rule, front), last.keys, before, last.now);
    }
  }

  /** A rejected call changes no live entry, and charges none of its keys. */
  lemma RejectionChangesNothing(rule: Rule, entries: Entries, keys: set<string>, now: int)
    requires !AllowSpec(rule, entries, keys, now).0
    ensures SameLive(AllowSpec(rule, entries, keys, now).1, entries, now)
    ensures exists key :: key in keys && Live(entries, key, now) && entries[key].count >= rule.limit
  {
    var live := Prune(entries, now);
    var key :| key in keys && Live(live, key, now) && live[key].count >= rule.limit;
    assert Live(entries, key, now);
  }

  /** After a call with a nonblank key every stored entry is live, with a count between 1 and the limit. */
  lemma {:induction false} StoredEntriesAreLive(rule: Rule, calls: seq<Call>)
    requires ValidRule(rule)
    ensures forall key :: key in EntriesAfter(rule, calls) ==> 1 <= EntriesAfter(rule, calls)[key].count <= rule.limit
    ensures calls != [] && calls[|calls| - 1].keys != {} ==>
              forall key :: key in EntriesAfter(rule, calls) ==> Live(EntriesAfter(rule, calls), key, calls[|calls| - 1].now)
  {
    if calls != [] {
      var front, last := calls[..|calls| - 1], calls[|calls| - 1];
      StoredEntriesAreLive(rule, front);
      var live := Prune(EntriesAfter(rule, front), last.now);
      var keys := last.keys;
      if keys != {} && !Blocked(rule, live, keys, last.now) {
        forall key | key in keys ensures 1 <= Charge(rule, live, key, last.now).count <= rule.limit {
        }
      }
    }
  }

  // ---------- the bound ----------

  /*
   What is known of a key after a run that never deletes entries. The key's current window starts `window`
   before its entry's reset; `from` is the start of the interval being counted. A window that began before
   `from` cannot have had its first call counted, and at most one window can start inside the interval.
   */
  ghost predicate CountInvariant(rule: Rule, calls: seq<Call>, key: string, from: int) {
    var admitted := AdmittedIn(rule, calls, key, from);
    var kept := EntriesKept(rule, calls);
    && (calls == [] || calls[|calls| - 1].now < from ==> admitted == 0)
    && (key !in kept ==> admitted == 0)
    && (key in kept ==>
          var start, count := kept[key].resetAt - rule.window, kept[key].count;
          && 1 <= count <= rule.limit
          && calls != [] && start <= calls[|calls| - 1].now
          && (start < from ==> admitted <= count - 1)
          && (from <= start < from + rule.window ==> admitted <= rule.limit - 1 + count)
          && (from + rule.window <= start ==> admitted <= 2 * rule.limit - 1))
  }

  lemma {:induction false} CountInvariantHolds(rule: Rule, calls: seq<Call>, key: string, from: int)
    requires ValidRule(rule) && NonDecreasing(calls)
    ensures CountInvariant(rule, calls, key, from)
  {
    if calls != [] {
      var front, last := calls[..|calls| - 1], calls[|calls| - 1];
      CountInvariantHolds(rule, front, key, from);
      PruningIsInvisible(rule, calls);
      var kept := EntriesKept(rule, front);
      if LastAdmitted(rule, calls) && key in last.keys {
        assert Live(kept, key, last.now) ==> kept[key].count < rule.limit;
        assert EntriesKept(rule, calls)[key] == Charge(rule, kept, key, last.now);
      } else {
        assert key in EntriesKept(rule, calls) <==> key in kept;
      }
    }
  }

  /**
   However calls and key sets are chosen, no half-open interval of one window holds more than twice the limit
   less one admitted calls that name a given key.
   */
  lemma AtMostTwiceTheLimit(rule: Rule, calls: seq<Call>, key: string, from: int)
    requires ValidRule(rule) && NonDecreasing(calls)
    ensures AdmittedIn(rule, calls, key, from) <= 2 * rule.limit - 1
  {
    CountInvariantHolds(rule, calls, key, from);
  }

  // ---------- the bound is attained ----------

  // One more admitted call on the only key.
  lemma {:induction false} OneMoreCall(rule: Rule, front: seq<Call>, key: string, now: int)
    requires forall other :: other in EntriesAfter(rule, front) ==> other == key
    requires Live(EntriesAfter(rule, front), key, now) ==> EntriesAfter(rule, front)[key].count < rule.limit
    ensures var calls := front + [Call({key}, now)];
            && EntriesAfter(rule, calls) == map[key := Charge(rule, EntriesAfter(rule, front), key, now)]
            && AdmittedIn(rule, calls, key, 1)
               == AdmittedIn(rule, front, key, 1) + (if 1 <= now < 1 + rule.window then 1 else 0)
  {
    var calls := front + [Call({key}, now)];
    assert calls[..|calls| - 1] == front;
    var before := EntriesAfter(rule, front);
    var live := Prune(before, now);
    assert Live(live, key, now) <==> Live(before, key, now);
    assert !Blocked(rule, live, {key}, now);
    assert ChargeAll(rule, live, {key}, now) == map[key := Charge(rule, before, key, now)];
  }

  lemma LaterCallKeepsOrder(front: seq<Call>, call: Call)
    requires NonDecreasing(front) && (front != [] ==> front[|front| - 1].now <= call.now)
    ensures NonDecreasing(front + [call])
  {
    forall i | 0 <= i < |front| ensures front[i].now <= call.now {
      assert front[i].now <= front[|front| - 1].now;
    }
  }

  // One call opens a window, `late` more come at its end, and `next` as soon as it is over.
  ghost predicate IsBurst(rule: Rule, key: string, late: nat, next: nat, calls: seq<Call>) {
    && NonDecreasing(calls) && calls != []
    && calls[|calls| - 1].now == (if next > 0 then rule.window else if late > 0 then rule.window - 1 else 0)
    && EntriesAfter(rule, calls) == map[key := if next > 0 then Entry(next, 2 * rule.window) else Entry(1 + late, rule.window)]
    && AdmittedIn(rule, calls, key, 1) == late + next
  }

  lemma {:induction false} BurstOpens(rule: Rule, key: string)
    requires ValidRule(rule)
    ensures IsBurst(rule, key, 0, 0, [Call({key}, 0)])
  {
    OneMoreCall(rule, [], key, 0);
    assert [] + [Call({key}, 0)] == [Call({key}, 0)];
  }

  lemma {:induction false} BurstContinues(rule: Rule, key: string, late: nat, front: seq<Call>)
    requires ValidRule(rule) && 0 < late < rule.limit
    requires IsBurst(rule, key, late - 1, 0, front)
    ensures IsBurst(rule, key, late, 0, front + [Call({key}, rule.window - 1)])
  {
    OneMoreCall(rule, front, key, rule.window - 1);
    LaterCallKeepsOrder(front, Call({key}, rule.window - 1));
  }

  lemma {:induction false} BurstGoesOver(rule: Rule, key: string, late: nat, next: nat, front: seq<Call>)
    requires ValidRule(rule) && 0 < next <= rule.limit
    requires IsBurst(rule, key, late, next - 1, front)
    ensures IsBurst(rule, key, late, next, front + [Call({key}, rule.window)])
  {
    var before := EntriesAfter(rule, front);
    assert Live(before, key, rule.window) <==> next > 1;
    assert Charge(rule, before, key, rule.window) == Entry(next, 2 * rule.window);
    OneMoreCall(rule, front, key, rule.window);
    LaterCallKeepsOrder(front, Call({key}, rule.window));
  }

  lemma {:induction false} Burst(rule: Rule, key: string, late: nat, next: nat) returns (calls: seq<Call>)
    requires ValidRule(rule)
    requires late < rule.limit && next <= rule.limit
    ensures IsBurst(rule, key, late, next, calls)
    decreases next, late
  {
    if next > 0 {
      var front := Burst(rule, key, late, next - 1);
      BurstGoesOver(rule, key, late, next, front);
      calls := front + [Call({key}, rule.window)];
    } else if late > 0 {
      var front := Burst(rule, key, late - 1, 0);
      BurstContinues(rule, key, late, front);
      calls := front + [Call({key}, rule.window - 1)];
    } else {
      BurstOpens(rule, key);
      calls := [Call({key}, 0)];
    }
  }

  /** The bound is tight for every rule: some run reaches it. */
  lemma {:induction false} BoundIsAttained(rule: Rule, key: string) returns (calls: seq<Call>)
    requires ValidRule(rule)
    ensures NonDecreasing(calls)
    ensures AdmittedIn(rule, calls, key, 1) == 2 * rule.limit - 1
  {
    calls := Burst(rule, key, rule.limit - 1, rule.limit);
  }

  // ---------- without a monotonic order of readings ----------

  lemma {:induction false} LastCall(rule: Rule, front: seq<Call>, call: Call, key: string, from: int)
    ensures var (admitted, entries) := AllowSpec(rule, EntriesAfter(rule, front), call.keys, call.now);
            && EntriesAfter(rule, front + [call]) == entries
            && AdmittedIn(rule, front + [call], key, from)
               == AdmittedIn(rule, front, key, from)
                  + (if admitted && key in call.keys && from <= call.now < from + rule.window then 1 else 0)
  {
    assert (front + [call])[..|front|] == front;
  }

  // A call on one key below its limit is admitted; it charges that key, and the expired entries are gone.
  lemma {:induction false} ChargesOne(rule: Rule, before: Entries, key: string, now: int)
    requires Live(before, key, now) ==> before[key].count < rule.limit
    ensures AllowSpec(rule, before, {key}, now).0
    ensures AllowSpec(rule, before, {key}, now).1 == Prune(before, now)[key := Charge(rule, before, key, now)]
  {
    var live := Prune(before, now);
    assert Live(live, key, now) <==> Live(before, key, now);
    assert !Blocked(rule, live, {key}, now);
    assert ChargeAll(rule, live, {key}, now) == live[key := Charge(rule, before, key, now)];
  }

  lemma {:induction false} CallOnKey(rule: Rule, front: seq<Call>, called: string, now: int, key: string)
    requires var before := EntriesAfter(rule, front); Live(before, called, now) ==> before[called].count < rule.limit
    ensures var before, calls := EntriesAfter(rule, front), front + [Call({called}, now)];
            && AdmittedIn(rule, calls, key, 0)
               == AdmittedIn(rule, front, key, 0) + (if key == called && 0 <= now < rule.window then 1 else 0)
            && EntriesAfter(rule, calls) == Prune(before, now)[called := Charge(rule, before, called, now)]
  {
    LastCall(rule, front, Call({called}, now), key, 0);
    ChargesOne(rule, EntriesAfter(rule, front), called, now);
  }

  // The key alone has been called since `front`, n times in a new window.
  ghost predicate Filled(rule: Rule, front: seq<Call>, calls: seq<Call>, key: string, now: int, n: nat) {
    && AdmittedIn(rule, calls, key, 0) == AdmittedIn(rule, front, key, 0) + n
    && (if n == 0 then calls == front
        else key in EntriesAfter(rule, calls) && EntriesAfter(rule, calls)[key] == Entry(n, now + rule.window))
    && forall k :: k in EntriesAfter(rule, calls) && k != key ==> k in EntriesAfter(rule, front)
  }

  lemma {:induction false} FillOne(rule: Rule, front: seq<Call>, calls: seq<Call>, key: string, now: int, n: nat)
    requires ValidRule(rule) && n < rule.limit && 0 <= now < rule.window
    requires Filled(rule, front, calls, key, now, n) && !Live(EntriesAfter(rule, front), key, now)
    ensures Filled(rule, front, calls + [Call({key}, now)], key, now, n + 1)
  {
    CallOnKey(rule, calls, key, now, key);
  }

  // n calls on the key, one after the other.
  lemma {:induction false} FillWindow(rule: Rule, front: seq<Call>, key: string, now: int, n: nat) returns (calls: seq<Call>)
    requires ValidRule(rule) && n <= rule.limit && 0 <= now < rule.window
    requires !Live(EntriesAfter(rule, front), key, now)
    ensures Filled(rule, front, calls, key, now, n)
  {
    calls := front;
    if n > 0 {
      var sofar := FillWindow(rule, front, key, now, n - 1);
      FillOne(rule, front, sofar, key, now, n - 1);
      calls := sofar + [Call({key}, now)];
    }
  }

  // A call on another key at the end of the window prunes the entry.
  lemma {:induction false} OtherCallPrunes(rule: Rule, calls: seq<Call>, key: string, other: string)
    requires ValidRule(rule) && key != other && other !in EntriesAfter(rule, calls)
    requires key in EntriesAfter(rule, calls) && EntriesAfter(rule, calls)[key].resetAt == rule.window
    ensures var after := calls + [Call({other}, rule.window)];
            && key !in EntriesAfter(rule, after)
            && AdmittedIn(rule, after, key, 0) == AdmittedIn(rule, calls, key, 0)
  {
    CallOnKey(rule, calls, other, rule.window, key);
  }

  /**
   The order of the readings matters, for every rule: after `limit` calls on a key, a call on another key whose reading
   is one window later prunes the entry; if `limit` more calls on the first key follow with a reading just before that
   one, all of them are admitted, and one window holds twice the limit.
   */
  lemma {:induction false} EarlierReadingBreaksBound(rule: Rule, key: string, other: string) returns (calls: seq<Call>)
    requires ValidRule(rule) && key != other
    ensures AdmittedIn(rule, calls, key, 0) == 2 * rule.limit
  {
    var first := FillWindow(rule, [], key, 0, rule.limit);
    OtherCallPrunes(rule, first, key, other);
    calls := FillWindow(rule, first + [Call({other}, rule.window)], key, rule.window - 1, rule.limit);
  }
}
