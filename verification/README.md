# A Dafny model of the desktop client, its SSH core and its sync service

The repository is an SSH client: an Electron desktop application, a Go process that holds the SSH, AWS and local shell
sessions, and a Go API that synchronises encrypted records. This project models the parts whose correctness spans whole
runs or several functions, and proves what they promise. `dafny verify dfyconfig.toml` checks all of it.

Where the source updates state step by step, the model is a class with the same fields, or a method with the same loop,
and each method is proved equal to a specification function. The theorems are lemmas about those functions and about runs
of them. Where the source is asynchronous or concurrent, each stretch between two awaits, or each locked section, emission
or blocking call, is one step of a state machine, and the theorems hold for every interleaving.

| module | what it covers |
|---|---|
| `GroupPaths`, `GroupTree`, `GroupLevels`, `GroupTables`, `GroupEffects` | group paths as strings refining segment sequences; levels, cards and host counts; creating and removing groups |
| `ConfigInclude`, `IncludePlaces`, `IncludeReachability`, `IncludeText`, `IncludeCycles`, `IncludeWarnings` | the walk over OpenSSH Include directives |
| `SyncOutbox`, `SyncPush` | the outbox of deletions and the single-flight push loop |
| `RateLimiter` | the fixed-window limiter with several keys per call |
| `Binary`, `CoreFraming` | the frame encoder and the incremental parser |
| `StateStorage`, `ActivityLog` | the crash-safe state file and the append log |
| `SessionManager` | the goroutines of one session and the table they share (AWS and local shells) |
| `ResizePump` | desired and sent terminal sizes in the core manager |
| `TerminalBacklog` | the byte-bounded replay buffer of the preload script |
| `Rc4` | the password decryptor |
| `ShellQuoting`, `RemoteCommands` | the quoters, a reader for the shell's quoting rules, and the command lines |
| `Wrappers`, `Text`, `StableSort` | optional values, string operations, the stable sort |

## Where the code does not do what one might expect

These are theorems too; each gives the exact condition or a concrete run.

- A level named by the empty string contains every host but has no direct hosts and no cards, so the host counts do not
  add up there and nowhere else (`GroupTree.HostCountsPartition`).
- Removing a group with its descendants moved up merges two groups outside the removed path that share a path, without
  reporting the lost id (`GroupTables.ReparentSplitsIds`).
- Creating a group does not look for its parent, so a group can be created under a missing one
  (`GroupTables.CreateKeepsTree`); a name with a slash gives a record whose name and parent are not those of its path
  (`GroupTables.CreatedIsConsistentIffOneSegment`).
- An edit made while a push is running, at any of its stages, whose own push call finds the client offline, is forgotten
  unless another round follows anyway: the running push clears the pending flag (`SyncPush.EditDuringPushSurvivesIff`,
  `SyncPush.OfflineEditIsForgotten`).
- The concatenated outbox keys tell deletions apart exactly if no timestamp in use is text, a colon and another one. The
  callers leave the timestamp to the clock, whose texts have one length, so this holds for them
  (`SyncOutbox.KeysAreDistinctIff`, `SyncOutbox.KeysCanCollide`).
- The limiter's bound needs clock readings that do not decrease in lock order, while the clock is read before the lock
  (`RateLimiter.EarlierReadingBreaksBound`).
- A state file that is torn, or not flushed, is copied over the good backup before it is replaced; the flush before the
  rename is what keeps the state file from ever being so (`StateStorage.UpdateIsSafeIffMainSound`,
  `StateStorage.FlushIsWhatProtects`).
- Errors are emitted outside the lock, so an Error can come out after Closed (`SessionManager.ErrorCanFollowClosed`,
  `SessionManager.LateErrorIffMarked`).
- A listener that subscribes a second time is sent the backlog a second time (`TerminalBacklog.SecondSubscriptionRepeats`).

## Model

| member | source | states |
|---|---|---|
| GroupPaths.NormalizeRefinesSegments | apps/desktop/src/shared/group-paths.ts:9-16 | normalising any raw path is reading off its trimmed, non-blank, slash-free segments and joining them; no segments give null |
| GroupPaths.SegmentsOfPath | apps/desktop/src/shared/group-paths.ts:9-16 | normalised paths and sequences of valid segments are in bijection |
| GroupPaths.NormalizeIsIdempotent | apps/desktop/src/shared/group-paths.ts:9-16 | normalising twice is normalising once, and keeps the segments |
| GroupPaths.NormalizePieceByPiece | apps/desktop/src/shared/group-paths.ts:9-16 | on the text: no path gives null, a piece without slash gives its trimmed text or null if blank, and around a slash each half is normalised by itself |
| Text.TrimKeepsTheMiddle | apps/desktop/src/shared/group-paths.ts:12 | what is trimmed away is spaces at the two ends, and what is left has none there |
| GroupPaths.ParentDropsLastSegment | apps/desktop/src/shared/group-paths.ts:18-24 | the parent of any raw path is the path of all its segments but the last |
| GroupPaths.LabelIsLastSegment | apps/desktop/src/shared/group-paths.ts:26-29 | the label of a normalised path is its last segment |
| GroupPaths.WithinIsSegmentPrefix | apps/desktop/src/shared/group-paths.ts:31-39 | on normalised paths the string test holds if and only if one segment sequence is a prefix of the other |
| GroupPaths.WithinNeedsNormalized | apps/desktop/src/shared/group-paths.ts:31-39 | a non-empty raw path that contains a normalised one is itself normalised, so no odd spelling matches by accident |
| GroupPaths.StripDeletesLastSegment | apps/desktop/src/shared/group-paths.ts:96-110 | for any two raw paths, removal deletes exactly the last segment of the removed path from paths at or below it and leaves others normalised |
| GroupPaths.StripCutsOneSegment | apps/desktop/src/shared/group-paths.ts:96-110 | for any two raw paths, the segment at which the removed path ends is cut out of a path at or below it; every other path is only normalised |
| GroupPaths.StripIsInjectiveBelow | apps/desktop/src/shared/group-paths.ts:96-110 | strictly below the removed path no two paths are merged |
| GroupTree.AppendPathWithAncestors | apps/desktop/src/shared/group-paths.ts:56-65 | the loop adds the path of every non-empty prefix of the segments, each once |
| GroupTree.CollectGroupPaths | apps/desktop/src/shared/group-paths.ts:53-76 | the two loops and the sort compute the specification of the collected paths |
| GroupTree.CollectedPathsContents | apps/desktop/src/shared/group-paths.ts:53-76 | the collected paths are distinct and are exactly the prefixes of the group and host paths |
| GroupTree.CollectedPathsAreAncestorClosed | apps/desktop/src/shared/group-paths.ts:53-76 | every collected path is normalised and its parent is collected |
| GroupTree.BuildVisibleGroups | apps/desktop/src/shared/group-paths.ts:85-94 | the cards of a level, in collection order, with name and count |
| GroupTree.CardsAreTheChildren | apps/desktop/src/shared/group-paths.ts:41-94 | a path has a card at a normalised level if and only if it is named and is one segment below the level |
| GroupTree.CardsAreInOrder | apps/desktop/src/shared/group-paths.ts:75-94 | cards are sorted by the comparator and no path has two |
| GroupTree.CardNamesAreLast | apps/desktop/src/shared/group-paths.ts:86-91 | a card is named after the last group record with its path |
| GroupTree.MembershipsAmongChildren | apps/desktop/src/shared/group-paths.ts:78-94 | a host strictly below a level is counted on exactly one of its cards, any other host on none |
| GroupTree.HostCountsPartition | apps/desktop/src/shared/group-paths.ts:45-94 | hosts of a level's tree = direct hosts + sum of the card counts, for every level but the empty string, where it fails if and only if there are hosts |
| GroupLevels.LevelOfOneHost | apps/desktop/src/shared/group-paths.ts:41-83 | a host is in the tree of a normalised level if and only if the level's segments are a prefix of its group's, and directly at it if and only if they are equal; a group counts it alike |
| GroupLevels.LevelOfConcat | apps/desktop/src/shared/group-paths.ts:45-83 | for two lists of hosts one after the other the filters concatenate, in order, and the counts add up |
| GroupLevels.CardsTellTheirSubtree | apps/desktop/src/shared/group-paths.ts:85-94 | at any level a card's count is the number of hosts whose group's segments start with the card's, and without a record its name is its last segment |
| GroupTables.GroupRepository.Create | apps/desktop/src/main/database.ts:476-505 | the new table and result of creating a group, with its three errors; on an error nothing changes |
| GroupTables.GroupsByPath | apps/desktop/src/main/database.ts:540-543 | the Map filled from the remaining groups, in insertion order |
| GroupTables.RebaseGroups | apps/desktop/src/main/database.ts:545-562 | the loop over the affected groups computes the specification of the moves and of the removed ids |
| GroupTables.GroupRepository.Remove | apps/desktop/src/main/database.ts:507-585 | both tables, the sorted copies and both id lists after a removal in either mode, with its two errors; on an error nothing changes |
| GroupTables.GroupRepository.RemoveSubtree | apps/desktop/src/main/database.ts:531-537 | what is at or below the target goes from both tables, with its ids |
| GroupTables.GroupRepository.ReparentDescendants | apps/desktop/src/main/database.ts:539-576 | both tables and the removed group ids when descendants move up |
| GroupTables.ReparentClosedForm | apps/desktop/src/main/database.ts:539-564 | on normalised, distinct paths the Map and loop equal: the groups outside as they are, then those below moved unless a group outside holds the path; the others are reported |
| GroupTables.ReparentSplitsIds | apps/desktop/src/main/database.ts:539-564 | for any table, old ids = surviving ids + reported ids as multisets, if and only if no two groups outside the target share a path |
| GroupTables.ReparentedPaths | apps/desktop/src/main/database.ts:539-564 | the paths afterwards are exactly those outside and the moved ones of those below |
| GroupTables.ReparentedRecords | apps/desktop/src/main/database.ts:545-564 | every survivor is an old record: outside untouched, below moved with the same id and creation time, renamed and stamped |
| GroupTables.ReparentKeepsTree | apps/desktop/src/main/database.ts:539-564 | normalised, distinct and ancestor-closed paths stay so |
| GroupTables.ReparentKeepsHostsBacked | apps/desktop/src/main/database.ts:565-576 | no host is lost, hosts outside are untouched, and a host whose group existed keeps an existing group or none |
| GroupTables.DeleteSubtreeRemovesExactly | apps/desktop/src/main/database.ts:531-537 | exactly the groups and hosts at or below the target go, their ids are reported, and the rest stays a tree |
| GroupTables.CreateKeepsTree | apps/desktop/src/main/database.ts:476-505 | paths stay normalised and distinct; they stay ancestor-closed if and only if the new path's parent is in the table |
| GroupTables.CreatedIsConsistentIffOneSegment | apps/desktop/src/main/database.ts:476-499 | the record's name and parent are those of its path if and only if the name holds no slash |
| GroupTables.RunKeepsTables | apps/desktop/src/main/database.ts:476-585 | over any run of creations under existing groups and of removals, paths stay a tree and hosts stay backed |
| GroupEffects.HostFollowsItsGroup | apps/desktop/src/main/database.ts:565-576 | each host stays in its place; one at or below the target gets its own group's path without the target's last segment and the new timestamp, any other is unchanged |
| GroupEffects.GroupsMoveUp | apps/desktop/src/main/database.ts:539-564 | a record is in the table afterwards if and only if it was there outside the subtree, or is a group strictly below, with that segment cut out of path, label and parent, whose new path no group outside holds |
| GroupEffects.RemovedGroupIds | apps/desktop/src/main/database.ts:545-556 | the reported ids are those of the target and of the groups below whose new path a group outside holds, and no others |
| GroupEffects.RemovalIsByMode | apps/desktop/src/main/database.ts:511-537 | any spelling of the path: invalid if and only if it names no segment, not found if and only if nothing lies at or below; deleting keeps exactly the hosts outside, reparenting removes none |
| GroupEffects.ReturnedInOrder | apps/desktop/src/main/database.ts:579-584 | the copies handed back hold the same records, in the comparators' order, and the same removed ids |
| GroupEffects.CreatedGroup | apps/desktop/src/main/database.ts:476-505 | the new path has the parent's segments and then those of the trimmed name; each of the three refusals in exactly its case |
| ConfigInclude.Importer.FlattenConfigLines | apps/desktop/src/main/openssh-import-service.ts:323-432 | terminates on every finite include graph, cycles included, and equals the specification of the walk |
| ConfigInclude.Importer.ExpandLines | apps/desktop/src/main/openssh-import-service.ts:369-426 | the loop over lines runs the file's steps in textual order |
| ConfigInclude.Importer.FollowPatterns | apps/desktop/src/main/openssh-import-service.ts:374-392 | the loop over the patterns of one Include, with a warning for each without a match |
| ConfigInclude.Importer.FollowMatches | apps/desktop/src/main/openssh-import-service.ts:393-416 | the loop over the matches of a pattern, with unreadable files turned into warnings |
| IncludeReachability.FlattenKeeps | apps/desktop/src/main/openssh-import-service.ts:340-429 | from any state and on any file system the stack is restored, visited files keep the name they were expanded under, and every name is a readable one of its file |
| IncludeReachability.FlattenFollowsUp | apps/desktop/src/main/openssh-import-service.ts:340-429 | from any state and on any file system, every file expanded is reachable from the root and has had all its readable includes visited |
| IncludeReachability.WalkFollowsItsNames | apps/desktop/src/main/openssh-import-service.ts:323-432 | from a readable root, on any finite file system, the walk succeeds with an empty stack; each visited file was expanded under one readable name reachable from the root, and all readable files that name includes are visited |
| IncludeReachability.WalkVisitsExactlyReachable | apps/desktop/src/main/openssh-import-service.ts:323-432 | if a file includes the same files under all its names, the walk has visited exactly the readable files reachable from the root |
| IncludeReachability.EachFileContributesOnce | apps/desktop/src/main/openssh-import-service.ts:351-426 | each visited file is expanded under one name, and contributes exactly its own lines once, in order |
| IncludeReachability.IncludesSpliceInPlace | apps/desktop/src/main/openssh-import-service.ts:393-425 | what an Include pulls in stands exactly between the lines before and after it |
| IncludePlaces.StepsAreThePlaces | apps/desktop/src/main/openssh-import-service.ts:370-426 | the steps of a file are, one by one and in order, what the file says at its places: lines, patterns and matches, all of them |
| IncludeText.OutputIsTheText | apps/desktop/src/main/openssh-import-service.ts:370-426 | from a readable root, a line is in the output if and only if it is a line of an opened file, not an Include, with its number and text; the lines of a file are in ascending order |
| IncludeText.IncludesIsAMatch | apps/desktop/src/main/openssh-import-service.ts:374-404 | a file includes another if and only if a pattern on one of its Include lines matches it |
| IncludeText.IncludeLinesAreFollowed | apps/desktop/src/main/openssh-import-service.ts:374-404 | every readable match of every pattern of every Include line of an opened file is visited |
| IncludeText.OutputFollowsTheText | apps/desktop/src/main/openssh-import-service.ts:369-426 | whenever a file is opened, each output line has a place in its text, in order: an own line its own, any other one a match that reaches its file, which was not opened before and is not the match of an earlier place |
| IncludeWarnings.WarningsAreExact | apps/desktop/src/main/openssh-import-service.ts:382-415 | the other warnings are exactly one kind for patterns without a match and one for unreadable includes in the files expanded, at their file and line |
| IncludeText.WarningsAreInTheText | apps/desktop/src/main/openssh-import-service.ts:382-415 | in terms of the lines of an opened file: an include-not-found warning if and only if a pattern there has no match, and, if files are readable under all their names or none, a read-failed one if and only if a match there is unreadable |
| IncludeCycles.CycleWarningIsExact | apps/desktop/src/main/openssh-import-service.ts:340-349 | a cycle warning is given if and only if the files expanded, under the names they were expanded by, include each other in a circle |
| IncludeCycles.CycleWarningMeansCircle | apps/desktop/src/main/openssh-import-service.ts:340-349 | if a file includes the same files under all its names, that is if and only if reachable files include each other in a circle |
| SyncOutbox.SyncOutboxRepository.UpsertDeletion | apps/desktop/src/main/database.ts:1064-1078 | the record's entry is replaced in place, or appended |
| SyncOutbox.SyncOutboxRepository.ClearMany | apps/desktop/src/main/database.ts:1086-1108 | entries whose exact key or record key was asked for go, the rest stays in order |
| SyncOutbox.UpsertContents | apps/desktop/src/main/database.ts:1064-1078 | one deletion per record is kept: the new one replaces the record's old one and no other is touched |
| SyncOutbox.ExactKeyIsInjective | apps/desktop/src/main/database.ts:1090-1099 | for timestamps of one length the concatenated keys are equal if and only if the deletions are |
| SyncOutbox.KeysCanCollide | apps/desktop/src/main/database.ts:1090-1099 | whatever the kind and record, a timestamp that is text, a colon and another one gives two different deletions with the same key |
| SyncOutbox.KeysAreDistinctIff | apps/desktop/src/main/database.ts:1090-1099 | for any set of timestamps the keys tell all deletions apart if and only if no timestamp is text, a colon and another of the set |
| SyncOutbox.ClearingIsExact | apps/desktop/src/main/database.ts:1086-1108 | clearing what was sent removes exactly the sent deletions |
| SyncOutbox.ClearingByRecord | apps/desktop/src/main/database.ts:1090-1108 | clearing without timestamps removes every deletion of the requested records and no other |
| SyncOutbox.ClearingKeepsOrder | apps/desktop/src/main/database.ts:1101-1108 | what clearing leaves of two lists one after the other is what it leaves of each, so the order is kept |
| SyncPush.SyncService.MarkPending | apps/desktop/src/main/sync-service.ts:556-574 | the pending flag is set, and the message cleared only if nothing was pending |
| SyncPush.SyncService.PauseSync | apps/desktop/src/main/sync-service.ts:176-188 | the timer is cleared and the status paused; what is pending stays pending |
| SyncPush.SyncService.BeginRound | apps/desktop/src/main/sync-service.ts:279-286 | the first stretch of a round: the queue flag is cleared before the snapshot begins to be read |
| SyncPush.SyncService.Push | apps/desktop/src/main/sync-service.ts:260-286 | pushDirty up to its first await: offline pause, queueing behind a running loop, or a new loop |
| SyncPush.SyncService.EditAndPush | apps/desktop/src/main/sync-service.ts:260-286 | local changes and new deletions followed by pushDirty, as one step |
| SyncPush.SyncService.ResumeAfterLoad | apps/desktop/src/main/sync-service.ts:412-420 | one secret of the snapshot is read after the await; a missing one is skipped |
| SyncPush.SyncService.ResumeAfterPush | apps/desktop/src/main/sync-service.ts:288-308 | after an accepted push the sent deletions are cleared and the loop goes round or ends |
| SyncPush.SyncService.ResumeAfterError | apps/desktop/src/main/sync-service.ts:298-308 | an error leaves the work pending, schedules a retry and ends the loop |
| SyncPush.StepKeepsInv | apps/desktop/src/main/sync-service.ts:249-313 | every step keeps single flight, the outbox's form and the coverage of the running round |
| SyncPush.NoLostEdit | apps/desktop/src/main/sync-service.ts:249-313 | over every run at most one loop is in flight; nothing pending after a push means an empty outbox and a last accepted payload equal to the current records and secrets; after an error the work is pending and a retry scheduled |
| SyncPush.EditDuringPushSurvivesIff | apps/desktop/src/main/sync-service.ts:260-298 | an edit at any stage of a running push: after the rest of the round the work is pending and another round begun if and only if the edit's push call was online, or one was queued before, or a deletion the payload does not hold is left; else changed records were not sent |
| SyncPush.OfflineEditIsForgotten | apps/desktop/src/main/sync-service.ts:264-298 | a run from the start after which the service is ready, with nothing pending and no retry, while the server lacks the last edit |
| SyncPush.TombstoneLeavesOnlyWhenSent | apps/desktop/src/main/sync-service.ts:286-290 | a deletion leaves the outbox only for a newer one of its record, or after an accepted payload that held exactly it |
| SyncPush.RoundEnds | apps/desktop/src/main/sync-service.ts:286-298 | from any stage the loop's own steps lead to an accepted payload with the records the round had read, and go round exactly by the guard of the loop |
| SyncPush.NewerDeletionForcesAnotherRound | apps/desktop/src/main/sync-service.ts:286-290 | a deletion not in the accepted payload stays and another, up-to-date round begins |
| SyncPush.EditReachesOutbox | apps/desktop/src/main/database.ts:1064-1078 | in any state, an edit's records become the current ones and each deletion it hands over is in the outbox unless a later one of its record is handed over too; other records' deletions stay, and nothing else comes in |
| SyncPush.NoLostDeletion | apps/desktop/src/main/sync-service.ts:276-313 | in every later state of every run a deletion handed over is in the outbox, or replaced by another of its record, or held by a payload the server accepted |
| SyncPush.CallsTakeEffect | apps/desktop/src/main/sync-service.ts:260-286 | an online call leaves a push running or one queued behind it, an offline call pauses and starts none; the work is pending and the timer off |
| SyncPush.QuietPushFinishes | apps/desktop/src/main/sync-service.ts:276-313 | without further calls and errors a running push ends within two rounds: ready, nothing pending, outbox empty, the server up to date unless an offline call interrupted it |
| SyncPush.OnlineEditIsDelivered | apps/desktop/src/main/sync-service.ts:260-313 | from every reachable state, an online edit followed by no call and no error ends ready, with an empty outbox and an accepted payload of exactly its records and known secrets |
| SyncPush.ErrorsAreRetried | apps/desktop/src/main/sync-service.ts:298-308 | an error ends the push with its message, a retry scheduled and the outbox as it was |
| RateLimiter.UniqueRateLimitKeys | services/sync-api/internal/http/auth_rate_limit.go:117-132 | the trimmed non-blank keys, each once |
| RateLimiter.NewAuthRateLimiter | services/sync-api/internal/http/auth_rate_limit.go:50-60 | no limiter for a rule without positive limit and window; otherwise an empty one with window in seconds |
| RateLimiter.AuthRateLimiter.DeleteExpired | services/sync-api/internal/http/auth_rate_limit.go:88-92 | exactly the expired entries are deleted |
| RateLimiter.AuthRateLimiter.AnyExhausted | services/sync-api/internal/http/auth_rate_limit.go:94-99 | true if and only if some key's live entry has reached the limit |
| RateLimiter.AuthRateLimiter.ChargeKeys | services/sync-api/internal/http/auth_rate_limit.go:101-112 | every key is charged once, in a new window if it has no live one; other entries stay |
| RateLimiter.AuthRateLimiter.Allow | services/sync-api/internal/http/auth_rate_limit.go:73-115 | decision and entries of one call, including the call without a non-blank key |
| RateLimiter.PruningIsInvisible | services/sync-api/internal/http/auth_rate_limit.go:88-114 | over non-decreasing times every decision is that of a limiter that never deletes an entry |
| RateLimiter.RejectionChangesNothing | services/sync-api/internal/http/auth_rate_limit.go:94-99 | a rejected call changes no live entry, and some key was exhausted |
| RateLimiter.StoredEntriesAreLive | services/sync-api/internal/http/auth_rate_limit.go:88-114 | after a call with a non-blank key all stored entries are live with counts from 1 to the limit |
| RateLimiter.AtMostTwiceTheLimit | services/sync-api/internal/http/auth_rate_limit.go:73-115 | any half-open interval of one window holds at most 2 * limit - 1 admitted calls naming a key, over any run |
| RateLimiter.BoundIsAttained | services/sync-api/internal/http/auth_rate_limit.go:73-115 | for every rule some run reaches that bound |
| RateLimiter.KeySetsArePlain | services/sync-api/internal/http/auth_rate_limit.go:117-132 | a call names trimmed, non-blank keys, and every set of such keys is named by some call |
| RateLimiter.NamedWithSpaces | services/sync-api/internal/http/auth_rate_limit.go:117-132 | a call names a key if and only if one of its strings is that non-empty key with spaces around it |
| RateLimiter.CallIsDecidedByCounts | services/sync-api/internal/http/auth_rate_limit.go:88-114 | admitted if and only if no live entry of a named key has reached the limit; then each named key has one call more in its window or the first of a new one, and every other live entry is unchanged |
| RateLimiter.EarlierReadingBreaksBound | services/sync-api/internal/http/auth_rate_limit.go:83-92 | for every rule and two keys, a run with readings out of order in which one window holds twice the limit |
| CoreFraming.ReadOfWrite | apps/desktop/src/main/core-framing.ts:13-14 | a 32-bit number reads back from its four big-endian bytes |
| CoreFraming.ControlFrameBytes | apps/desktop/src/main/core-framing.ts:10-24 | the bytes of a control frame by position: kind 1, the metadata length big-endian, four zeros, the metadata |
| CoreFraming.StreamFrameBytes | apps/desktop/src/main/core-framing.ts:10-33 | the bytes of a stream frame by position: kind 2, both lengths big-endian, metadata, payload |
| CoreFraming.BadFrontThrows | apps/desktop/src/main/core-framing.ts:56-84 | a complete body behind an unknown kind or undecodable metadata makes the parse throw |
| CoreFraming.GoodFrontComesOut | apps/desktop/src/main/core-framing.ts:56-84 | a complete body behind a known kind comes out first, with the bytes its two big-endian lengths announce, and parsing goes on behind it |
| CoreFraming.FrontIncomplete | apps/desktop/src/main/core-framing.ts:55-63 | fewer than nine bytes, or fewer than the lengths announce, give no frame and stay buffered |
| CoreFraming.FirstFrameOfEncoded | apps/desktop/src/main/core-framing.ts:10-33 | a buffer that starts with an encoded frame has exactly that frame, of that length, in front |
| CoreFraming.PrefixHasNoFrame | apps/desktop/src/main/core-framing.ts:55-63 | a proper prefix of an encoded frame is never taken for a frame |
| CoreFraming.TakeFirst | apps/desktop/src/main/core-framing.ts:56-84 | the frame a complete header and body stand for, or the error it throws |
| CoreFraming.CoreFrameParser.Push | apps/desktop/src/main/core-framing.ts:51-90 | the frames, the buffered rest and the error of one push |
| CoreFraming.CompleteIsExact | apps/desktop/src/main/core-framing.ts:55-63 | the complete frames are those that end within the bytes so far |
| CoreFraming.EndOfIsLength | apps/desktop/src/main/core-framing.ts:10-33 | the encoding of the first frames ends at the sum of their lengths |
| CoreFraming.ParseOfPrefix | apps/desktop/src/main/core-framing.ts:51-90 | a prefix of an encoding gives exactly its complete frames and keeps the rest |
| CoreFraming.ParseOfConcat | apps/desktop/src/main/core-framing.ts:51-90 | parsing may be interrupted anywhere |
| CoreFraming.PushAllIsParseAll | apps/desktop/src/main/core-framing.ts:48-90 | for any bytes and any chunks, malformed ones included, pushing chunk by chunk is parsing at once: same error, else same frames and rest |
| CoreFraming.AnyChunking | apps/desktop/src/main/core-framing.ts:10-90 | for any frames and any chunks of their encoding, exactly the complete frames are out and exactly the rest is buffered; in the end all frames are back |
| StateStorage.DesktopStateStorage.LoadStateWithRecovery | apps/desktop/src/main/state-storage.ts:769-782 | the state file if it parses, else the backup, else defaults |
| StateStorage.DesktopStateStorage.PersistState | apps/desktop/src/main/state-storage.ts:811-830 | the three files, and which of them are flushed, after any number of the six file steps |
| StateStorage.DesktopStateStorage.UpdateState | apps/desktop/src/main/state-storage.ts:645-650 | the new state in memory, then a persist |
| StateStorage.UpdateIsAtomic | apps/desktop/src/main/state-storage.ts:811-830 | stopped at any file step by a crash that tears whatever is not flushed, the state file holds the old state or, after the rename, the new one, flushed, and loading finds it; a finished update leaves the old one in the backup |
| StateStorage.RunsRecover | apps/desktop/src/main/state-storage.ts:769-830 | over any run of updates and of crashes that tear whatever is not flushed, the state file is never torn and loading finds the last state whose rename was done, never defaults |
| StateStorage.PersistPerformsAll | apps/desktop/src/main/state-storage.ts:811-830 | a finished persist is the six file steps in order |
| StateStorage.FlushIsWhatProtects | apps/desktop/src/main/state-storage.ts:817-829 | the new state file survives every power loss if and only if it was flushed before the rename; without, it can be torn together with the backup, leaving only defaults |
| StateStorage.BackupHoldsPrevious | apps/desktop/src/main/state-storage.ts:826-829 | after a finished update the backup holds the previous state |
| StateStorage.UpdateIsSafeIffMainSound | apps/desktop/src/main/state-storage.ts:826-829 | from a recoverable disk every stop of an update is recoverable if and only if the state file is absent or flushed and not torn |
| ActivityLog.ActivityLogStorage.AppendActivityLog | apps/desktop/src/main/state-storage.ts:657-666 | memory and file after an append, with the rewrite at the cap |
| ActivityLog.ActivityLogStorage.UpsertActivityLog | apps/desktop/src/main/state-storage.ts:668-682 | memory and file after an upsert: replaced or put in front, sorted, capped, rewritten |
| ActivityLog.ActivityLogStorage.ClearActivityLogs | apps/desktop/src/main/state-storage.ts:684-688 | both are empty |
| ActivityLog.ActivityLogStorage.LoadActivityLogs | apps/desktop/src/main/state-storage.ts:784-809 | the records of the lines that parse, sorted and capped |
| ActivityLog.BrokenLineIsSkipped | apps/desktop/src/main/state-storage.ts:796-806 | a line that does not parse, wherever it stands, costs no other record |
| ActivityLog.ActivityLogStorage.RewriteLogsFile | apps/desktop/src/main/state-storage.ts:832-836 | the file holds the lines of memory's records in memory's order |
| ActivityLog.FileAgreesWithMemory | apps/desktop/src/main/state-storage.ts:657-688 | after any run the file holds exactly the lines of memory's records, as multisets, at most 10000 |
| ActivityLog.FileParsesToMemory | apps/desktop/src/main/state-storage.ts:784-809 | parsing them gives the multiset of memory's records, if those survive being written and read |
| ActivityLog.AppendKeepsSorted | apps/desktop/src/main/state-storage.ts:657-666 | an append keeps a sorted log sorted if and only if the record is not older than the newest |
| ActivityLog.AppendPutsFirst | apps/desktop/src/main/state-storage.ts:657-666 | an appended record stands first and the others after it in order, the last dropped at 10000; the file gets one line, or then memory's lines |
| ActivityLog.UpsertExchangesOne | apps/desktop/src/main/state-storage.ts:668-682 | an upsert exchanges the first record of that id for the new one, keeps all others newest first, and of 10001 drops the oldest; the file is memory's lines |
| ActivityLog.LoadKeepsNewest | apps/desktop/src/main/state-storage.ts:784-809 | loading gives the newest 10000 of the records in the file, newest first |
| ActivityLog.MemoryStaysSorted | apps/desktop/src/main/state-storage.ts:657-688 | with appends in order of time memory stays sorted newest first |
| ActivityLog.ReloadReproducesMemory | apps/desktop/src/main/state-storage.ts:784-809 | reloading gives the same records with the same times position by position |
| SessionManager.Manager.Register | services/ssh-core/internal/awssession/manager.go:54-57 | the new handle, with both flags clear, is in the table, in place of any former one of that id |
| SessionManager.Manager.HasSession | services/ssh-core/internal/awssession/manager.go:77-82 | true if and only if the session is in the table |
| SessionManager.Manager.Disconnect | services/ssh-core/internal/awssession/manager.go:110-121 | marks the request on that session alone, and kills only if it is there |
| SessionManager.Manager.NotifyError | services/ssh-core/internal/awssession/manager.go:147-169 | only the first caller may emit the error of a session that is in the table |
| SessionManager.Manager.Remove | services/ssh-core/internal/awssession/manager.go:190-200 | only one caller takes the session out of the table |
| SessionManager.Manager.SessionFlags | services/ssh-core/internal/awssession/manager.go:216-224 | the flags, both false for a missing session |
| SessionManager.StepKeepsInv | services/ssh-core/internal/awssession/manager.go:48-214 | every step of every goroutine keeps the invariant that ties flags, table and wait group to the events emitted |
| SessionManager.EventsAreExactlyOnce | services/ssh-core/internal/awssession/manager.go:48-214 | under every interleaving: Connected first and once, at most one Error, at most one Closed, exactly one once the waiter is done, runner closed only after Closed and every reader; a Closed in the client's name follows a request |
| SessionManager.DisconnectSuppressesExitError | services/ssh-core/internal/awssession/manager.go:134-144 | a disconnect called before the waiter has read the flags: in no interleaving does the waiter emit an Error, and the Closed event is in the client's name |
| SessionManager.ExitReachesFlags | services/ssh-core/internal/awssession/manager.go:123-134 | an exit while the session is in the table, with or without a message, brings the waiter to the reading of the flags |
| SessionManager.ExitIsReported | services/ssh-core/internal/awssession/manager.go:134-145 | with no request by then and an exit message, the error is marked before Closed, and Closed is not in the client's name |
| SessionManager.ReadFailureIsReported | services/ssh-core/internal/awssession/manager.go:162-188 | once a failed reader has taken the lock with the session in the table, an error is marked for good, and exactly one Error is out when nobody is about to emit it |
| SessionManager.ReaderAfterFailure | services/ssh-core/internal/awssession/manager.go:147-167 | end of file ends a reader without an event; any other failure is reported if and only if the session is in the table |
| SessionManager.EveryReadIsEmitted | services/ssh-core/internal/awssession/manager.go:147-161 | in every run as many data events are emitted as pieces of data are read |
| SessionManager.StepsMakeProgress | services/ssh-core/internal/localsession/manager.go:48-214 | every step but data and disconnect calls brings the session nearer its end |
| SessionManager.CanAlwaysFinish | services/ssh-core/internal/awssession/manager.go:123-214 | from every reachable state the session can still end with exactly one Closed, within a bound |
| SessionManager.ErrorCanFollowClosed | services/ssh-core/internal/awssession/manager.go:171-214 | a run in which the Error comes out after Closed |
| SessionManager.LateErrorIffMarked | services/ssh-core/internal/awssession/manager.go:171-214 | after Closed an Error can still come if and only if a reader had marked it before the removal |
| ResizePump.CoreManager.Flush | apps/desktop/src/main/core-manager.ts:1767-1793 | a resize is sent only to a connected tab whose desired size differs from the sent one |
| ResizePump.CoreManager.ResizeSession | apps/desktop/src/main/core-manager.ts:1748-1765 | unknown tabs and non-positive sizes are ignored, otherwise the size is desired and flushed |
| ResizePump.CoreManager.DisconnectSession | apps/desktop/src/main/core-manager.ts:1795-1821 | both sizes are forgotten; the tab goes at once unless it is connected |
| ResizePump.CoreManager.ConnectSession | apps/desktop/src/main/core-manager.ts:818-864 | a connecting tab for a fresh id and a request to the running core |
| ResizePump.CoreManager.HandleControlEvent | apps/desktop/src/main/core-manager.ts:1946-2013 | tab status and sizes after a session event |
| ResizePump.CoreManager.ClearRuntimeState | apps/desktop/src/main/core-manager.ts:2172-2183 | no tabs and no sizes once the process is gone |
| ResizePump.CoreManager.SendControl | apps/desktop/src/main/core-manager.ts:2228-2233 | writing without a process throws |
| ResizePump.SizesAreConsistent | apps/desktop/src/main/core-manager.ts:1748-1821 | in every reachable state sent keys are within desired keys within tabs, a connected tab with a desired size has been sent it, and nothing was written without a process |
| ResizePump.WireNeverRepeats | apps/desktop/src/main/core-manager.ts:1748-1821 | every resize on the wire is positive, goes to a connected tab, and differs from the session's previous one unless disconnect was called between |
| ResizePump.LatestSizeIsSentOnConnect | apps/desktop/src/main/core-manager.ts:1748-2013 | resizes of a connecting tab send nothing, and connecting sends just the last |
| ResizePump.ResizeReachesCore | apps/desktop/src/main/core-manager.ts:1748-1793 | a valid resize is remembered; for a connected tab the core has then been told it, by one message if it had last been told another, otherwise nothing is sent |
| ResizePump.DisconnectForgets | apps/desktop/src/main/core-manager.ts:1795-1821 | the core's last told size and both tables forget the session; a connected tab stays and the core is told, any other goes |
| ResizePump.TabFollowsEvents | apps/desktop/src/main/core-manager.ts:1946-2013 | a tab's status after any step: connecting, as the core last reported, or gone |
| ResizePump.DesiredFollowsSteps | apps/desktop/src/main/core-manager.ts:1748-2013 | the desired size of a session after any step: its last valid resize, or none once it is disconnected or closed or the core has stopped |
| TerminalBacklog.Preload.AppendBacklog | apps/desktop/src/preload/preload.ts:73-90 | the queue after appending and evicting from the front, and its byte counter |
| TerminalBacklog.Preload.OnClosedEvent | apps/desktop/src/preload/preload.ts:92-97 | a closed session's backlog and counter are gone, other sessions untouched |
| TerminalBacklog.Preload.Deliver | apps/desktop/src/preload/preload.ts:110-116 | every listener of the session is called once |
| TerminalBacklog.Preload.OnData | apps/desktop/src/preload/preload.ts:99-118 | the chunk is kept and delivered, other sessions untouched |
| TerminalBacklog.Preload.OnDataSubscribe | apps/desktop/src/preload/preload.ts:328-338 | the listener is added once and the backlog replayed to it, even if it was subscribed already |
| TerminalBacklog.Preload.OnDataUnsubscribe | apps/desktop/src/preload/preload.ts:340-349 | only that listener is removed |
| TerminalBacklog.LongestFittingIsUnique | apps/desktop/src/preload/preload.ts:73-90 | there is only one longest fitting suffix |
| TerminalBacklog.AppendKeepsLongest | apps/desktop/src/preload/preload.ts:73-90 | appending and evicting keeps the queue the longest whole-chunk suffix that fits 1 MiB, or just the last chunk |
| TerminalBacklog.RunKeepsValid | apps/desktop/src/preload/preload.ts:73-118 | in every reachable state the backlog is that suffix of the data since the last close, its counter is its size, and every listener has received, since it last subscribed, the data from where the replay began, without gap or repeat |
| TerminalBacklog.NewListenerMissesNothing | apps/desktop/src/preload/preload.ts:328-350 | a new listener receives the backlog of that moment and then exactly the later chunks |
| TerminalBacklog.SecondSubscriptionRepeats | apps/desktop/src/preload/preload.ts:328-338 | a listener that subscribes a second time receives what it had, the backlog again, and the later chunks: no repeat if and only if the backlog is empty |
| TerminalBacklog.UnsubscribedReceivesNothing | apps/desktop/src/preload/preload.ts:340-349 | after unsubscribing a listener receives nothing more, whatever happens, until it subscribes again |
| TerminalBacklog.OnlyOneUnsubscribes | apps/desktop/src/preload/preload.ts:340-349 | every other listener stays subscribed |
| TerminalBacklog.ClosedDataIsNotReplayed | apps/desktop/src/preload/preload.ts:92-97 | after a close, a new listener is replayed the longest fitting suffix of only the data since, and then the later chunks |
| Rc4.SwapCells | apps/desktop/src/main/xshell-password-decryptor.ts:59-61 | the two cells are exchanged and no other changes |
| Rc4.ScheduleKey | apps/desktop/src/main/xshell-password-decryptor.ts:51-62 | the first two loops, on the array |
| Rc4.NextKeyByte | apps/desktop/src/main/xshell-password-decryptor.ts:68-73 | one round of the third loop, on the array |
| Rc4.ApplyRc4 | apps/desktop/src/main/xshell-password-decryptor.ts:50-78 | each output byte is the payload byte masked with a byte that depends only on key and position |
| Rc4.ScheduleIsPermutation | apps/desktop/src/main/xshell-password-decryptor.ts:51-62 | the state array is a permutation of 0 to 255 after every round of key mixing |
| Rc4.GenerateIsPermutation | apps/desktop/src/main/xshell-password-decryptor.ts:64-76 | and after every output byte |
| Rc4.Rc4IsInvolution | apps/desktop/src/main/xshell-password-decryptor.ts:50-78 | RC4 twice with the same non-empty key is the identity on every payload |
| Rc4.ScheduleRound | apps/desktop/src/main/xshell-password-decryptor.ts:51-62 | round n from the identity: the index moves by cell n and the key byte in turn, and those two cells are exchanged |
| Rc4.GenerateRound | apps/desktop/src/main/xshell-password-decryptor.ts:64-74 | one output byte: the indices move by one and by the cell there, the cells are exchanged, and the byte is the cell at their sum |
| Rc4.OutputIsMasked | apps/desktop/src/main/xshell-password-decryptor.ts:67-76 | bit by bit, the n-th output byte is the payload's, turned over where the n-th key byte has a bit set |
| Rc4.DecryptXshellPassword | apps/desktop/src/main/xshell-password-decryptor.ts:123-185 | the five failures, in order, and the password |
| Rc4.KeyByVersion | apps/desktop/src/main/xshell-password-decryptor.ts:80-99 | below 5.1 the fixed key, up to 5.2 the hash of the identifier, after that the hash of the identifier backwards and the user name; no context, no key |
| Rc4.FailuresAreExact | apps/desktop/src/main/xshell-password-decryptor.ts:123-173 | each of the first four failures is given if and only if its condition holds and no earlier one does |
| Rc4.DecryptInvertsEncrypt | apps/desktop/src/main/xshell-password-decryptor.ts:150-185 | with a usable key, decryption returns a password if and only if the text is that password's own encryption (and, from version 5.1 on, the password is not empty) |
| ShellQuoting.QuotersRoundTrip | services/ssh-core/internal/sshcmd/run.go:12-17 | every string's quoted form, by each of the three quoters, reads back as exactly that one word, alone or between blanks |
| ShellQuoting.QuotersText | services/ssh-core/internal/sshcmd/run.go:12-17 | the text of each quoter: single quotes around text without one, and each single quote put between two quoted parts |
| ShellQuoting.LineReads | services/ssh-core/internal/containers/service.go:926-982 | quoted values, literal words and operators with spaces between read as exactly those tokens |
| RemoteCommands.DecimalRoundTrip | services/ssh-core/internal/containers/service.go:934 | the digits written for a number read back as it |
| RemoteCommands.ItoaReadsBack | services/ssh-core/internal/forwarding/service.go:669 | an integer's text reads back as it, after a minus sign if it is negative |
| RemoteCommands.BuildLogsCommand | services/ssh-core/internal/containers/service.go:926-942 | the text built step by step is the text of the intended line |
| RemoteCommands.LogsCommandReads | services/ssh-core/internal/containers/service.go:926-942 | it reads as the runtime, its flags, the default or given tail, the trimmed cursor if any, and the container, whatever they contain |
| RemoteCommands.BuildContainerActionCommand | services/ssh-core/internal/containers/service.go:944-963 | the text with the runtime's verb for the action |
| RemoteCommands.ContainerActionReads | services/ssh-core/internal/containers/service.go:944-963 | it reads as the runtime, what the verb reads as (one word for the known actions), and the container |
| RemoteCommands.BuildSearchLogsCommand | services/ssh-core/internal/containers/service.go:975-982 | the text of the logs command piped into grep |
| RemoteCommands.SearchCommandReads | services/ssh-core/internal/containers/service.go:975-982 | it reads as the logs words, both streams piped into a fixed-string grep with the query as one word, or else true |
| RemoteCommands.WrappedCommandUnwraps | services/ssh-core/internal/containers/service.go:740-761 | the outer shell sees three words, the last being the inner command whatever it contains |
| RemoteCommands.ContainerShellCommandReads | apps/desktop/src/main/ipc.ts:262-274 | read outer then inner, the command runs sh, or else bash, of that runtime in that container |
| RemoteCommands.SessionProxyCommandReads | services/ssh-core/internal/forwarding/service.go:663-675 | it reads as interpreter, two flags, script, host and port |

## Left out

- Electron windows, IPC registration, the React interface, dialogs and browser login.
- Encryption, JSON, UTF-8 and base64: the frame metadata codec is a parameter assumed invertible, hashes are parameters, and a torn file is assumed not to parse.
- Network and process calls: their outcomes are nondeterministic steps; the server's merge of pushed records is not part of this model.
- String widths: text is a sequence of characters; UTF-16 surrogates, and Go's handling of invalid UTF-8, are not modelled. The locale comparison is a parameter.
- Integer widths: Go's int and time.Duration, and JavaScript numbers, are unbounded here except for the 32-bit frame lengths and the bytes of RC4.
- GroupTables.GroupRepository.Remove: moved host records also pass through a normaliser of their tags, theme and connection fields, which are not modelled; only id, group and update time are. The file write behind each table change is not modelled either.
- Bulk replacement, renaming, moving and clearing in database.ts, the option list and dialog labels in group-paths.ts: easy members.
- Parsing of configuration directives, glob expansion and home directory expansion: an Include comes with the paths its patterns resolve to from the file.
- IncludeReachability.WalkVisitsExactlyReachable: like CycleWarningMeansCircle it asks that all names of a file include the same real files, because relative includes resolve against the name used; WalkFollowsItsNames and CycleWarningIsExact say what holds without that.
- IncludeCycles.CycleWarningIsExact: like WarningsAreExact for unreadable includes, it asks that a file that can be read under one name can be read under all its names.
- bootstrap, hydrating and purging in sync-service.ts, the disabled mode for end-to-end runs, and the time of the last successful push.
- SyncPush.NoLostEdit: reads each edit together with its pushDirty call, takes local file writes as successful, and excludes pushes interrupted by an offline call, where EditDuringPushSurvivesIff says exactly when an edit is forgotten.
- SyncOutbox.ClearingIsExact: asks for timestamps of one length, as nowIso writes them; KeysAreDistinctIff gives the exact condition on timestamps.
- RateLimiter.AtMostTwiceTheLimit: speaks of calls by the set of keys they name, and takes the clock readings as non-decreasing in the order of the lock; EarlierReadingBreaksBound shows the case it leaves out.
- The routes, client address extraction and default rules around the rate limiter.
- CoreFraming.AnyChunking: is about one parser and one stream of bytes; the parser is not reset when the core process is restarted, so leftover bytes of a dead process are out of its scope.
- StateStorage.RunsRecover: takes a rename as atomic and durable once the call returns, every file that has not been flushed as possibly torn by a crash, and a torn file as unparsable; write errors other than a stop are not modelled.
- The activity log across crashes in the middle of an append or rewrite; ISO timestamps are integers there, and entries from before the run are not modelled.
- SessionManager.EventsAreExactlyOnce: session ids are fresh; the contents of events, Write, Resize, control signals and the exit description are not modelled. The AWS and local managers share the model; connection probing in the local one is left out.
- SFTP, containers, transfers, port forwards, logging and sharing in core-manager.ts.
- TerminalBacklog.NewListenerMissesNothing: listeners do not subscribe or unsubscribe while a chunk is being delivered.
- ShellQuoting.QuotersRoundTrip: the reader covers quoting, blanks and operators of the POSIX.1-2017 Shell Command Language, sections 2.2.1 to 2.2.3; a digit before a redirection stays a word, and anything that would need expansion is rejected rather than expanded.
- Runtime probing, statistics and other command lines of the containers service, and Windows shells.
