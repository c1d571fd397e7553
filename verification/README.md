# SpaceApp verification

A Dafny model of the parts of SpaceApp whose behaviour is decided by their own code, with proofs about them. Each
module follows one component of the repository:

- **Session revocation** (`Tokens`, `Revocation`, `RevocationProtocol`, `RevocationRefusal`, `Sessions`, `SessionUse`,
  `SessionRuns`). The in-memory revocation store, the durable table behind it, writes in flight, the retry queue,
  loads, failures and crashes form one state machine in which every `await` is a step of its own. Session cookies are
  symbolic: hashes and signatures are free constructors, so they are injective and never collide. Time never runs
  backwards.
- **Diagnostics segments** (`Segments`, `SegmentStore`, `Quotas`, `BatchRecovery`, `BatchRecords`, `Effects`,
  `CrashSafety`, `BatchRetries`, `Stranding`, `Reconciliation`, `DiagnosticsService`). Repository records, content
  files and index files, the two byte quotas and the count limit, the upload of a batch, `initialize`, and retries of
  the same batch. An upload is also a list of single file and repository operations, deletions, evictions and the
  rollback included, and so is `initialize`; a crash leaves some prefix of such a list, or breaks off a content write
  with anything in the file. The class records the operations it performs in a ghost field, which shows that these
  lists are the ones and the order the code has.
- **Managed TOML** (`Text`, `TomlLexer`, `TomlPatterns`, `TomlConfig`, `TomlSections`, `TomlValues`, `ServerNames`,
  `TomlRoundTrip`, `TomlRewrite`, `ManagedToml`, `UnmanagedToml`, `LostNames`). The line parser and printer on
  `seq<char>`, with a classifier for each regular expression, and the rewrite of the managed sections inside a file
  whose other sections must survive.
- **Applying tools** (`ApplyTools`, `JsonTools`). The tool catalog and the assignments applied to one TOML or
  JSON-object config, on top of the TOML results.
- **Activity tracker** (`ActivityTracker`), **version precedence** (`Semver`), **search index and its caches**
  (`Bm25`, `SearchCaches`), **style graph** (`StyleGraph`, `StyleResolution`), **promise chains** (`PromiseChain`),
  **demo bundle boundary** (`DemoBoundary`), **redemption limit** (`RedemptionLimit`) and **bookmark import**
  (`Bookmarks`).

Objects that the source updates are classes whose methods are proved against functions on values; the properties are
lemmas about those functions and about whole runs of them.

Where the code does not keep a promise in full, a lemma gives the exact condition:

- `revokeToken` overwrites a standing expiry instead of keeping the later one:
  `RevocationRefusal.RevokeKeepsRefusalsIff` says when refusals survive, `LoweredExpiryReadmits` is a run in which one
  does not, and `DefaultRunsRaise` shows that callers with default expiries are safe.
- A retry deletes an incomplete batch oldest file first and its records last. A crash there can take the technical
  segment and leave a snapshot that is newer than it, and that snapshot's file stands in the way of any retry.
  `Stranding.BatchStrandsIff` says to which batches this can happen, `Stranding.LateBatchStrands` is such a run, and
  `BatchRetries.RetrySucceedsIff` says exactly when a retry goes through.
- An argument list is read back with its backslashes doubled: `TomlValues.ArrayRoundTripIff`. So are env values, and
  env keys that are no words and values with quotes are not read at all: `TomlValues.TableRoundTripIff`. An http server
  loses its env: `TomlRoundTrip.SurvivesIff`. An env given as one string is read under a key with a stray quote:
  `TomlSections.StringEnvIsMisread`.
- Server names with a dot, a quote, a backslash or a closing bracket do not survive: `ServerNames.NameSurvivesIff`.
  Where one of them is assigned to a runtime, some assigned server is missing from its config after applying:
  `ApplyTools.TomlPresenceIff`, with `LostNames.DottedNameLost` as an example. A server whose name ends in a closing
  bracket even replaces the command of the server before it, `LostNames.BracketOverwrites`, and as the first one
  leaves its lines among the file's own, `UnmanagedToml.SealedIff`. A line break in a name loses the server, too:
  `LostNames.BrokenNameLost`.
- A carriage return in front of a line's own carriage return can hide a header that the next rewrite brings back:
  `ManagedToml.RewriteExactIff` and `ManagedToml.StrayReturnResurrects`. The lines below it are then lost from the
  file's own part: `UnmanagedToml.RewriteKeepsUnmanagedIff` and `UnmanagedToml.StrayReturnLosesLine`.
- Every rewrite that writes an entry adds a blank line, so it changes every file, also one it has just written, and
  such a config is never reported as unchanged: `UnmanagedToml.RewriteNeverSettles`.
- A server newly written to a JSON-object config other than opencode's loses its url and its env:
  `JsonTools.NewEntryReadsBackIff`. One written over an entry with a url stays what that entry was, whatever command
  it is given: `JsonTools.OthersKeepUrl`.
- Being behind by a prerelease alone counts as zero: `Semver.OffsetMeansBehind`.
- With more than 200 sessions in the tracker, one not seen for over six hours starts anew:
  `ActivityTracker.ForgottenAfterGap`, with `FewAreNeverForgotten` and `EvictionIsInvisible` for the other cases.
- The validator compares categories with the blanks at their ends, the resolver without. A retired style whose category
  differs from a live one's by such a blank passes and hides it: `StyleResolution.UntrimmedCategoryHides`;
  `StyleResolution.AllFoundIff` says when every name is found.
- A bookmark that the schema rejects is imported again and again: `Bookmarks.ReimportAddsNothingIff`.

## Model

| member | source | states |
|---|---|---|
| Revocation.SessionRevocationStore.RevokeToken | apps/api/src/auth.ts:352-361 | revoking a token records its signature hash and its session id under the new expiry, replacing an earlier one, and starts a write for each while persistence is attached |
| Revocation.SessionRevocationStore.RevokeSessionHash | apps/api/src/auth.ts:364-368 | a session hash is recorded only when it is 64 hex digits |
| Revocation.SessionRevocationStore.RevokeUser | apps/api/src/auth.ts:370-374 | a user's cut-off only moves forward |
| Revocation.SessionRevocationStore.PersistenceLoaded | apps/api/src/auth.ts:327-339 | loaded rows raise what memory holds and never lower it |
| Revocation.SessionRevocationStore.IsRevoked | apps/api/src/auth.ts:402-433 | refuses while unloaded, a held key that has not expired, and a token issued before its user's cut-off |
| Revocation.SessionRevocationStore.Cleanup | apps/api/src/auth.ts:435-445 | only expired entries are dropped |
| Revocation.DropExpired | apps/api/src/auth.ts:437-442 | the deletion loop keeps exactly the entries that have not expired |
| RevocationProtocol.RunKeepsInv | apps/api/src/auth.ts:327-445 | the coverage invariant of both tables holds in every reachable state |
| RevocationProtocol.EveryRequestIsCovered | apps/api/src/auth.ts:352-400 | in every interleaving each unexpired revocation requested while persistence is attached is in the durable table, the retry queue or a write in flight, with at least its expiry |
| RevocationProtocol.ResolvedIsDurable | apps/api/src/auth.ts:377-395 | once its promise resolved a revocation stays in the durable table until it expires, through any crashes |
| RevocationRefusal.RevokeKeepsRefusalsIff | apps/api/src/auth.ts:352-361 | a revocation keeps every standing refusal if and only if it lowers no expiry |
| RevocationRefusal.ResolvedIsRefused | apps/api/src/auth.ts:327-429 | a revocation whose promise resolved, before or after any crash, is refused whenever persistence is attached and loaded |
| RevocationRefusal.ResolvedEpochIsRefused | apps/api/src/auth.ts:370-395 | the same for a user's cut-off, on every run |
| RevocationRefusal.RefusedOnlyIfRequested | apps/api/src/auth.ts:402-429 | a loaded store refuses only what some request revoked and has not expired |
| RevocationRefusal.DefaultRunsRaise | apps/api/src/auth.ts:352-361 | with default expiries no run ever lowers one |
| RevocationRefusal.LoweredExpiryReadmits | apps/api/src/auth.ts:352-361 | a run in which an explicit earlier expiry re-admits a token whose revocation had resolved |
| RevocationRefusal.RefusedWhileLoading | apps/api/src/auth.ts:327-339 | while a load is pending or has failed every token is refused |
| Sessions.RenewalStaysInFamily | apps/api/src/auth.ts:218-233 | a renewal keeps the user and the revocation key, and lasts the full sliding lifetime |
| Sessions.RenewalRevokesOriginalIff | apps/api/src/auth.ts:218-233 | revoking a renewal reaches the original exactly when the cookie carries a session id or is an older one |
| Sessions.RevokingOneCopyRefusesAll | apps/api/src/auth.ts:283-298 | over any chain of renewals revoking one copy refuses every earlier and later copy until the revocation expires |
| Sessions.CsrfSurvivesRenewals | apps/api/src/auth.ts:194-250 | a CSRF token made from any copy is accepted with every later copy |
| Sessions.CsrfSurvivesRenewalIff | apps/api/src/auth.ts:218-250 | exactly then for one renewal |
| Sessions.CarriesNoOwnToken | apps/api/src/auth.ts:194-216 | no cookie carries a CSRF token made from itself |
| SessionUse.AcceptedIff | apps/api/src/auth.ts:463-506 | a cookie is accepted as a user exactly when it is signed with a secret of at least 16 characters, is that user's, has not expired, the revocations are loaded, and none of them names the cookie, its session id or its hash, or ended the user's sessions after it was issued |
| SessionUse.UsedSessionLives | apps/api/src/auth.ts:162-233 | a session used within every 15 days is accepted as the user who logged in, from any number of renewals, exactly as long as no revocation names it; unused for 30 days it has ended |
| SessionUse.CopiesAreOneUser | apps/api/src/auth.ts:218-233 | every copy of a chain is accepted as the first one's user or not at all |
| SessionUse.RenewedIff | apps/api/src/auth.ts:218-233 | exactly the cookies that are due are renewed |
| SessionUse.FixedSessionEnds | apps/api/src/auth.ts:218-233 | device, short and proof sessions end when their cookie expires, however they are used |
| SessionUse.OlderCookieMoves | apps/api/src/auth.ts:218-233 | any other older cookie moves to the sliding 30 days at its next use, under its own revocation key |
| SessionUse.RevocationActsAtOnce | apps/api/src/auth.ts:364-374 | ending a user's sessions, or one by its hash, refuses them at once, with a database attached or without |
| SessionUse.RevocationReadmitsNone | apps/api/src/auth.ts:364-374 | neither makes a refused cookie acceptable |
| SessionUse.CsrfAcceptedIff | apps/api/src/auth.ts:198-251 | the CSRF token of one cookie is accepted with another exactly when both are the same user's sliding session or the other carries it |
| SessionUse.OlderCsrfAcceptedIff | apps/api/src/auth.ts:194-251 | a token made from a cookie itself is accepted with that cookie and where it is carried, nowhere else |
| SessionRuns.LogoutEndsEveryCopy | apps/api/src/auth.ts:463-506 | after logging out with any copy of a sliding session no copy is ever accepted again and none is issued |
| SessionRuns.LogoutIsFinal | apps/api/src/auth.ts:327-506 | from login over renewals and restarts: after logging out with any copy none is accepted and none is issued in that process, and once the promise resolved in any later one |
| Segments.RunIsShortest | apps/api/src/app-diagnostics.ts:849-866 | the evicted run frees enough bytes and no shorter one does |
| SegmentStore.MakeRoomIsExact | apps/api/src/app-diagnostics.ts:820-878 | exactly count - max + 1 oldest segments go for the count, then the shortest oldest-first run of the class; the other class stays; every removal is counted |
| Quotas.EvictsOldestOfSharedQuota | apps/api/src/app-diagnostics.ts:849-874 | for room are removed the oldest segments of the kinds that share the quota, snapshots with videos, until the bytes of all of these leave room and no sooner |
| Quotas.StoredWithinQuotas | apps/api/src/app-diagnostics.ts:787-878 | after a segment is stored the snapshots and videos together are within the visual quota, the technical segments within the technical one, and the number of all within its limit |
| Quotas.LimitsHoldThroughout | apps/api/src/app-diagnostics.ts:412-564 | over any run of uploads, single segments, deletions and `initialize`, each stopped after any operation, the count and both byte limits hold in every state, and no batch of a client has two technical segments |
| BatchRecords.CompleteIff | apps/api/src/app-diagnostics.ts:466-477 | the completeness condition of a retry holds exactly when every snapshot of the batch is recorded |
| Effects.EffectsAreTheUpload | apps/api/src/app-diagnostics.ts:412-564 | the single file and repository operations of an upload, performed to the last, are the upload; so what a crash leaves is a prefix of them |
| Effects.InitializeEffectsAreIt | apps/api/src/app-diagnostics.ts:1050-1101 | so are those of `initialize` |
| CrashSafety.UploadSafe | apps/api/src/app-diagnostics.ts:412-564 | for a batch whose snapshots, the last excepted, are older than its technical segment: wherever an upload stops, in the deletion of the incomplete batch, in an eviction, between or within the three writes of a segment or in the rollback, no file of the batch is there without its technical segment |
| CrashSafety.InitializeSafe | apps/api/src/app-diagnostics.ts:1050-1101 | and so it stays wherever `initialize` stops |
| BatchRetries.ReconcileExact | apps/api/src/app-diagnostics.ts:1050-1101 | `initialize` drops exactly the unexpired records whose file is gone and makes the index of every other one match |
| BatchRetries.ReconcileStrandsIff | apps/api/src/app-diagnostics.ts:1050-1101 | after any crash `initialize` leaves a snapshot without its technical segment exactly when the technical file is gone and a snapshot file is not |
| BatchRetries.ReconcileRepairs | apps/api/src/app-diagnostics.ts:1050-1101 | after a crash at any point of an upload `initialize` leaves a store that a retry can start from |
| BatchRetries.UploadProgress | apps/api/src/app-diagnostics.ts:412-564 | one upload, stopped after any single operation or within a content write, keeps the invariant, and a batch within its quotas is stored if it runs to its end |
| BatchRetries.RetriesConverge | apps/api/src/app-diagnostics.ts:412-564 | such a batch, after any number of crashes at any operations or within them, each followed by any number of stopped `initialize` and one that runs to its end, is stored by a retry as exactly one technical record and one per snapshot, with content and index, and none of its items is refused |
| BatchRetries.StoredUploadIsIdempotent | apps/api/src/app-diagnostics.ts:455-477 | uploading a stored batch again performs no operation |
| BatchRetries.RetrySucceedsIff | apps/api/src/app-diagnostics.ts:455-520 | a retry goes through if and only if the snapshot ids are distinct, every segment is within its quota and no snapshot is recorded without its technical record |
| BatchRetries.RoomyKeepsOwn | apps/api/src/app-diagnostics.ts:820-878 | where the limits leave room for the whole batch nothing of it is evicted for its later segments |
| BatchRetries.FailedUploadLeavesNoRecord | apps/api/src/app-diagnostics.ts:512-519 | a refused upload leaves no record of the batch, whatever item was refused |
| Stranding.DeletionStrandsIff | apps/api/src/app-diagnostics.ts:463-478 | no crash in a retry's deletion strands a snapshot if and only if all recorded snapshots of the batch are older than its technical segment |
| Stranding.BatchStrandsIff | apps/api/src/app-diagnostics.ts:412-545 | two crashes can strand a batch if and only if one of its snapshots, the last excepted, is not older than its technical segment |
| Stranding.LateSnapshotStrands | apps/api/src/app-diagnostics.ts:412-545 | for every such batch, the run that strands it, from where no retry goes through |
| Stranding.LateBatchStrands | apps/api/src/app-diagnostics.ts:412-545 | one such batch, uploaded into an empty store |
| Reconciliation.PageIsNext | apps/api/src/app-diagnostics.ts:1050-1101 | while records are being removed the next page still holds the next unexpired records |
| DiagnosticsService.AppDiagnosticsService.EnforceQuota | apps/api/src/app-diagnostics.ts:820-878 | refuses only a segment larger than its quota, else leaves exactly the room-making of `MakeRoom`, operation by operation |
| DiagnosticsService.AppDiagnosticsService.EnforceCount | apps/api/src/app-diagnostics.ts:828-848 | paging by at most a thousand removes exactly the oldest segments over the count, each page newest first |
| DiagnosticsService.AppDiagnosticsService.EnforceBytes | apps/api/src/app-diagnostics.ts:849-874 | the paged loop removes exactly the run of the whole class, each page oldest first and its records last |
| DiagnosticsService.AppDiagnosticsService.EvictPage | apps/api/src/app-diagnostics.ts:853-869 | one page continues the run where the pages before it stopped |
| DiagnosticsService.AppDiagnosticsService.DeleteStoredSegments | apps/api/src/app-diagnostics.ts:540-545 | the files go one by one from the end of the list, then all records at once |
| DiagnosticsService.AppDiagnosticsService.RemoveUntilFits | apps/api/src/app-diagnostics.ts:858-866 | removes the files of the shortest run of the page |
| DiagnosticsService.AppDiagnosticsService.PersistSegment | apps/api/src/app-diagnostics.ts:787-818 | stores record, content and index, or takes back what it wrote |
| DiagnosticsService.AppDiagnosticsService.IngestEventBatch | apps/api/src/app-diagnostics.ts:412-538 | the locked part of an upload performs exactly the operations of `UploadEffects`; it is accepted exactly when no item is refused, and answers a conflict or a complete batch without any operation |
| DiagnosticsService.AppDiagnosticsService.RemoveUnindexedPreparedFile | apps/api/src/app-diagnostics.ts:547-564 | a prepared snapshot's leftover file goes unless a record claims it |
| DiagnosticsService.AppDiagnosticsService.PersistAll | apps/api/src/app-diagnostics.ts:511-520 | the persist loop is accepted exactly when every item can be stored, and otherwise deletes what it created |
| DiagnosticsService.AppDiagnosticsService.ReconcileSegment | apps/api/src/app-diagnostics.ts:1068-1092 | a lost file takes its record with it, any other index is made to match, operation by operation |
| DiagnosticsService.AppDiagnosticsService.ReconcileSegmentIndexes | apps/api/src/app-diagnostics.ts:1050-1101 | paging with a cursor does what one pass over all records would, operation by operation |
| Text.LinesOfText | apps/api/src/agent-tools.ts:374-403 | splitting a joined text gives its lines back |
| Text.TrimEndOfJoin | apps/api/src/agent-tools.ts:403 | trimming the end drops blank lines and trims the last line that is left |
| TomlPatterns.SectionIff | apps/api/src/agent-tools.ts:200 | the section classifier accepts exactly the lines that its regular expression matches, with the trimmed group as the name |
| TomlPatterns.ArrayIff | apps/api/src/agent-tools.ts:201 | so does the one of array headers |
| TomlPatterns.KeyIff | apps/api/src/agent-tools.ts:260-263 | and that of `key = value` lines |
| TomlPatterns.EnabledIff | apps/api/src/agent-tools.ts:318 | and that of `enabled = true` and `false` |
| TomlLexer.StringRoundTrip | apps/api/src/agent-tools.ts:203-206 | the two-pass unescape undoes the escape, for every string |
| TomlLexer.ScanQuotedEscape | apps/api/src/agent-tools.ts:208-216 | a quoted string is scanned up to its own closing quote, whatever follows |
| TomlValues.ArrayReadsBack | apps/api/src/agent-tools.ts:208-216 | a written argument list reads back with its backslashes doubled |
| TomlValues.ArrayRoundTripIff | apps/api/src/agent-tools.ts:208-216 | it reads back unchanged if and only if no argument has a backslash |
| TomlValues.TableReadsBack | apps/api/src/agent-tools.ts:218-228 | a written env table with word keys and values without quotes reads back with its backslashes doubled |
| TomlValues.TableRoundTripIff | apps/api/src/agent-tools.ts:218-228 | an env table reads back unchanged if and only if its keys are words and no value has a quote or a backslash |
| TomlConfig.ParseTomlMcpServers | apps/api/src/agent-tools.ts:230-281 | the line loop computes the servers of the text's lines |
| TomlConfig.ParseTomlSkills | apps/api/src/agent-tools.ts:288-324 | the line loop computes the skills of the text's lines |
| TomlConfig.KeepUnmanaged | apps/api/src/agent-tools.ts:374-388 | the line loop computes the lines outside managed sections |
| TomlConfig.RewriteManagedToml | apps/api/src/agent-tools.ts:369-404 | the loops compute the outside lines followed by the written blocks |
| TomlSections.ServerIsItsLastSection | apps/api/src/agent-tools.ts:230-281 | for any text, the servers read are, for each name, the one of the last section that opens it, read from the lines up to the next section header and from no others |
| TomlSections.LastLineCounts | apps/api/src/agent-tools.ts:260-266 | of several lines of a section for one key the last one counts |
| TomlSections.StringEnvIsMisread | apps/api/src/agent-tools.ts:267-275 | an env line `"key=value"` stores the whole string under the key with its opening quote |
| TomlSections.SkillsAreSections | apps/api/src/agent-tools.ts:288-324 | for any text, the skills read are those of the `[[skills.config]]` blocks with a path, in order, each from its own lines |
| TomlSections.KeptAreOutside | apps/api/src/agent-tools.ts:374-388 | for any text, a rewrite keeps exactly the lines that are no markers and whose last header is not managed |
| ServerNames.HeaderReads | apps/api/src/agent-tools.ts:252-257 | a written header is a section header of the managed kind exactly when nothing but a comment follows its first closing bracket, and never an array header |
| ServerNames.NameSurvivesIff | apps/api/src/agent-tools.ts:252-258 | a server is read under the name it was written under exactly when the name is not empty and has no dot, quote, backslash or closing bracket |
| TomlRoundTrip.BlocksReadBack | apps/api/src/agent-tools.ts:230-352 | scanning the written server blocks sets exactly those servers, in any scan state |
| TomlRoundTrip.SkillBlocksReadBack | apps/api/src/agent-tools.ts:288-356 | the skill blocks add exactly those skills and leave the server scan untouched |
| TomlRoundTrip.SurvivesIff | apps/api/src/agent-tools.ts:334-352 | a definition reads back unchanged exactly when it is canonical |
| TomlRewrite.BlockSkipped | apps/api/src/agent-tools.ts:375-387 | of a written block a later rewrite keeps at most its leading blank line |
| TomlRewrite.ArrayIsNoSection | apps/api/src/agent-tools.ts:200-201 | no line is both kinds of header |
| ManagedToml.PresentAfterRewrite | apps/api/src/agent-tools.ts:369-404 | for any surrounding text and any names, the servers present afterwards are those under whose names the written headers are read and those hidden in the text |
| ManagedToml.SkillsAfterRewrite | apps/api/src/agent-tools.ts:369-404 | for any surrounding text and any servers the written skills are read back |
| ManagedToml.RewriteReadsBackAny | apps/api/src/agent-tools.ts:369-404 | for any surrounding text the written servers and skills are read back, on top of those hidden in it |
| ManagedToml.RewriteReadsBack | apps/api/src/agent-tools.ts:369-404 | without stray line terminators exactly the written servers and skills are read back |
| ManagedToml.RewriteExactIff | apps/api/src/agent-tools.ts:369-404 | for any surrounding text the servers are exact if and only if the hidden ones are none or named like the first written ones |
| ManagedToml.ReadBackAllIff | apps/api/src/agent-tools.ts:334-352 | the servers read back unchanged if and only if all are canonical |
| ManagedToml.StrayReturnResurrects | apps/api/src/agent-tools.ts:369-404 | for every name a text whose hidden header a rewrite brings to life |
| UnmanagedToml.RewriteKeepsUnmanagedIff | apps/api/src/agent-tools.ts:369-404 | for any text and any sets whose first header is one, a rewrite keeps the non-blank lines outside managed sections, in order, trailing spaces aside, if and only if none of them becomes a managed header or the marker by losing a carriage return |
| UnmanagedToml.RewriteAddsNothingIff | apps/api/src/agent-tools.ts:369-404 | for any sets at all, a rewrite that hides no outside line adds none if and only if none of the written lines is taken for one |
| UnmanagedToml.SealedIff | apps/api/src/agent-tools.ts:369-404 | and that is so exactly when the first written server header is read as one |
| UnmanagedToml.NoBracketIsHeaded | apps/api/src/agent-tools.ts:334-352 | as is every header whose name has no closing bracket |
| UnmanagedToml.CleanRewriteKeeps | apps/api/src/agent-tools.ts:369-404 | so it does without stray line terminators, and leaves no such |
| UnmanagedToml.StrayReturnLosesLine | apps/api/src/agent-tools.ts:369-404 | for every name a text whose only line outside managed sections is lost |
| UnmanagedToml.RunOfRewritesIff | apps/api/src/agent-tools.ts:369-404 | any run of rewrites keeps those lines of any text if and only if they stay free of managed headers while they lose carriage returns |
| UnmanagedToml.CleanStaysFree | apps/api/src/agent-tools.ts:369-404 | a text without stray line terminators meets that condition on every run |
| UnmanagedToml.RunReadsBackLast | apps/api/src/agent-tools.ts:369-404 | and then only the last sets are read back |
| UnmanagedToml.SecondRewrite | apps/api/src/agent-tools.ts:389-403 | after a rewrite that lost no line, a second one yields the same outside lines, one blank more, and a managed part that depends only on the last sets |
| UnmanagedToml.RewriteNeverSettles | apps/api/src/agent-tools.ts:389-403 | a rewrite that writes an entry changes every text |
| LostNames.DottedNameLost | apps/api/src/agent-tools.ts:252-258 | a server with a dot in its name is not read back from any text without stray line terminators |
| LostNames.BracketOverwrites | apps/api/src/agent-tools.ts:230-281 | a server whose name ends in its only closing bracket is lost, and its command becomes that of the server before it |
| LostNames.BrokenNameLost | apps/api/src/agent-tools.ts:230-281 | a server whose name has a line break is lost |
| ApplyTools.CatalogCovers | apps/api/src/agent-tools.ts:855-881 | the catalog has each server name once, and exactly the names that some runtime has |
| ApplyTools.BuildCatalog | apps/api/src/agent-tools.ts:855-881 | the nested loops compute the catalog |
| ApplyTools.CatalogDefinition | apps/api/src/agent-tools.ts:814-823 | an entry has the definition that Codex gives the name, or else the first runtime that has one |
| ApplyTools.DesiredServers | apps/api/src/agent-tools.ts:995-1003 | the loop selects the servers to write and lists the enabled ids |
| ApplyTools.DesiredSkills | apps/api/src/agent-tools.ts:1004-1021 | the loops list the catalog skills and the kept nested ones |
| ApplyTools.ApplyToml | apps/api/src/agent-tools.ts:991-1022 | parse, select and rewrite one TOML config |
| ApplyTools.AppliedReadsBack | apps/api/src/agent-tools.ts:991-1026 | after applying to any config, the selected servers with names and env tables that survive and the skills are read back on top of those that the rewrite uncovered in the outside lines |
| ApplyTools.TomlPresence | apps/api/src/agent-tools.ts:991-1026 | after applying to any config the servers present are those under whose names the selected ones are read, and those that the rewrite uncovered, of which a clean config has none; where all selected names survive, a server is selected exactly when its assignment is common or lists the runtime, or it is unassigned and was there before |
| ApplyTools.TomlPresenceIff | apps/api/src/agent-tools.ts:991-1026 | in a clean config all assignments are met if and only if every selected name survives |
| ApplyTools.TomlSkillsAfter | apps/api/src/agent-tools.ts:1004-1021 | in any config every catalog skill is listed: enabled when its assignment is common, when it is specific exactly where the runtime is named, disabled when it is nowhere, and unassigned as it was read before, or enabled; nested bundle entries stay; a clean config lists nothing else |
| JsonTools.GetSet | apps/api/src/agent-tools.ts:421-442 | what is set at a key path is read back from it |
| JsonTools.SetElsewhere | apps/api/src/agent-tools.ts:421-442 | other top-level members stay |
| JsonTools.ApplyJson | apps/api/src/agent-tools.ts:1073-1097 | the loops compute the rebuilt section and set it |
| JsonTools.JsonPresence | apps/api/src/agent-tools.ts:1073-1097 | the same presence rule for JSON-object configs; members unknown to the catalog stay as they were |
| JsonTools.EntryKeepsRest | apps/api/src/agent-tools.ts:1083-1094 | writing over an existing entry keeps its members that do not define the server |
| JsonTools.NewEntryReadsBackIff | apps/api/src/agent-tools.ts:1083-1094 | which definitions a newly written entry carries, exactly |
| JsonTools.OpencodeForgetsOld | apps/api/src/agent-tools.ts:1088-1093 | what an opencode entry defined before leaves no trace in what is read after writing over it |
| JsonTools.OthersKeepUrl | apps/api/src/agent-tools.ts:1086-1087 | in other configs an entry's url and env are read on, and with a url no command written over it is |
| JsonTools.EnvironmentIsRead | apps/api/src/agent-tools.ts:444-464 | an env is read from `environment`, and from `env` where that is no object |
| ActivityTracker.Tracker.Observe | apps/api/src/agents-dashboard.ts:231-257 | the eviction loop and the branches compute the new table and what is shown |
| ActivityTracker.QuietShows | apps/api/src/agents-dashboard.ts:238-251 | a quiet screen shows done exactly after done, or 4 s after going quiet when it was working, dated from the first quiet observation; before that working with its original start |
| ActivityTracker.SpellIsDated | apps/api/src/agents-dashboard.ts:238-256 | the status shown is dated by the last date that the CLI gave for it in its unbroken spell; without one working and waiting date from the first observation of the spell, and done after a quiet screen from where the quiet began |
| ActivityTracker.ShowsItsOwnHistory | apps/api/src/agents-dashboard.ts:233-256 | among any other sessions a session shows what its own history shows, from its start or from after a gap of over six hours |
| ActivityTracker.EvictionIsInvisible | apps/api/src/agents-dashboard.ts:235 | eviction never changes what a session shows that is observed at least every six hours |
| ActivityTracker.FewAreNeverForgotten | apps/api/src/agents-dashboard.ts:233-257 | while at most 200 sessions have been observed none is forgotten, however long it was not seen |
| ActivityTracker.ForgottenAfterGap | apps/api/src/agents-dashboard.ts:235 | with more than 200 in the table, one not seen for over six hours starts anew |
| Semver.ParseReadsRendering | apps/api/src/app-version.ts:44-58 | every version of the grammar of SemVer 2.0.0 sections 2, 9 and 10, with core numbers below 2^53 and an optional v, parses to its own parts |
| Semver.ParsedIsRendering | apps/api/src/app-version.ts:44-58 | and nothing else parses |
| Semver.ValueInjective | apps/api/src/app-version.ts:48-49 | without leading zeros a number is written in one way |
| Semver.CompareSemver | apps/api/src/app-version.ts:65-95 | the loop computes the comparison, and early returns agree with it |
| Semver.ComparesByPrecedence | apps/api/src/app-version.ts:65-95 | the sign is the precedence of SemVer 2.0.0 section 11, and 0 exactly for equal core and prerelease |
| Semver.OrderOfAnyStrings | apps/api/src/app-version.ts:65-95 | of any two strings, one that is no version comes first, two such are collated, and two versions are ordered by precedence |
| Semver.IdentifierTotalIff | apps/api/src/app-version.ts:83-92 | identifiers are totally ordered exactly where equal numbers are written alike |
| Semver.CompareAntisymmetric | apps/api/src/app-version.ts:65-95 | swapping two strings swaps the sign |
| Semver.CompareTransitive | apps/api/src/app-version.ts:65-95 | the comparison is transitive on all strings |
| Semver.OffsetMeansBehind | apps/api/src/app-version.ts:97-103 | never negative, zero exactly when not behind or behind by the prerelease alone, else the largest gap |
| Bm25.Index.Fit | agent-skills/space-ui-ux-pro-max/scripts/core.py:302-321 | the loops build the index that describes the corpus |
| Bm25.CountTerms | agent-skills/space-ui-ux-pro-max/scripts/core.py:313-316 | the loop counts every word of a document |
| Bm25.CountDocuments | agent-skills/space-ui-ux-pro-max/scripts/core.py:312-319 | the loops count the documents that each word is in |
| Bm25.Index.ScoreDocument | agent-skills/space-ui-ux-pro-max/scripts/core.py:328-339 | the token loop sums the formula by direct counting |
| Bm25.Index.Score | agent-skills/space-ui-ux-pro-max/scripts/core.py:323-343 | the indexed scores equal the formula by direct counting, ranked |
| Bm25.SortedRanks | agent-skills/space-ui-ux-pro-max/scripts/core.py:343 | the ranking lists every document once, best first, ties in document order |
| Bm25.FrequencyAtMostN | agent-skills/space-ui-ux-pro-max/scripts/core.py:313-318 | no document frequency exceeds the number of documents |
| Bm25.IdfPositive | agent-skills/space-ui-ux-pro-max/scripts/core.py:320-321 | every idf is positive |
| Bm25.ScoreBounds | agent-skills/space-ui-ux-pro-max/scripts/core.py:333-341 | a score is positive exactly when the document contains a query token, and below (k1 + 1) times the summed idf of the indexed tokens |
| SearchCaches.VariantDetermines | agent-skills/space-ui-ux-pro-max/scripts/core.py:888-922 | two row filters with the same cache variant are the same filter |
| SearchCaches.StackRowsAreCoherent | agent-skills/space-ui-ux-pro-max/scripts/core.py:888-922 | a stack search returns legacy rows alone where they are asked for and exist, nothing where a current stack has none, else the active rows alone, or, where none is active, all that are not legacy |
| SearchCaches.SelectedIs | agent-skills/space-ui-ux-pro-max/scripts/core.py:432-435 | exactly the rows that pass the filter are searched, in their order |
| SearchCaches.ColumnIsInText | agent-skills/space-ui-ux-pro-max/scripts/core.py:397-398 | the value of each searched column is a stretch of its own of the row's text |
| SearchCaches.Search.LoadCsvSnapshot | agent-skills/space-ui-ux-pro-max/scripts/core.py:363-378 | returns the rows cached at the current signature, else those of the first attempt during which the file did not change, and fails exactly when there is neither |
| SearchCaches.StableFileIsReadAnew | agent-skills/space-ui-ux-pro-max/scripts/core.py:363-378 | a file that is not being written is searched as it is now, whatever was cached |
| SearchCaches.Search.GetBm25 | agent-skills/space-ui-ux-pro-max/scripts/core.py:386-402 | a cached index is the index of exactly the rows the caller holds |
| SearchCaches.Search.SearchCsv | agent-skills/space-ui-ux-pro-max/scripts/core.py:414-461 | searches the filtered rows of exactly that signature, with the index, ranking, abstention and results of these rows, over any edits and searches before |
| SearchCaches.ResultsContainTheQuery | agent-skills/space-ui-ux-pro-max/scripts/core.py:449-454 | every result is a searched row whose own text contains a query token |
| SearchCaches.ResultsAreBest | agent-skills/space-ui-ux-pro-max/scripts/core.py:449-454 | the results are the best rows with a positive score, best first, as many as asked for, and none left out scores higher |
| SearchCaches.AnswersIff | agent-skills/space-ui-ux-pro-max/scripts/core.py:441-447 | a search answers exactly when some row's score is above the least one and by the margin above every other, and enough of the query's tokens occur in some row |
| SearchCaches.CoverageIsShare | agent-skills/space-ui-ux-pro-max/scripts/core.py:406-411 | the coverage is the share of the query's distinct tokens that occur in some row's text |
| SearchCaches.FindsNothingIff | agent-skills/space-ui-ux-pro-max/scripts/core.py:441-454 | without thresholds nothing is found exactly when no row's text contains a query token |
| StyleGraph.CheckRows | agent-skills/space-ui-ux-pro-max/scripts/validate_data.py:231-272 | the first loop computes the row problems and the tables of identities, rows and parents |
| StyleGraph.CheckKeys | agent-skills/space-ui-ux-pro-max/scripts/validate_data.py:265-269 | the inner loop reports ambiguous identities and sets their owner |
| StyleGraph.HasParentCycle | agent-skills/space-ui-ux-pro-max/scripts/validate_data.py:273-283 | the cycle check reports exactly the chains that never end |
| StyleGraph.CheckParents | agent-skills/space-ui-ux-pro-max/scripts/validate_data.py:273-281 | exactly the invalid, cyclic and inactive parents are reported |
| StyleGraph.CheckReferences | agent-skills/space-ui-ux-pro-max/scripts/validate_data.py:282-294 | exactly the unresolved and deprecated references are reported |
| StyleGraph.CheckStyleContract | agent-skills/space-ui-ux-pro-max/scripts/validate_data.py:231-294 | no problem is reported exactly when the data are sound: every row, every parent, and every name in a product's primary or secondary styles or in a priority list belongs to a live row |
| StyleGraph.ReferencesAre | agent-skills/space-ui-ux-pro-max/scripts/validate_data.py:282-287 | the names checked are exactly the trimmed, non-empty pieces of primary styles at `+`, of secondary styles at `,` and of priorities at `+` |
| StyleGraph.BuildStyleLookup | agent-skills/space-ui-ux-pro-max/scripts/design_system.py:322-330 | the loops compute the lookup in which the last style of a name wins |
| StyleGraph.ResolveStyle | agent-skills/space-ui-ux-pro-max/scripts/design_system.py:332-342 | ends on any data, cyclic or not |
| StyleResolution.RowsSoundIff | agent-skills/space-ui-ux-pro-max/scripts/validate_data.py:231-272 | no row problem is reported exactly when every row has valid fields, all ids differ and no two rows have identities that fold alike |
| StyleResolution.AllFoundIff | agent-skills/space-ui-ux-pro-max/scripts/design_system.py:322-330 | on sound rows every name leads to its own row if and only if no two rows answer to names that fold alike |
| StyleResolution.TrimmedAreApart | agent-skills/space-ui-ux-pro-max/scripts/validate_data.py:263-269 | which holds of sound rows whose categories have no blanks at their ends |
| StyleResolution.UntrimmedCategoryHides | agent-skills/space-ui-ux-pro-max/scripts/design_system.py:322-342 | two sound rows, one category with a blank at its end, and the live one is not found under its category |
| StyleResolution.NamesResolve | agent-skills/space-ui-ux-pro-max/scripts/design_system.py:332-342 | on sound data whose rows answer to names of their own every name resolves to its live row, or to the active parent of its deprecated row |
| StyleResolution.DeprecatedHasOneReplacement | agent-skills/space-ui-ux-pro-max/scripts/validate_data.py:250-262 | on sound data every deprecated row has either an active parent or a known redirect, never both |
| StyleResolution.ReferencesResolve | agent-skills/space-ui-ux-pro-max/scripts/design_system.py:332-342 | on such data every name in a product's primary or secondary styles or in a priority list resolves to a live row that it names |
| StyleResolution.ResolverFollowsParents | agent-skills/space-ui-ux-pro-max/scripts/design_system.py:332-342 | on any data with ids of their own the resolver returns the first live row on the chain of parents, and nothing when it breaks off or never ends |
| PromiseChain.OneAtATimeInCallOrder | apps/api/src/app-diagnostics.ts:1223-1235 | in every interleaving at most one operation runs, and it finds all earlier ones finished |
| PromiseChain.StartsFollowCalls | apps/api/src/admin-toolbar-routes.ts:63-68 | operations start once each, in the order of the calls |
| PromiseChain.EveryCallerIsServed | apps/api/src/admin-toolbar-routes.ts:63-68 | a failed operation blocks no later one, and a run can only stop when every caller is served |
| PromiseChain.AnyOutcomesCanCome | apps/api/src/admin-toolbar-routes.ts:63-68 | any number of callers can be served, with any mix of outcomes |
| DemoBoundary.InspectDemoBundleBoundary | apps/web/vite.demo-boundary.ts:34-67 | ends on any import graph, visits exactly the reachable chunks, fails exactly on a reachable missing one, lists a forbidden module exactly when a visited chunk holds it |
| DemoBoundary.EntryAndForbiddenAre | apps/web/vite.demo-boundary.ts:19-32 | which chunk is the entry and which module is forbidden, by the ends of their paths |
| RedemptionLimit.Limiter.Consume | apps/api/src/admin-toolbar-routes.ts:51-62 | the pruned list and the decision of one attempt |
| RedemptionLimit.PrunedIsHistory | apps/api/src/admin-toolbar-routes.ts:51-62 | the pruned list and the full history show the same attempts in the window |
| RedemptionLimit.AcceptedIff | apps/api/src/admin-toolbar-routes.ts:55-61 | accepted exactly when fewer than 12 accepted attempts lie in the last five minutes of the whole run |
| RedemptionLimit.AtMostLimitInWindow | apps/api/src/admin-toolbar-routes.ts:51-62 | of any 13 accepted attempts of an actor the last comes at least five minutes after the first |
| Bookmarks.CollectIsAccepted | apps/api/src/browser-bookmarks.ts:80-92 | the recursive visit collects exactly the nodes that the schema accepts |
| Bookmarks.MaxIdAllBounds | apps/api/src/browser-bookmarks.ts:94-104 | the recursive visit finds a bound of every numeric id |
| Bookmarks.ParseIntReads | apps/api/src/browser-bookmarks.ts:98 | an id is read as the integer that it begins with |
| Bookmarks.ImportManagedBrowserBookmarks | apps/api/src/browser-bookmarks.ts:202-236 | imported and skipped add up to the candidates and the skipped on input |
| Bookmarks.ImportsEachUnknownUrl | apps/api/src/browser-bookmarks.ts:202-236 | of the first 500 candidates the first with each unknown url is imported, under its title of at most 300 characters and dated now, and nothing else |
| Bookmarks.NewNodesAreFresh | apps/api/src/browser-bookmarks.ts:211-230 | new nodes have increasing ids above every earlier one, and no url is added twice |
| Bookmarks.ImportKeepsNodes | apps/api/src/browser-bookmarks.ts:106-129 | every existing node stays in its order and the new ones lie together |
| Bookmarks.ReimportAddsNothingIff | apps/api/src/browser-bookmarks.ts:202-236 | importing the same list again adds nothing if and only if the schema accepts each candidate with a new url, with its normalised title and under the next number |

## Left out

- Cryptography, base64 and JSON encoding of tokens: symbolic, so forgery and malformed encodings are not modelled.
- The order in which a sweep retries unsaved revocations: any order is allowed, which includes the source's.
- Timers, `close` of the revocation store and the user-schema check inside session verification.
- Writes of a crashed process that reach the database after its restart.
- File-system details (modes, real paths, symbolic links, leftover temporary files) and repository errors other than
  the refusals named; counters other than quota drops; the sequence number in a video's path; segment ids are numbered
  in the database's text order.
- RetriesConverge: assumes that the capture is active, that the batch id is used by one client, that there are at most
  nine snapshots, that each segment is within its quota, that the snapshots but the last are older than the technical
  segment, that each attempt's technical id is new, that the batch has not expired when an `initialize` runs to its end
  and that the batch's own segments are not evicted, because without these the source does not promise it.
- Failures of the file system or the database while the process lives, other than the refusals named, and the sweep of
  expired segments that `initialize` begins with.
- RewriteReadsBack: covers server names without dots, quotes, backslashes or closing brackets, values without line
  breaks, and env tables with word keys and values without quotes: the parser reads such names back unchanged and no
  others (`ServerNames.NameSurvivesIff`), and finds no other pairs in a table. The same holds for AppliedReadsBack.
- TomlPresence: names and values to be written have no line feeds, which would make lines of their own;
  `LostNames.BrokenNameLost` is such a name. The same holds for PresentAfterRewrite, SkillsAfterRewrite,
  TomlSkillsAfter and SealedIff, while `UnmanagedToml.RewriteAddsNothingIff` covers any sets.
- RewriteKeepsUnmanagedIff: neither line feeds nor a first header that is none, with which a rewrite adds lines
  instead (`UnmanagedToml.SealedIff`). The same holds for RunOfRewritesIff and SecondRewrite.
- The order of object members whose keys look like integers, which JavaScript moves to the front.
- The array format of MCP configs, whose disabled items follow another rule; opencode's skill permissions and qwen's
  allow-list, which lie under other top-level members (`JsonTools.SetElsewhere`); Claude's skill overrides.
- The sorting of the tool catalog by name, which changes the order of the written blocks only; backups and atomic
  writes.
- The status classifiers that feed the activity tracker: an observation is given.
- CompareAntisymmetric: `localeCompare` is a parameter that is assumed to be a total preorder; it only orders strings
  that are no versions.
- Floating-point rounding and the logarithm itself: scores are reals, and the logarithm is a parameter that is
  positive above 1. The tokenizer, query rewriting and suggestions are parameters or left out.
- SearchCsv: a file signature is assumed to identify content, which modification time and size only nearly do.
- CheckParents: problems are reported as a set; their order, and the message of the cycle, are not modelled. The same
  holds for CheckReferences.
- Style checks of vocabularies and prompts, and columns missing from a data file.
- ReferencesResolve: `casefold` is a parameter that is assumed to empty no string and to make no blank at an end appear
  or disappear (`StyleGraph.IdentityIsCasefold` is one such function).
- The display order of demo chunks and of forbidden modules.
- Bookmark ids above 2^53, where JavaScript numbers lose precision, and the parsing of an uploaded bookmark file.
- HTTP routes, schemas, audit records, provider clients and user interface: plumbing around these cores.
