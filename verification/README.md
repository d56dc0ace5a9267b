# Tesseract proxy: verified model

A Dafny model of the parts of the Tesseract order proxy whose correctness is hardest to see from the
code: the unified diff of the admin UI, the signed-bundle and binary updaters with their files, the
audit writer with its live tails, the outbound-rule generator, the route allowlist, the CSV export and
the client-serial allowlist. `dafny verify dfyconfig.toml` checks everything.

| module | models |
|---|---|
| `Lines`, `LineDiff`, `Hunks`, `HunkFormat`, `UnifiedDiff` | line split, longest-common-subsequence script, hunks as a patch, hunk text and its reader, the text builder |
| `Files` | files that change by atomic steps; write-and-rename and promote, shared by both updaters |
| `SemVer`, `Profile`, `PathTemplate`, `Router`, `BundleLoad` | versions, bundle rules, path templates and their regular expressions, route table and lookup, load gates |
| `BundleUpdater`, `BundleSafety`, `BundleRuns` | one poll and the rollback; what they do to the disk; whole runs |
| `BinaryUpdater` | signed binary install and swap back |
| `AuditWriter`, `AuditRuns` | ring, fan-out, range reading; whole runs of logs and subscribers |
| `EgressWakeup`, `Ruleset` | the wake-up protocol; resolving, rendering and reading the ruleset, the companion's copy |
| `Csv` | the CSV export and a reader by RFC 4180 |
| `SerialAllowlist` | classification interleaved with replacement of the two lists |
| `Options`, `Text`, `Sequences`, `Ordering` | shared notions |

## How the code is represented

- A method or class follows each imperative part of the source and is proved equal to a
  specification function or against a stated property; the lemmas are about those functions.
- Each character of a `string` stands for one byte of the Go program, except that the dash in the
  ruleset's title line stands for its three bytes.
- Library code is a parameter: signature check, YAML decoder, SHA-256 (`BundleLoad.World`), blank and
  host-name tests (`Profile.Library`), address notation, resolvers and address parser (`Ruleset.Notation`,
  `Resolver`, `Lookup`), JSON encoder (`AuditWriter.Writer.line`) and parser
  (`AuditWriter.RangeLines`), big-integer parser (`SerialAllowlist.Numerals`).
  `regexp.Compile` is the reader `PathTemplate.ReadExpression`, matching is `PathTemplate.Matches`.
- Failures of the environment are inputs: which write, rename, stat or cleanup fails
  (`Files.WriteFault`, `Files.PromoteFault`, `BundleUpdater.Faults`, `BinaryUpdater.SwapFault`), how an
  audit line's write ends (`AuditWriter.EncodeFault`), whether the rule application succeeds.
- `Files.Volume.trace` holds the disk after every atomic step, so a statement about all states of a
  trace covers a crash at any point. The configured paths and their suffixed siblings are distinct.
- Concurrent parts are state machines over their atomic steps (`EgressWakeup`, `SerialAllowlist`,
  `AuditRuns`). Polls of the bundle updater are taken one at a time: `Tick` releases its mutex between
  reading and writing its fields, so nothing is claimed for overlapping polls.
- Printed texts are judged by readers with words of their own: `HunkFormat.ReadHunks` and `UnifiedDiff.ReadDiff`,
  `PathTemplate.ReadExpression`, `Csv.ReadFile`, and `Ruleset.Lets`, which decides which packets a ruleset lets
  out and takes a text it does not recognise as letting out all.
- Assumptions stated as hypotheses where used: a collision-free hash that is never all zero, ETags
  that name one content, an honest server, strictly increasing record times, address texts that
  contain no separator and differ between the two notations, records encoded on one line each, file names
  without a line break, `blank("")`.

## Where the code and its comments differ

The model follows the code.

- A diff against an empty text prints start 1; GNU diff prints 0. `Hunks.EmptyOldSide` and
  `EmptyNewSide` show this is the only such case.
- `audit.go:172` says a zero `after` gives no backlog; it gives the whole ring, so none exactly when
  nothing has been logged yet (`AuditRuns.ZeroTimeGetsRing`).
- `updater.go:234-238` calls the promotion crash-safe. That holds for each file alone; for the pair,
  `BundleSafety.CrashWindow` gives exactly the crash points of a clean promotion after which a process can
  start, and `CrashAnywhere` the condition on the disk after any step of any poll with any failures.
- `updater.go:190-191` says the next reload heals a promotion whose second half failed. A fault-free poll
  leaves a matching pair exactly when it installs a bundle or there was a matching pair before
  (`BundleSafety.MatchingAfterCleanTick`). When the server goes back to the content the updater remembers,
  the poll succeeds by a short cut and the new bundle stays beside the old signature (`HalfPromoteStays`).
  When the next poll does install, the previous pair is the mixed one (`HealedRollbackIsMixed`).
- `binupd.go:89-90` says the current binary is left in place on failure. When the second rename of the
  promote fails it is under the previous path (`BinaryUpdater.FailedApplyLeavesCurrent`), and a
  rollback cannot repair that (`RollbackNeedsCurrent`).
- A failed `--rollback-bundle` can be finished by repeating it, however often, exactly when both previous
  files existed and the first rename is what failed (`BundleSafety.RollbackRepeatable`); after a failure of
  the second it is stuck with a mixed pair (`HalfRollbackIsStuck`).
- The companion promises the same ruleset as the proxy. With the same answers of the resolver, they agree, in
  producing nothing or in a byte-identical text, exactly when the companion produces nothing, or no enabled
  host is listed twice and each has an address that parses (`Ruleset.CompanionAgrees`). Both programs skip
  addresses that do not parse, but then only the proxy counts the host as unresolved (`UnparsedHostDiffers`).
- `Replace` in `mtls.go:123-124` is called atomic. Over any number of Replaces during a call, the call returns
  a role that some configuration it overlaps gives, exactly when no stretch of successive configurations
  promotes the serial (all list it, the first in its order list alone, the last in its admin list alone) or
  raises it (the first lists it nowhere, the last in both lists, none in its order list alone):
  `SerialAllowlist.AtomicUnlessPromotedOrRaised`. Across a promotion the call can be refused
  (`PromotionCanRefuse`), across a raise it can return the order role (`RaiseCanMislead`).
- `audit.go:152-155` promises a contiguous stream on reconnect. Record times are taken before the lock; the
  stream is contiguous exactly when, of the retained records, those after the last one seen are the ones with
  a later time (`AuditRuns.ReconnectExactly`).

## Model

| member | source | states |
|---|---|---|
| Lines.SplitKeepEOL | tools/admin-ui/diff.go:197-213 | the pieces join to the text, are non-empty, end at line breaks, and are the one split |
| Lines.SplitUnique | tools/admin-ui/diff.go:197-213 | a text has at most one split into lines that keep their breaks |
| LineDiff.LcsTable | tools/admin-ui/diff.go:215-232 | every table entry is the longest-common-subsequence length of two suffixes |
| LineDiff.LcsDiff | tools/admin-ui/diff.go:233-255 | the walk over the table emits the specified script |
| LineDiff.ScriptSpells | tools/admin-ui/diff.go:215-255 | kept and removed lines spell the old text, kept and added lines the new one |
| LineDiff.LcsIsUpperBound | tools/admin-ui/diff.go:222-232 | no common subsequence is longer than the table says, taking equal heads greedily |
| LineDiff.ScriptKeepsLongest | tools/admin-ui/diff.go:215-255 | the kept lines are a longest common subsequence |
| LineDiff.ScriptIsMinimal | tools/admin-ui/diff.go:215-255 | no script turning one text into the other has fewer removed and added lines |
| LineDiff.ScriptRemovesFirst | tools/admin-ui/diff.go:233-255 | in every stretch of changes the removed lines come before the added ones |
| Hunks.RunsSeparated | tools/admin-ui/diff.go:175-188 | the shown runs are non-empty, increasing and separated |
| Hunks.HunkMembership | tools/admin-ui/diff.go:154-188 | a position is in a hunk iff a change is within 3 operations of it; outside all lines are common |
| Hunks.HunksSeparated | tools/admin-ui/diff.go:175-188 | consecutive hunks leave a common line between them on both sides |
| Hunks.HunksPatch | tools/admin-ui/diff.go:146-190 | applying the hunks by their starts, lengths and bodies turns old into new |
| Hunks.FlipHunksOf | tools/admin-ui/diff.go:146-190 | the hunks of the inverse script are the hunks reversed |
| Hunks.HunksUnpatch | tools/admin-ui/diff.go:146-190 | applying them reversed turns new into old |
| Hunks.EmptyOldSide | tools/admin-ui/diff.go:257-283 | an old length is 0 iff the old text is empty, and the start is then 1 |
| Hunks.EmptyNewSide | tools/admin-ui/diff.go:257-283 | the same for the new side |
| HunkFormat.ReadHunksOfText | tools/admin-ui/diff.go:283-300 | a reader driven by the header counts recovers every printed hunk, unterminated lines included |
| HunkFormat.DiffHunksWellFormed | tools/admin-ui/diff.go:257-283 | every header counts its body |
| HunkFormat.DiffTextPatches | tools/admin-ui/diff.go:146-301 | the text read back patches old to new and new to old |
| HunkFormat.EmptyDiffIffEqual | tools/admin-ui/diff.go:146-190 | no hunk iff the texts are equal |
| UnifiedDiff.MarkShown | tools/admin-ui/diff.go:154-173 | the marking pass marks exactly the positions near a change |
| UnifiedDiff.WriteHunk | tools/admin-ui/diff.go:257-301 | one printed hunk with its starts, lengths and body is appended |
| UnifiedDiff.Unified | tools/admin-ui/diff.go:146-190 | the whole text: file header, then the printed hunks of the script |
| UnifiedDiff.UnifiedReadsBack | tools/admin-ui/diff.go:146-190 | the whole text read back gives the two names and exactly the hunks, which patch either text into the other |
| Text.DecimalIsOrdinary | tools/admin-ui/diff.go:283-300 | numbers are printed in ordinary digits without leading zeros |
| Files.Volume.WriteAtomic | tesseract-proxy/internal/bundleupd/updater.go:211-232 | the write as a sequence of atomic steps with cleanup after each failure |
| Files.Volume.Promote | tesseract-proxy/internal/bundleupd/updater.go:239-253 | the two renames as atomic steps |
| Files.WriteIsAtomic | tesseract-proxy/internal/bundleupd/updater.go:210-232 | at every instant the path holds its old content or all of the new; the new exactly on success |
| Files.FailedWriteCleansUp | tesseract-proxy/internal/bundleupd/updater.go:210-232 | a failing write whose cleanup works leaves no temporary file |
| Files.PromoteKeepsBoth | tesseract-proxy/internal/bundleupd/updater.go:234-253 | at every instant current is in place, or previous and staged are; nothing is lost |
| SemVer.ParseSemver | tesseract-proxy/internal/profile/load.go:190-205 | the three numbers, or failure, as specified |
| SemVer.SemverOfText | tesseract-proxy/internal/profile/load.go:190-205 | a printed version parses to its numbers, with or without "v" |
| SemVer.ComponentExact | tesseract-proxy/internal/profile/load.go:190-205 | a component is exactly digits up to the largest 64-bit integer, after a plus or none, or zeros after a minus |
| SemVer.SemverExact | tesseract-proxy/internal/profile/load.go:190-205 | a version is exactly three components between two dots, after a "v" or none |
| SemVer.CompareSemver | tesseract-proxy/internal/profile/load.go:170-188 | fails iff an operand does not parse; -1 iff the first number that differs is smaller on the left, 0 iff equal, else 1 |
| SemVer.CompareIsLexicographic | tesseract-proxy/internal/profile/load.go:166-188 | the comparison is negative iff the left one is smaller at the first number that differs |
| SemVer.CompareTotal | tesseract-proxy/internal/profile/load.go:166-188 | total, antisymmetric, 0 exactly on equal triples |
| SemVer.CompareTransitive | tesseract-proxy/internal/profile/load.go:166-188 | transitive |
| Profile.EndpointKeyInjective | tesseract-proxy/internal/profile/validate.go:74-78 | the duplicate key tells method and path apart |
| Profile.ValidateBroker | tesseract-proxy/internal/profile/validate.go:56-84 | accepts exactly brokers whose fields are valid and whose endpoints are pairwise different |
| Profile.Validate | tesseract-proxy/internal/profile/validate.go:18-52 | accepts exactly bundles whose fields and brokers are valid and whose ids are pairwise different |
| Profile.AcceptsSchema | tesseract-proxy-config/schemas/bundle.schema.json:9-62 | the proxy accepts exactly the brokers that meet the published schema and have a name, a literal host, template paths and no method and path twice |
| Profile.AcceptsBundle | tesseract-proxy/internal/profile/validate.go:18-52 | the proxy accepts exactly the bundles of schema version 1 with every header field, a parsing minimum version, and accepted brokers under distinct ids |
| Profile.EnabledHostsCount | tesseract-proxy/cmd/proxy/main.go:357-366 | every enabled broker lists its host once |
| Profile.EnabledHostsExact | tesseract-proxy/cmd/proxy/main.go:359-367 | a host is listed iff an enabled broker has it |
| PathTemplate.ValidatePath | tesseract-proxy/internal/profile/validate.go:139-167 | accepts exactly the templates |
| PathTemplate.TemplateGrammar | tesseract-proxy/internal/profile/validate.go:132-167 | a template starts with "/" and is spelled by the bytes and the placeholders of the written rule |
| PathTemplate.ScannersAgree | tesseract-proxy/internal/profile/router.go:104-124 | what the validator accepts the compiler cuts in the same places, without error |
| PathTemplate.ExpressionReadsBack | tesseract-proxy/internal/profile/router.go:104-124 | the emitted expression text reads back as exactly its token list |
| PathTemplate.CompilePathTemplate | tesseract-proxy/internal/profile/router.go:104-124 | the loop emits and compiles the tokens of the template, or fails on an unclosed placeholder |
| PathTemplate.MatchesMeaning | tesseract-proxy/internal/profile/router.go:49-52 | an anchored match holds iff the path falls, part by part, into what each literal and placeholder may stand for |
| PathTemplate.TemplateMeaning | tesseract-proxy/internal/profile/router.go:49-124 | a template accepts a path iff the path falls, piece by piece, into its own bytes and non-empty parts without "/" for its placeholders |
| Text.SplitOnExact | tesseract-proxy/internal/profile/router.go:49-52 | the segments of a path are what lies between its slashes: joined they give it back, none holds a slash |
| PathTemplate.MatchesSegmentwise | tesseract-proxy/internal/profile/router.go:49-52 | a template accepts a path iff they have equally many segments and each matches its own |
| PathTemplate.SlashCountsAgree | tesseract-proxy/internal/profile/router.go:49-52 | a matching path has as many slashes as the template |
| Router.BuildRouter | tesseract-proxy/internal/profile/router.go:73-97 | the table as specified, or failure iff some endpoint does not compile |
| Router.ValidBuilds | tesseract-proxy/internal/profile/router.go:99-103 | a validated bundle always builds |
| Router.ByBrokerHolds | tesseract-proxy/internal/profile/router.go:73-97 | with distinct ids the table holds every broker under its id and nothing else |
| Router.Lookup | tesseract-proxy/internal/profile/router.go:53-71 | the search loop answers as specified |
| Router.LookupIsFirstMatch | tesseract-proxy/internal/profile/router.go:49-71 | after validation the answer is the first allowing endpoint of the one enabled broker with the id, or nothing |
| BundleLoad.EnforceVersionGates | tesseract-proxy/internal/profile/load.go:143-164 | passes iff the binary is new enough and the version is strictly greater |
| BundleLoad.LoadAndVerify | tesseract-proxy/internal/profile/load.go:50-87 | loads as specified |
| BundleLoad.LoadsExactly | tesseract-proxy/internal/profile/load.go:44-87 | a pair loads iff signed, decodable, valid and past both gates |
| BundleLoad.BinaryGateMeaning | tesseract-proxy/internal/profile/load.go:143-155 | the binary gate on the three numbers: equal or greater at the first that differs; none for "" and "dev" |
| BundleLoad.BinaryGateMonotone | tesseract-proxy/internal/profile/load.go:143-188 | a newer binary passes whatever an older one passes |
| BundleLoad.BootAcceptsMore | tesseract-proxy/cmd/proxy/main.go:141-150 | the load at start, with no previous version, accepts what any later load accepts |
| BundleUpdater.Updater.Tick | tesseract-proxy/internal/bundleupd/updater.go:131-208 | one poll: disk after every step, memory and result, for every failure |
| BundleUpdater.Boot | tesseract-proxy/cmd/proxy/main.go:141-197 | starts iff the current pair loads; then holds its router, its enabled hosts, and no memory of a poll |
| BundleRuns.BootIsLive | tesseract-proxy/cmd/proxy/main.go:141-150 | a started process has published the table of the bundle under current |
| BundleUpdater.RollbackBundle | tesseract-proxy/cmd/proxy/main.go:369-384 | the two renames of the rollback as atomic steps |
| BundleSafety.StageBothOnlyStages | tesseract-proxy/internal/bundleupd/updater.go:157-166 | staging never touches current or previous files; on success both staged files hold the fetched bytes |
| BundleSafety.PromotesKeepAllFour | tesseract-proxy/internal/bundleupd/updater.go:186-195 | after every step of the two promotes all four contents exist under current, previous or staged |
| BundleSafety.TickKeepsOldPair | tesseract-proxy/internal/bundleupd/updater.go:131-208 | at every instant of any poll the active pair still exists under current or previous |
| BundleSafety.FailedTickForgets | tesseract-proxy/internal/bundleupd/updater.go:173-195 | a failed poll changes neither router nor memories nor hosts |
| BundleSafety.RejectedIsDiscarded | tesseract-proxy/internal/bundleupd/updater.go:175-184 | a rejected bundle leaves no staged file when the cleanup works |
| BundleSafety.HalfStagedIsDiscarded | tesseract-proxy/internal/bundleupd/updater.go:157-166 | when only the second staged write fails the first is taken back |
| BundleSafety.CleanTickInstalls | tesseract-proxy/internal/bundleupd/updater.go:157-207 | a fault-free poll of an acceptable unseen bundle installs and publishes it from any disk |
| BundleSafety.FailureHeals | tesseract-proxy/internal/bundleupd/updater.go:189-195 | after any failing poll, a fault-free poll that fetches an acceptable unseen bundle leaves its matching pair and router |
| BundleSafety.MatchingAfterCleanTick | tesseract-proxy/internal/bundleupd/updater.go:131-208 | a fault-free poll leaves a pair whose signature is the bundle's iff it installs or there was one before |
| BundleSafety.HalfPromoteStays | tesseract-proxy/internal/bundleupd/updater.go:189-195 | a half-failed promotion is not healed by a poll that short-cuts: the new bundle stays beside the old signature or none |
| BundleSafety.RollbackRestores | tesseract-proxy/cmd/proxy/main.go:369-384 | a rollback after a fault-free install restores the earlier pair |
| BundleSafety.InstallLeaves | tesseract-proxy/internal/bundleupd/updater.go:239-253 | from any disk, a fault-free install leaves under previous, of each document, what was current or else what was previous |
| BundleSafety.RollbackAfterInstall | tesseract-proxy/cmd/proxy/main.go:369-384 | the rollback after it succeeds iff both were there, and leaves a matching pair iff there was no earlier bundle or the earlier signature signs it |
| BundleSafety.HealedRollbackIsMixed | tesseract-proxy/internal/bundleupd/updater.go:189-195 | after a healed half-promotion a rollback brings back the half-promoted bundle with the older signature |
| BundleSafety.HalfRollbackIsStuck | tesseract-proxy/cmd/proxy/main.go:369-384 | a rollback failing at its second rename leaves a mixed pair that no repetition repairs |
| BundleSafety.RollbackRepeatable | tesseract-proxy/cmd/proxy/main.go:369-384 | a failed rollback can be finished by repeating it, once or any number of times, iff both previous files existed and the first rename failed |
| BundleSafety.CrashWindow | tesseract-proxy/internal/bundleupd/updater.go:234-253 | a process can start iff the crash came before the first or after the last rename |
| BundleSafety.CrashAnywhere | tesseract-proxy/internal/bundleupd/updater.go:131-253 | after any step of any poll with any failures, a process can start iff both current files are present and the signature is the bundle's, which means from one pair unless the old signature signs the new bundle |
| BundleRuns.TickIsUpToDate | tesseract-proxy/internal/bundleupd/updater.go:131-154 | every successful poll, short cuts included, leaves the router built from what the server served |
| BundleRuns.RunsStayUpToDate | tesseract-proxy/internal/bundleupd/updater.go:131-208 | the same at every successful poll of every run |
| BundleRuns.BootRemembersNothing | tesseract-proxy/internal/bundleupd/updater.go:82-99 | a new updater satisfies the invariant of the run theorems |
| BundleRuns.BootedBundleIsRefused | tesseract-proxy/internal/profile/load.go:156-162 | fetching the booted bundle again is refused, not skipped |
| BundleRuns.InstalledIsSeen | tesseract-proxy/internal/bundleupd/updater.go:143-151 | an installed bundle fetched again, with any signature, tag and faults, is skipped: no file and nothing but the tag changes |
| BundleRuns.AcceptableIsUnseen | tesseract-proxy/internal/bundleupd/updater.go:143-151 | while the memories are truthful, no bundle that passes every gate is skipped as already seen |
| BundleRuns.TickPublishesGreater | tesseract-proxy/internal/bundleupd/updater.go:168-202 | a poll keeps the router or publishes a gated one of a strictly greater version |
| BundleRuns.VersionsIncrease | tesseract-proxy/internal/bundleupd/updater.go:168-202 | the published versions of a run strictly increase in byte order |
| BundleRuns.TickKeepsHosts | tesseract-proxy/cmd/proxy/main.go:219-225 | after a poll the generator's hosts are the sorted, duplicate-free enabled hosts of the live router |
| BundleRuns.RunsKeepHosts | tesseract-proxy/cmd/proxy/main.go:197-225 | and so after every run that starts in such a state |
| BundleRuns.HostsAlwaysFollow | tesseract-proxy/cmd/proxy/main.go:141-225 | after a start and any run of polls a table is live and the hosts are its enabled hosts, sorted and without duplicates |
| BinaryUpdater.Receiver.Apply | tesseract-proxy/internal/binupd/binupd.go:91-107 | the install as atomic steps for every failure |
| BinaryUpdater.Receiver.Rollback | tesseract-proxy/internal/binupd/binupd.go:112-130 | the swap as atomic steps for every failure |
| BinaryUpdater.RejectedChangesNothing | tesseract-proxy/internal/binupd/binupd.go:91-98 | no file changes iff the signature is rejected or not even a temporary file can be created |
| BinaryUpdater.ApplyKeepsCurrent | tesseract-proxy/internal/binupd/binupd.go:91-107 | at every instant the old current binary is under current or previous |
| BinaryUpdater.FailedApplyLeavesCurrent | tesseract-proxy/internal/binupd/binupd.go:161-173 | a failing install leaves it in place unless the second rename failed; then it is under previous |
| BinaryUpdater.FailedPromoteIsDiscarded | tesseract-proxy/internal/binupd/binupd.go:99-106 | a failing promote leaves no staged binary when the cleanup works |
| BinaryUpdater.RollbackNeedsCurrent | tesseract-proxy/internal/binupd/binupd.go:112-120 | a rollback succeeds iff both binaries exist and nothing fails; otherwise a missing one changes nothing |
| BinaryUpdater.RollbackTwice | tesseract-proxy/internal/binupd/binupd.go:109-130 | two rollbacks are the identity |
| BinaryUpdater.ApplyThenRollback | tesseract-proxy/internal/binupd/binupd.go:91-130 | a rollback after an install restores the old binary and keeps the new one |
| BinaryUpdater.RollbackKeepsBoth | tesseract-proxy/internal/binupd/binupd.go:112-130 | at every instant both binaries exist under current, previous or the stash |
| BinaryUpdater.FailedRollbackLeavesCurrent | tesseract-proxy/internal/binupd/binupd.go:121-125 | a current binary remains unless the swap-in and its undo both fail |
| AuditWriter.Writer.Log | tesseract-proxy/internal/audit/audit.go:117-147 | a successful log extends history, file and ring and offers the record to every subscriber; a failing one leaves at most a part of its line in the file and changes nothing else |
| AuditWriter.StampFillsTime | tesseract-proxy/internal/audit/audit.go:118-120 | only a missing time is filled in; nothing else of the record changes |
| AuditWriter.LandedIsPrefix | tesseract-proxy/internal/audit/audit.go:126-128 | what reaches the file is the whole line, or as many of its first bytes as a failing write wrote |
| AuditWriter.Writer.Recent | tesseract-proxy/internal/audit/audit.go:231-251 | the last min(n, ring size, logged) records in order, for every ring size |
| AuditWriter.Writer.Subscribe | tesseract-proxy/internal/audit/audit.go:172-202 | registers an empty channel; the backlog is the ring filtered by time |
| AuditWriter.Writer.Unsubscribe | tesseract-proxy/internal/audit/audit.go:209-222 | removes exactly that subscription |
| AuditWriter.Subscription.Offer | tesseract-proxy/internal/audit/audit.go:139-145 | buffers if there is room, else counts a drop |
| AuditWriter.Subscription.DroppedAndReset | tesseract-proxy/internal/audit/audit.go:202-208 | returns the count and resets it |
| AuditWriter.TailLines | tesseract-proxy/internal/admin/admin.go:277-296 | the second ring emits the last n lines of any file |
| AuditWriter.RangeLines | tesseract-proxy/internal/admin/admin.go:299-318 | the first matching lines up to the cap |
| AuditWriter.MatchingExact | tesseract-proxy/internal/admin/admin.go:305-314 | the filter keeps exactly the lines that parse with a time after since and not after until, zero being no bound, in file order |
| AuditWriter.RingsAgree | tesseract-proxy/internal/admin/admin.go:225-296 | on an unrotated log begun empty, the tail read from the writer's file is the encoding of Recent(n) iff both caps cut the history alike, so for every n within both |
| AuditWriter.TailTurn | tesseract-proxy/internal/admin/admin.go:420-433 | a turn of the tail loop announces the pending drops, then sends the next record, and accounts for every record that leaves channel or counter |
| AuditRuns.OfferAccounts | tesseract-proxy/internal/audit/audit.go:139-145 | a drop happens iff the channel is full, and the accounting goes on |
| AuditRuns.ReachableAccounted | tesseract-proxy/internal/audit/audit.go:117-223 | in every run, per open subscription: deliveries are a subsequence of the history since Subscribe, and deliveries plus drops make up its length |
| AuditRuns.UndroppedIsComplete | tesseract-proxy/internal/audit/audit.go:149-165 | without drops the stream is the history since Subscribe |
| AuditRuns.TailTellsAll | tesseract-proxy/internal/admin/admin.go:403-440 | in every run, a tail's data frames and then its channel are the history since Subscribe in order, and frames, channel and counter count every record exactly once |
| AuditRuns.GapsAnnouncedInTime | tesseract-proxy/internal/admin/admin.go:419-433 | a client that polls the drop counter before each receive has been told of every record logged before the one it is about to receive |
| AuditRuns.NewerThanExact | tesseract-proxy/internal/audit/audit.go:188-194 | the backlog filter keeps exactly the newer records, in order |
| AuditRuns.ReconnectExactly | tesseract-proxy/internal/audit/audit.go:149-202 | backlog and stream after a reconnect are the history after the last record seen, minus exactly the oldest excess over the ring size, iff the retained records are timed around that record |
| AuditRuns.ReconnectIsContiguous | tesseract-proxy/internal/admin/admin.go:360-415 | so they are whenever times strictly increase |
| AuditRuns.ZeroTimeGetsRing | tesseract-proxy/internal/audit/audit.go:185-195 | a zero time yields the whole ring; nothing iff nothing was logged |
| AuditRuns.Perform | tesseract-proxy/internal/audit/audit.go:117-251 | every operation of the writer object and its subscription objects is the state machine's step and returns what the step says |
| AuditRuns.PerformAll | tesseract-proxy/internal/audit/audit.go:80-251 | a writer opened and used in any way is in the state the run of the same events reaches |
| EgressWakeup.RunKeeps | tesseract-proxy/internal/egress/egress.go:89-122 | in every interleaving an unread host list has a poke, a sender or a woken worker on its way |
| EgressWakeup.ReachableIsCurrent | tesseract-proxy/internal/egress/egress.go:89-122 | in every quiescent state the last refresh used the current hosts: there was none, or one did not resolve, or the last rules handed on are for them; never more than one poke is queued |
| EgressWakeup.SettlesOnCurrent | tesseract-proxy/internal/egress/egress.go:101-116 | with no caller active the worker reaches that state in at most five steps, with the rules for the current hosts; an empty list leaves the older rules |
| EgressWakeup.Perform | tesseract-proxy/internal/egress/egress.go:89-140 | every locked or channel operation of the generator object is one step of the machine |
| EgressWakeup.PerformAll | tesseract-proxy/internal/egress/egress.go:60-140 | a generator used in any interleaving of those operations is in the state the run of the same steps reaches |
| EgressWakeup.RestingText | tesseract-proxy/internal/egress/egress.go:89-140 | at rest, a text handed on by the last refresh names exactly the current hosts and lets out only new connections to port 443 of their addresses, established ones and loopback |
| Ordering.DedupSorted | tesseract-proxy/internal/egress/egress.go:214-226 | the sorted, duplicate-free listing of the input's set |
| Ordering.StrictlySortedUnique | tesseract-proxy/internal/egress/egress.go:214-226 | a set has one strictly sorted listing |
| Ordering.LessIsByteOrder | tesseract-proxy/internal/profile/load.go:156-162 | a proper prefix is less, else the first differing byte decides |
| Ruleset.ResolveAll | tesseract-proxy/internal/egress/egress.go:145-169 | all hosts or nothing; the addresses are exactly those of the hosts, sorted, one per printed form |
| Ruleset.SplitFamilies | tesseract-proxy/internal/egress/egress.go:203-212 | the two family lists |
| Ruleset.FamiliesCover | tesseract-proxy/internal/egress/egress.go:203-212 | together they are all addresses, each in its own notation |
| Ruleset.Render | tesseract-proxy/internal/egress/egress.go:174-201 | the text as specified |
| Ruleset.RulesetReadsBack | tesseract-proxy/internal/egress/egress.go:174-201 | read back, a text accepts exactly the listed addresses and names exactly the listed hosts |
| Ruleset.RulesetLets | tesseract-proxy/internal/egress/egress.go:174-201 | the printed chain drops every packet but established connections, the loopback device, and new connections to port 443 of the addresses listed for their family |
| Ruleset.RulesetAccepts | tesseract-proxy/internal/egress/egress.go:119-201 | the accept set is the union of all resolved addresses |
| Ruleset.DisplayedLets | tesseract-proxy/internal/egress/egress.go:119-201 | so with all resolved addresses, whichever family |
| Ruleset.AllTextsExactly | tesseract-proxy/internal/egress/egress.go:145-169 | an address is accepted iff some host resolves to one printed like it |
| Ruleset.ParsedExactly | tesseract-proxy/cmd/proxy/main.go:418-433 | an address is kept iff some entry parses to it |
| Ruleset.RulesetCanonical | tesseract-proxy/internal/egress/egress.go:171-226 | two texts are equal iff the host sets and the address sets are |
| Ruleset.Generator.UpdateHosts | tesseract-proxy/internal/egress/egress.go:89-98 | stores the canonical list and leaves exactly one poke queued |
| Ruleset.Generator.Tick | tesseract-proxy/internal/egress/egress.go:119-140 | hands on one ruleset, or nothing if there is no host or one does not resolve |
| Ruleset.NetLookupHost | tesseract-proxy/cmd/proxy/main.go:418-433 | the proxy's resolver is the system's answers with what does not parse left out |
| Ruleset.CompanionResolveAll | tesseract-proxy-egress/main.go:102-133 | all hosts or nothing; the addresses are exactly those that parse, sorted, one per printed form |
| Ruleset.CompanionRuleset | tesseract-proxy-egress/main.go:38-167 | the companion's text, produced iff a host is enabled and each has an answer |
| Ruleset.TextsAgree | tesseract-proxy-egress/main.go:76-167 | a companion's and a proxy's text accept the same iff their resolvers gave the same addresses; are equal iff moreover no enabled host is listed twice |
| Ruleset.ProxyRendersIff | tesseract-proxy-egress/main.go:102-125 | on the same answers the proxy produces a text iff the companion does and every enabled host has an address that parses |
| Ruleset.CompanionAgrees | tesseract-proxy-egress/main.go:38-167 | on the same answers the two agree iff the companion produces nothing, or no enabled host is listed twice and each has an address that parses |
| Ruleset.UnparsedHostDiffers | tesseract-proxy-egress/main.go:113-119 | a host with no address that parses makes them differ |
| Csv.CsvRoundTrip | tools/admin-ui/web/src/audit.jsx:330-345 | reading the export returns the header and every row's values, null as empty |
| Csv.CellsUnderHeader | tools/admin-ui/web/src/audit.jsx:328-339 | in the file as read, the header is the eight names and every cell is the record's field of the name above it, the last the whole record |
| Csv.ReadPrintedField | tools/admin-ui/web/src/audit.jsx:340-345 | a printed field reads back as its content |
| Csv.ExportDeterminesValues | tools/admin-ui/web/src/audit.jsx:331-339 | equal exports have equal values in every column |
| SerialAllowlist.ParseSerials | tesseract-proxy/internal/mtls/mtls.go:139-152 | the decimal forms of all serials, or failure iff one is malformed or not positive |
| SerialAllowlist.SerialsExactly | tesseract-proxy/internal/mtls/mtls.go:139-152 | a decimal serial is in the set iff some input parses to a positive number of that form |
| SerialAllowlist.AllowsExactly | tesseract-proxy/internal/mtls/mtls.go:53-57 | an administrator passes every demand, the order role all but the administrator's, no role none |
| SerialAllowlist.ClassifiedExactly | tesseract-proxy/internal/mtls/mtls.go:105-121 | administrator iff in that list, order iff only in the other, none iff in neither |
| SerialAllowlist.NewAllowlist | tesseract-proxy/internal/mtls/mtls.go:85-101 | refuses malformed and empty configurations, else installs both lists |
| SerialAllowlist.Allowlist.Classify | tesseract-proxy/internal/mtls/mtls.go:105-121 | exactly the configured role |
| SerialAllowlist.Allowlist.Replace | tesseract-proxy/internal/mtls/mtls.go:125-137 | installs both lists or changes nothing |
| SerialAllowlist.Perform | tesseract-proxy/internal/mtls/mtls.go:105-137 | every load and store of the allowlist object is one step of the machine, and a finished call returns what it says |
| SerialAllowlist.PerformAll | tesseract-proxy/internal/mtls/mtls.go:105-137 | an allowlist whose loads and stores interleave in any way is in the state the run reaches |
| SerialAllowlist.RoleNeverAbove | tesseract-proxy/internal/mtls/mtls.go:105-137 | in every interleaving the role is at most, and opens no more than, that of some configuration in force or being installed during the call |
| SerialAllowlist.RoleExactAlone | tesseract-proxy/internal/mtls/mtls.go:105-121 | with no overlapping Replace it is exactly the configured role |
| SerialAllowlist.PromotionCanRefuse | tesseract-proxy/internal/mtls/mtls.go:123-137 | an interleaving refuses a serial that every configuration overlapping the call lists |
| SerialAllowlist.RaiseCanMislead | tesseract-proxy/internal/mtls/mtls.go:123-137 | an interleaving returns the order role though no configuration overlapping the call gives it |
| SerialAllowlist.AtomicUnlessPromotedOrRaised | tesseract-proxy/internal/mtls/mtls.go:105-137 | over any number of Replaces, every call returns a role some overlapping configuration gives iff no stretch of them promotes or raises the serial |
| SerialAllowlist.NeverBelowUnlessPromoted | tesseract-proxy/internal/mtls/mtls.go:105-137 | over any number of Replaces, no call returns less than every configuration it overlaps iff no stretch of them that lists the serial throughout moves it from order-only to admin-only |

## Left out

- The code of ECDSA, X.509, PEM, SHA-256, YAML, JSON, DNS and TLS: libraries, kept as parameters.
- HTTP and SSE plumbing, handlers, publish and deploy scripts, the `nft` process, signals, flags, logging: input and output.
- `http_fetcher.go`: only its contract for 304 answers is modelled, as `BundleRuns.Honest`.
- `Poke` and `Run` of the bundle updater: the same one-slot channel as in `EgressWakeup`, and polls are serial anyway.
- Overlapping polls of the bundle updater: `Tick` does not hold its mutex across a poll, so the run theorems assume serial polls.
- Rotation of the audit file: names have one-second resolution, so loss-freedom would need an extra assumption.
- Lines over 1 MiB in the audit file, where the scanner stops: lines are taken to fit.
- Texts of error values: an operation reports success or failure.
- `validateHost`, header stripping, handshake classification, configuration checks, metrics text: one-branch facts.
- The Preact components and the broker editor: user interface.
- Real time and tickers: a tick is a step that may happen at any moment, times are integers.
- `Brokers` of the router: it iterates a map, so its order is unspecified despite its comment.
- PathTemplate.CompilePathTemplate: speaks of templates in ASCII, as validation admits; for a byte of 0x80 or more the source would emit a two-byte rune.
