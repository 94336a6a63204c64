# Verified models of the librarian and the node tools

A Dafny model of the two halves of this repository: the Python librarian, which writes a graph store
(collection, ingest, enrichment, feed cache, write journal and replay), and the Rust node tools, which
compute on a host (glob matching, include scanning, calendar arithmetic, masking, bounded walks, output
shrinking, base64). Loops and objects that change state are methods and classes, each proved against a
function of its inputs or of its old state; what the source promises is then proved about that function,
for every input, every run or every reachable state.

`dafny verify dfyconfig.toml` checks the whole project.

| file | models |
|---|---|
| `Glob.dfy` | the backtracking `*`/`?` matcher copied into six node tools |
| `SplitArgs.dfy`, `ConfigScan.dfy`, `Directives.dfy` | the quoted-argument splitter, the effective value of a directive through nested, possibly cyclic includes, and what that means for the text of a file |
| `CivilDate.dfy` | both days-from-civil forms and the order of log timestamps |
| `Masking.dfy`, `ByteOffsets.dfy` | merging secret spans, masked excerpts by byte offsets and their window, entropy tokens |
| `Triage.dfy`, `LogRun.dfy` | the log-triage accumulator (capped buckets, counters, address table, time window) and a whole run: the bounded walk and the report |
| `FindWalk.dfy` | directory trees and the capped depth-first file search |
| `OutputBudget.dfy` | shrinking the socket inventory until it fits |
| `Sockets.dfy`, `Services.dfy` | grouping listening sockets into services and recording them as nodes |
| `DomainIndex.dfy` | the indexed indicator lookup against the linear suffix test |
| `Base64.dfy` | base64 encoding against the decoder of section 4 of RFC 4648 |
| `GraphBatch.dfy` | chunked writes of many rows |
| `Inventory.dfy` | paging a host's package list by prefix and reconciling the graph with it |
| `GraphStore.dfy` | node and edge commissions as MERGE followed by SET on a graph value |
| `WriteJournal.dfy`, `Replay.dfy`, `Endpoints.dfy` | the journal of failed commissions, their replay, and when a node write takes the endpoints of an edge away |
| `Enrichment.dfy` | vulnerability enrichment: partition, query grouping, paging, writes, stale edges |
| `FeedCache.dfy` | the two-level TTL cache in front of the feeds |
| `Text.dfy`, `Collections.dfy`, `Wrappers.dfy` | the library string operations the tools rely on, lists against sets and maps, the optional value and the width of wasm32 |

Where a function that a method is proved against would make proofs unfold whole parsers, the walk takes a
function value instead: `ConfigScan.Sources` is what a walk sees of a host (the parsed lines of a file, the
files an include names), and `FindWalk.Walk` takes the filter as a test of entries.

## What the proofs found

Properties the code meets only under a condition. Each has a counterexample and the exact condition.

- **Globs.** The literal test comes before the `*` test (tools/fs-find/src/main.rs:35-38), so a `*` in a
  *name* can use up the pattern's `*`: pattern `*` rejects the name `*abc` (`Glob.StarRejectsStarText`). A
  name is matched as the notation says by every pattern exactly when it has no `*` (`Glob.SafeNames`), a
  pattern works on every name exactly when it has no `*` (`Glob.SafePatterns`), and whatever the code
  accepts does match.
- **Arguments of fs-find.** The tool is built for wasm32, where `as usize` keeps 32 bits of `max_results` and
  `max_depth` and the walk's cap `max_results + 1` wraps. The first `max_results` entries down to `max_depth`
  come back, correctly flagged, on every tree and for every filter exactly when `max_results` is below
  2^32 - 1 and `max_depth` below 2^32 (`FindWalk.PromiseKeptBelowUsizeMax`); trees that show each failure
  are built by `FindWalk.ManyFilesBreakIt` and `FindWalk.DeepFileBreaksIt`.
- **Truncated log runs.** A log-triage run that stops at `max_files` is flagged. It is flagged although no
  readable file is left out exactly when the last matching file is unreadable and `max_files` readable ones
  come before it (`LogRun.FlaggedWithoutLoss`); a run that leaves a readable file out is always flagged.
- **Stale package edges.** They are told apart by name and version joined with a NUL. The edges become
  exactly the listed packages if and only if no old edge joins to the same text as a different listed
  package (`Inventory.ReconcilingIsExact`); names without NUL rule that out, a pair of names with NUL does
  not (`Inventory.NulNamesCanBeMistaken`).
- **Services dropped from a report.** A socket report that is too large drops services and says so
  (tools/socket-inventory/src/main.rs:251-268), but recording it removes every service it does not list
  (tools/librarian/ingest_inventory.py:366-371), flagged or not. A live service keeps its node exactly when
  some rung of the ladder of ever smaller reports names its key and fits (`Services.ShrinkAndIngest`,
  `Services.KeyIsListedIff`); all services stay listed exactly when there are none or a rung with all of them
  fits (`OutputBudget.AllAreListedIff`). A host whose service rows alone exceed the budget, each
  recorded under its own key, loses one for every way of printing that prints the rows
  (`Services.LiveServiceIsRemoved`); 600 services of a hundred characters are such a host
  (`Services.BusyHostLosesAService`). Only the package path has a guard against truncated lists.
- **Replay.** A pass replays edges before nodes, so a node write may take away the endpoints of an edge that
  was just written: of the pending commissions, what is left after two passes is then not exactly the edges
  whose endpoints no node matches. It is exactly when the pending node commissions, written in file order on
  the graph before, take no edge's endpoints away (`Replay.TwoPassesExactly`). For one edge and one node
  commission it is so on every graph and at every time exactly when the node write can never lose the edge
  (`Replay.PairIsExactIff`), which is decided by the two inputs: the write agrees with an endpoint on the merge
  keys they share, sets one of its merge keys to another value, and the other endpoint cannot stand in
  (`Endpoints.Loses`, `Endpoints.EndpointsSurviveIff`). A host that changed its address loses an edge that goes
  by the old one (`Replay.MovedHostLosesItsEdge`); commissions that merge on every key an endpoint goes by
  never move it (`Endpoints.SharedKeysNeverMove`).
- **Replay with a limit.** Each pass tries the first `limit` entries in file order. It changes something exactly
  when one of them is not stuck, and once it does not, no later pass with this limit does
  (`Replay.BlockedForGood`): an edge in front can wait for good for a host that is itself pending behind it
  (`Replay.StarvedHost`).
- **Indicator lookup.** An indicator domain without a dot is never a candidate, while the linear test hits
  it. Both ways agree on every observed domain exactly when every indicator domain has a dot; for one without,
  the domain itself tells them apart (`DomainIndex.IndexAgreesIffDotted`).
- **Timestamps.** Days 1 to 31 are accepted in every month, so 30 February is the day it rolls over to, in
  March (`CivilDate.RolledIsTheSameDay`). After rolling over, `:60` of one minute and `:00` of the next get the
  same number; no other two accepted stamps do (`CivilDate.SecondsOrderStamps`).
- **Enrichment.** What is kept is all that the feed returned exactly when `max_vulnerabilities` covers it and
  every record answers (`Enrichment.KeptIsAllIff`). An edge is written only to an advisory that has a node; the
  edges are exactly the kept advisories if and only if each of those had a node or is what some kept record
  calls itself (`Enrichment.EdgesAreKeptIff`), and a record that goes by another id leaves its package without
  the edge (`Enrichment.RenamedRecordLosesItsEdge`). Properties are overlaid: an edge tells the urgency of its
  record exactly when the record has one or the edge had none (`Enrichment.UrgencyIsToldIff`), and a package
  that becomes unsupported keeps its old counts (`Enrichment.UnsupportedTellsExactly`).
- **Severity of shared ids.** Severities are merged per id the feed named and written per id the record calls
  itself by, so of several records with one own id the last decides. A node carries the severest rank of all
  the findings that go by its id exactly when the last advisory the run meets that goes by it is as severe as
  the others (`Enrichment.NodeIsSeverestIff`), and whatever the order exactly when all of them are equally
  severe (`Enrichment.AnyOrderIff`), as they are when records go by the ids they were asked for by. A critical
  and a low record that both call themselves DSA-1 leave it low (`Enrichment.SharedIdHidesSeverity`).
- **Stale feed copies.** A body that could not be stored on disk loses to the older file as soon as both
  are stale, even while memory still holds it (`FeedCache.FallbackCanBeOlder`); which copy a failed fetch
  falls back to is stated for every run, with a state directory set or not (`FeedCache.FallbackIsKnown`,
  `FeedCache.NeverFetchedRaises`).

## Model

| member | source | states |
|---|---|---|
| Glob.GlobMatch | tools/fs-find/src/main.rs:30-54 | the two-pointer loop ends and returns the verdict of its abstract run; a name it accepts matches declaratively, and without `*` in name or pattern the two agree |
| Glob.CodeMeetsMeaning | tools/compliance-scan/src/main.rs:199-210 | the code accepts only real matches, and all of them unless both pattern and name contain `*` |
| Glob.RunSound | tools/fs-find/src/main.rs:34-53 | from every pointer state, acceptance means the rest matches here or at a later retry of the last star |
| Glob.RunComplete | tools/fs-find/src/main.rs:42-45 | backtracking only to the last star loses no match |
| Glob.SafeNames | tools/fs-find/src/main.rs:28-54 | a name is judged as the notation says by every pattern if and only if it contains no `*` |
| Glob.SafePatterns | tools/fs-find/src/main.rs:28-54 | a pattern works as the notation says on every name if and only if it contains no `*` |
| Glob.StarRejectsStarText | tools/fs-find/src/main.rs:35-38 | pattern `*` rejects the name `*abc`, which it matches by the notation |
| SplitArgs.Split | tools/compliance-scan/src/main.rs:180-196 | the character loop with its buffer and two flags computes the recursive splitting |
| SplitArgs.SplitUndoesQuoting | tools/compliance-scan/src/main.rs:179-196 | quoting every argument and joining with spaces is undone by splitting, for all lists of quote-free arguments, empty ones and ones with blanks included |
| SplitArgs.SplitIsStable | tools/compliance-scan/src/main.rs:179-196 | splitting any line, balanced or not, re-quoting and splitting again gives the same list |
| SplitArgs.BlankSeparatesWords | tools/compliance-scan/src/main.rs:188-190 | without quotes, a blank ends the word before it, and empty words vanish |
| SplitArgs.WordThenBlanks | tools/compliance-scan/src/main.rs:185-193 | a word of plain and quoted pieces with nothing between them is one argument, the pieces joined without their quotes; blanks end it, however many, and blanks in front do not matter |
| SplitArgs.OpenQuoteClosesAtEnd | tools/compliance-scan/src/main.rs:187-194 | closing an unbalanced quote at the end of a line changes nothing |
| SplitArgs.TokensAreQuoteFree | tools/compliance-scan/src/main.rs:187 | no argument ever contains a quote |
| Text.SortSorts | tools/compliance-scan/src/main.rs:245 | sorting gives the same strings, each as often, in ascending order |
| Text.TrimsTo | tools/compliance-scan/src/main.rs:252 | blanks around a line that neither begins nor ends with one are trimmed, and nothing else |
| Text.LowerMeets | tools/compliance-scan/src/main.rs:255 | lower-casing makes exactly those words alike that agree letter by letter in either case |
| Text.LinesUndoUnlines | tools/compliance-scan/src/main.rs:251 | reading the lines of a text gives back the lines it was written from, with or without a last line feed |
| ConfigScan.GlobIncludeIsSortedFilter | tools/compliance-scan/src/main.rs:229-248 | a glob include loads exactly the listed names its last component accepts, each as often as listed, in ascending order |
| ConfigScan.SpellingsAgree | tools/compliance-scan/src/main.rs:171-177 | `Keyword value` and `Keyword=value`, with any blanks around the `=` or in its place, split into the same keyword and rest |
| ConfigScan.Scan | tools/compliance-scan/src/main.rs:250-281 | for every host, cyclic includes too, the lazy early-exit scan terminates and returns the first hit of the complete flattening, or its first error if that comes before |
| ConfigScan.ScanPatterns | tools/compliance-scan/src/main.rs:261-272 | the same for the patterns of one include line |
| ConfigScan.ScanFiles | tools/compliance-scan/src/main.rs:262-271 | the same for the files one pattern names; a missing file is skipped |
| ConfigScan.FirstHitByPosition | tools/compliance-scan/src/main.rs:250-281 | the first step that is not another directive decides: a setting of the wanted one is the answer, an error is returned, none means not set |
| ConfigScan.StepsByIncludeChains | tools/compliance-scan/src/main.rs:256-274 | the flattening has a setting, or a fault, if and only if a chain of includes, each before its own file's `Match` line, leads to a readable file that makes it before its `Match` line: at most eight includes to a setting, seven to an include that cannot be listed or read |
| ConfigScan.MissingIsSkipped | tools/compliance-scan/src/main.rs:239-266 | a missing file or directory is never an error of the flattening |
| ConfigScan.SshdEffective | tools/compliance-scan/src/main.rs:284-295 | file missing, not set, found with its file, or the error, each exactly when the main file or the complete reading of its includes says so; a not-found error never escapes |
| Directives.SettingIsFound | tools/compliance-scan/src/main.rs:252-278 | a main file whose first deciding line spells the directive in either case, with blanks or `=` before the value, answers that line's first argument; lines before it that are comments or set something else do not matter |
| Directives.MatchEndsIt | tools/compliance-scan/src/main.rs:257-259 | a `Match` line in either case before any deciding line, and the end of the file, answer not set |
| Directives.IncludeIsFollowed | tools/compliance-scan/src/main.rs:260-273 | an `Include` line in either case of one file gives what that file sets |
| Directives.PlainInclude | tools/compliance-scan/src/main.rs:229-238 | an absolute argument, with either slash or a drive, without wildcards in its last part names just that file |
| Directives.RelativeInclude | tools/compliance-scan/src/main.rs:229-230 | a bare name is taken from the directory of the main file, with the slash that directory uses |
| Directives.PathParts | tools/compliance-scan/src/main.rs:220-226 | the directory of a file is what comes before the last slash, `/` for a file in the root and `.` for a bare name |
| Directives.WildcardInclude | tools/compliance-scan/src/main.rs:231-247 | a wildcard argument names the matching files of its directory in ascending order, each as often as listed, none if there is no such directory |
| ConfigScan.EvalConfig | tools/compliance-scan/src/main.rs:297-339 | an error if and only if the rule is malformed; otherwise pass or fail as the effective value or the default is among the allowed words in either case, the chosen outcome for a missing file, and unknown for what cannot be read or is unset without a default |
| ConfigScan.RollUp | tools/compliance-scan/src/main.rs:440-451 | the bundle passes if and only if every outcome is a pass; the four counts are how often each outcome occurs and add up to the number of rules |
| CivilDate.BothFormsCountDays | tools/log-triage/src/main.rs:326-334 | both forms, with truncating division, equal the calendar's day count for every year, negative ones too |
| CivilDate.Epoch | tools/eol-check/src/main.rs:27-42 | 1970-01-01 is day 0 in both forms |
| CivilDate.NextDayIsPlusOne | tools/log-triage/src/main.rs:324-334 | the next calendar day is one more, over month and year ends and leap days |
| CivilDate.DaysOrderDates | tools/log-triage/src/main.rs:324-334 | day numbers order valid dates exactly as their triples, and only equal dates share one |
| CivilDate.EveryDayHasOneDate | tools/log-triage/src/main.rs:324-334 | every integer is the day number of exactly one valid date |
| CivilDate.RolledIsTheSameDay | tools/log-triage/src/main.rs:324-366 | a day from 1 to 31 past the end of its month has the number of a valid date of the next month |
| CivilDate.SecondsOrderStamps | tools/log-triage/src/main.rs:362-369 | of any two accepted stamps, day 31 of every month and second 60 included, the numbers compare as the tuples do once days past the end of a month are rolled over, and tie exactly for equal ones and for a leap second and the second after it |
| CivilDate.SecondsOrderExactly | tools/log-triage/src/main.rs:362-369 | with seconds below 60 the numbers order accepted stamps exactly as the rolled-over tuples |
| CivilDate.SyslogOrder | tools/log-triage/src/main.rs:359-379 | two accepted syslog stamps, 29 and 30 February and second 60 included, always parse and compare in the same way within the one year 2000 |
| CivilDate.ParseTsMeans | tools/log-triage/src/main.rs:362-382 | a line gets the counted seconds of its ISO timestamp if it has one in range, else of its syslog timestamp in the year 2000 if that is in range, else none |
| Masking.Merge | tools/secret-scan/src/main.rs:189-201 | sort and fold gives the maximal groups of overlapping or touching spans |
| Masking.GroupsAreUnique | tools/secret-scan/src/main.rs:191-201 | the groups are determined by the positions covered |
| Masking.GroupsDependOnSet | tools/secret-scan/src/main.rs:189-201 | neither order nor repetition of the spans matters |
| Masking.MaskGroups | tools/secret-scan/src/main.rs:202-216 | for byte offsets on character boundaries the buffer loop writes the line with each group replaced by its first four characters and an ellipsis, and notes at which character the first mask begins |
| Masking.OneMoreIsMasked | tools/secret-scan/src/main.rs:205-216 | one more secret at the end leaves what is shown before it, then shows its first four characters, an ellipsis and the rest of the line |
| Masking.NothingIsMasked | tools/secret-scan/src/main.rs:216 | a line without secrets is shown as it is |
| Masking.GroupsInChars | tools/secret-scan/src/main.rs:191-210 | the maximal groups of byte spans are, counted in characters, the maximal groups of the character spans |
| ByteOffsets.SameOrder | tools/secret-scan/src/main.rs:204-211 | byte offsets on boundaries compare as the characters they stand before |
| ByteOffsets.SliceToEnd | tools/secret-scan/src/main.rs:216 | slicing from a byte offset to the end gives the characters from there on |
| Masking.MaskedExcerpt | tools/log-triage/src/main.rs:249-296 | from byte spans in any order, the excerpt is the window on the masked text of their maximal groups of characters, around the first mark |
| Masking.WindowShowsFirstMark | tools/secret-scan/src/main.rs:218-236 | at most 202 characters: the whole text up to 200 characters, else 200 of it from 60 before the first mask or the nearest place that leaves 200, with an ellipsis on each cut side, the first four characters of the first secret and its ellipsis included |
| Masking.MaskHidesTails | tools/secret-scan/src/main.rs:205-216 | lines that differ only past the fourth character of a group have the same masked text |
| Masking.ExcerptHidesSecrets | tools/secret-scan/src/main.rs:186-237 | so no excerpt tells apart two secrets of one length with the same first four characters |
| Masking.ScanTokens | tools/secret-scan/src/main.rs:157-183 | the regex hits are kept and followed, left to right, by exactly the maximal token runs that are long enough, of high entropy and clear of every regex hit |
| Masking.ReportedMeans | tools/secret-scan/src/main.rs:157-183 | a run is reported if and only if it is twenty or more letters, digits or `+/=_-` with none of these before or after, has high entropy and lies before or after every regex hit |
| Masking.MaximalRun | tools/secret-scan/src/main.rs:165-169 | the inner loop ends at the end of the maximal run |
| Triage.Acc.constructor | tools/log-triage/src/main.rs:195-216 | an empty accumulator with a zero for every detector |
| Triage.Acc.Push | tools/log-triage/src/main.rs:218-244 | buckets and counters stay those of all findings pushed so far |
| Triage.TallyIsExact | tools/log-triage/src/main.rs:218-244 | the capped buckets are the first findings of the uncapped sequences, the counters their exact numbers |
| Triage.TalliesSum | tools/log-triage/src/main.rs:227-229 | totals by severity and by detector both sum to the number of findings |
| Triage.FindingsByKind | tools/log-triage/src/main.rs:218-244 | the findings of a severity are those that have it, in their order, and the count of a detector is the number of its findings |
| Triage.Acc.AddIp | tools/log-triage/src/main.rs:483-497 | the address table stays that of all sightings so far |
| Triage.IpsAreExact | tools/log-triage/src/main.rs:483-497 | under the 4096-address limit every tracked address has its exact number of sightings and its true first one, and the tracked ones are the first ones met |
| Triage.Acc.Assemble | tools/log-triage/src/main.rs:655-665 | the emitted findings are the first `max_findings` of all high, then medium, then info findings ever pushed, flagged exactly when there are more or the walk stopped early |
| Triage.Fill | tools/log-triage/src/main.rs:656-664 | draining capped buckets in turn equals capping the concatenation of the uncapped ones |
| Triage.Cutoff | tools/log-triage/src/main.rs:411-433 | a line is kept exactly when it lies in the window ending at the newest timestamp; without window or timestamps all are |
| Triage.ScanLine | tools/log-triage/src/main.rs:425-497 | one line pushes what fired and counts its addresses exactly when kept and not blank |
| Triage.ScanLines | tools/log-triage/src/main.rs:422-498 | a file's lines push exactly their findings and sightings in order; the error count is exact and its first three lines are kept |
| Triage.FindingsByLine | tools/log-triage/src/main.rs:422-481 | the findings of a file are what fired on its lines in the window, by line and then by detector, each with its path, line number from one and excerpt |
| Triage.SightingsByLine | tools/log-triage/src/main.rs:483-497 | the sightings are the addresses on those lines, in the same order |
| Triage.ErrorsByLine | tools/log-triage/src/main.rs:422-498 | the error lines are the numbers of the lines in the window that are of the error class, ascending |
| Triage.LinesInWindow | tools/log-triage/src/main.rs:422-434 | the lines counted are those of the window, blank ones included |
| Triage.ScanFile | tools/log-triage/src/main.rs:404-517 | one file adds its in-window findings, sightings and line count, and one burst finding if it has ten or more error lines |
| Triage.ReportBurst | tools/log-triage/src/main.rs:500-516 | the burst finding and entry name the exact count and first lines |
| Triage.BurstTells | tools/log-triage/src/main.rs:500-516 | fewer than ten error lines are no burst; ten or more give one medium finding at the first of them that tells their number and the first three, and one entry |
| Triage.RankIps | tools/log-triage/src/main.rs:633-634 | every tracked address once, none with more sightings than one before it, ties in ascending order |
| Triage.ReportIps | tools/log-triage/src/main.rs:631-653 | one info finding at the first sighting of each tracked address, and the 20 most frequent with exact counts |
| Triage.AddressesAreTold | tools/log-triage/src/main.rs:631-653 | each tracked address, 4096 at most, has one info finding at its true first sighting, under its exact number of sightings |
| Triage.TrackedAreFirst | tools/log-triage/src/main.rs:483-497 | an address is tracked if and only if fewer than 4096 other addresses are sighted before its first sighting |
| LogRun.OfferFile | tools/log-triage/src/main.rs:381-404 | a file that is too long or no text is counted as skipped; any other adds what it holds and is counted as scanned |
| LogRun.LogsAreFiles | tools/log-triage/src/main.rs:531-545 | the files offered are the plain files among the entries visited whose name matches, in their order, each with its length and what reading its path gives |
| LogRun.SkippedComesToNothing | tools/log-triage/src/main.rs:381-403 | a file that is too long or no text comes to nothing |
| LogRun.FileComesTo | tools/log-triage/src/main.rs:404-517 | any other comes to what fired on its lines in the window, the addresses there, its burst if it has one, and the number of those lines |
| LogRun.YieldAppend | tools/log-triage/src/main.rs:519-550 | what files come to adds up in their order |
| LogRun.Walk | tools/log-triage/src/main.rs:519-550 | for every tree the recursive walk with its shared accumulator equals offering the matching files in pre-order until the limit |
| LogRun.WalkEntry | tools/log-triage/src/main.rs:531-548 | the same for one entry |
| LogRun.OfferAppend | tools/log-triage/src/main.rs:526-549 | offering two lists in turn is offering them joined |
| LogRun.WalkStopsExactly | tools/log-triage/src/main.rs:543-547 | the files offered are those before the first place where `max_files` readable ones are behind; as many readable ones are scanned as there are, up to `max_files`; the flag is set exactly when the files before the last one already hold `max_files` readable ones |
| LogRun.FlaggedWithoutLoss | tools/log-triage/src/main.rs:543-547 | a readable file is left out exactly when there are more than `max_files`, and then flagged; the flag without a loss exactly when the last file is unreadable and `max_files` readable ones come before it |
| LogRun.MakeReport | tools/log-triage/src/main.rs:629-689 | the report holds the exact counters, the first findings of the whole run by severity and the ranked addresses |
| LogRun.Run | tools/log-triage/src/main.rs:570-690 | for every tree and argument: each refusal exactly under its condition, for an empty glob, a file or finding limit that is zero after truncation to 32 bits, or a missing root; otherwise the report of the files the walk gets to, with the window in seconds of the given minutes |
| FindWalk.Walk | tools/fs-find/src/main.rs:74-141 | for every tree and filter the capped walk with its shared result equals capping the selected pre-order |
| FindWalk.WalkEntry | tools/fs-find/src/main.rs:93-139 | the same for one entry and what lies below it |
| FindWalk.Run | tools/fs-find/src/main.rs:155-185 | with both arguments cut to 32 bits the tool answers the first entries of the depth-limited walk; for `max_results` below 2^32 - 1 and `max_depth` below 2^32 that is what was asked for, flagged exactly when there are more |
| FindWalk.FindFiles | tools/fs-find/src/main.rs:145-190 | refused if and only if the kind is none of the three or the root is missing |
| FindWalk.WalkVisits | tools/fs-find/src/main.rs:82-141 | the walk visits every entry that can be read within the depth limit, and only those, exactly once, a directory before what it holds and otherwise in the order of the listings |
| FindWalk.WalkFinds | tools/fs-find/src/main.rs:109-136 | what is found are exactly those visited entries whose name, kind, size and time are as wanted, in that order, each with its path, kind, size and time |
| FindWalk.ManyFilesBreakIt | tools/fs-find/src/main.rs:156-177 | for every larger `max_results` a directory whose last files are lost |
| FindWalk.DeepFileBreaksIt | tools/fs-find/src/main.rs:155 | for every larger `max_depth` a file within it that is not found |
| FindWalk.PromiseKeptBelowUsizeMax | tools/fs-find/src/main.rs:155-177 | that promise holds on every tree and for every filter if and only if `max_results` is below 2^32 - 1 and `max_depth` below 2^32 |
| OutputBudget.FitBudget | tools/socket-inventory/src/main.rs:230-270 | terminates with the first report of the ladder of ever smaller ones that fits, or the last; it fits unless rows, peers and services are all empty |
| OutputBudget.AnswerTells | tools/socket-inventory/src/main.rs:230-270 | the answer fits 56 KiB or lists nothing, is the report itself if that fits, and unless services are said to be truncated lists every non-ephemeral service, in order and as often |
| OutputBudget.RungsAreExact | tools/socket-inventory/src/main.rs:230-270 | every rung: connections are all there or none, peers all or a prefix, services all or, with the exact number of ephemeral ones given as omitted, all the others or a prefix of them, and each loss has its flag |
| OutputBudget.NonEphemeralIsFilter | tools/socket-inventory/src/main.rs:251-257 | dropping the ephemeral services keeps all the others, in order and as often as they occur, and counts the dropped ones |
| OutputBudget.ShrinkPeers | tools/socket-inventory/src/main.rs:240-250 | the loop passes only rungs that are too large and stops at one that fits or has no peers |
| OutputBudget.ShrinkServices | tools/socket-inventory/src/main.rs:259-268 | the same for the service cuts |
| OutputBudget.AnswerIsHonest | tools/socket-inventory/src/main.rs:226-270 | nothing is lost silently or without need: every loss sets its flag, peers are a prefix, services a prefix of the non-ephemeral ones, peers go only after the rows did not suffice |
| OutputBudget.LossIsSaid | tools/socket-inventory/src/main.rs:251-268 | whenever services are lost, the count of omitted ephemeral ones is positive or services are said to be truncated |
| OutputBudget.RungsAreHonest | tools/socket-inventory/src/main.rs:226-270 | every rung keeps that order of sacrifice and its flags |
| OutputBudget.ServicesGoLast | tools/socket-inventory/src/main.rs:251-268 | services are lost only if the report without rows and peers but with all services was too large |
| OutputBudget.RungsListFewer | tools/socket-inventory/src/main.rs:240-268 | down the ladder no service comes back |
| OutputBudget.ServiceIsListedIff | tools/socket-inventory/src/main.rs:230-270 | a service is still listed if and only if some rung of the ladder lists it and fits |
| OutputBudget.AllAreListedIff | tools/socket-inventory/src/main.rs:230-270 | all services are still listed if and only if there are none or a rung with all of them fits |
| OutputBudget.LongReportDropsAService | tools/socket-inventory/src/main.rs:251-268 | when the rows of different services alone exceed the budget one of them is not listed, and the report counts an omitted ephemeral service or says that services were truncated |
| OutputBudget.PeerRungsHalve | tools/socket-inventory/src/main.rs:245-248 | each step keeps the first half of the peers |
| OutputBudget.ServiceRungsCut | tools/socket-inventory/src/main.rs:260-266 | each step keeps the first three quarters of the services, rounded down |
| OutputBudget.LastRungIsEmpty | tools/socket-inventory/src/main.rs:240-268 | the ladder ends with no rows, no peers and no services |
| Sockets.GroupSockets | tools/socket-inventory/src/main.rs:108-122 | one group per family, port and owner, with exactly the addresses and versions of its sockets and the first known pid |
| Sockets.GroupHolds | tools/socket-inventory/src/main.rs:119-121 | the addresses of a group are those of its sockets, and it has version 6 or 4 exactly as some protocol name of them ends in 6 or does not |
| Sockets.ServiceSays | tools/socket-inventory/src/main.rs:84-118 | a service is udp exactly when the protocol begins so and tcp otherwise, names the process or else `pid:` and the number or nothing, and is ephemeral from port 32768; sockets share a service exactly when these agree |
| Sockets.ServicesOf | tools/socket-inventory/src/main.rs:108-144 | the services are exactly what the sockets are seen as, and no two share family, port and owner |
| Sockets.ExposureMeans | tools/socket-inventory/src/main.rs:125-131 | `all` means some address is a wildcard, `loopback` that every one is a loopback address, `specific` neither |
| Sockets.GroupAndIngest | tools/librarian/ingest_inventory.py:323-371 | recording a whole report makes the host's services exactly those its sockets listen for, less the skipped ones, and leaves other hosts' alone |
| Services.ServiceRows | tools/librarian/ingest_inventory.py:240-294 | every reported service is recorded, counted as skipped for exactly one reason, or lacks a port |
| Services.SkippedAreCounted | tools/librarian/ingest_inventory.py:242-262 | rows and counters in terms of the report: the rows are the services with a port other than 0, less the transient loopback and udp ones if those are skipped, in order and each under host, protocol, port and process; the three counters are how many are skipped for each reason |
| Services.RowsAreTheServices | tools/librarian/ingest_inventory.py:245-293 | the rows are those of the reported services that are not skipped, and no others |
| Services.Graph.MergeServices | tools/librarian/ingest_inventory.py:348-358 | each row's node says its last listing and is linked; no other node or edge changes |
| Services.Graph.IngestServices | tools/librarian/ingest_inventory.py:310-375 | afterwards a known host's services are exactly the reported ones, whatever was there before and however little was reported; an unknown host changes nothing |
| Services.NodesAreTold | tools/librarian/ingest_inventory.py:348-371 | each key the report names has a node of this host that says the last such service; any other key keeps its node unless that was this host's own from an earlier report, and then it has none |
| Services.EdgesAreTold | tools/librarian/ingest_inventory.py:348-371 | a host listens on a service afterwards if and only if that has a node and the host did before or its report names it |
| Services.OthersAreKeptIff | tools/librarian/ingest_inventory.py:366-371 | what other hosts or sources recorded is kept if and only if none of it goes by a reported key |
| Services.KeysTellApart | tools/librarian/ingest_inventory.py:267 | the key text determines host, protocol, port and process when host ids have no bar and protocols no slash |
| Services.OtherHostsAreKept | tools/librarian/ingest_inventory.py:267 | so a report never touches another host's services |
| Services.ShrinkAndIngest | tools/librarian/ingest_inventory.py:310-371 | a live service has its node afterwards if and only if some rung of the ladder of ever smaller reports names its key and fits |
| Services.KeyIsListedIff | tools/socket-inventory/src/main.rs:226-270 | the shrunk report names a live key if and only if some rung names it and fits |
| Services.LiveMeans | tools/librarian/ingest_inventory.py:240-294 | a key is live exactly when some listed service that is not skipped goes by it |
| Services.LiveServiceIsRemoved | tools/librarian/ingest_inventory.py:366-371 | where the service rows alone exceed the budget and every service is recorded, each under its own key, a service that goes on listening is without a node although the report says that it dropped services |
| Services.BusyHostLosesAService | tools/librarian/ingest_inventory.py:366-371 | 600 or more services of a hundred characters each are such a host, for every printed length that counts the rows |
| Text.DecimalIsInjective | tools/librarian/ingest_inventory.py:267 | different ports are written differently |
| Text.DecimalReads | tools/librarian/ingest_inventory.py:267 | reading the digits of a number gives it back, and they begin with no zero |
| DomainIndex.IndexIndicators | tools/librarian/match_iocs.py:144-154 | the index holds exactly the non-empty values per kind, each with the first indicator of the feeds that has it |
| DomainIndex.CandidatesAreDottedHits | tools/librarian/match_iocs.py:157-160 | the candidates of a domain are exactly the dotted domains the linear test accepts for it |
| DomainIndex.CandidatesShrink | tools/librarian/match_iocs.py:157-160 | candidates get strictly shorter |
| DomainIndex.Lookup | tools/librarian/match_iocs.py:225-229 | finds a hit exactly when the linear test accepts some dotted indicator, and then the longest such |
| DomainIndex.IndexAgreesIffDotted | tools/ioc-match/src/main.rs:39-43 | index and linear test agree on every domain if and only if every indicator domain has a dot |
| DomainIndex.JoinUndoesLabels | tools/librarian/match_iocs.py:159-160 | joining the labels of a domain with dots gives it back |
| Base64.B64Encode | tools/fs-read/src/main.rs:28-42 | the chunk loop computes the encoding, of length 4·⌈n/3⌉ |
| Base64.DecodeInvertsEncode | tools/fs-read/src/main.rs:27-42 | the padded decoder of section 4 of RFC 4648 accepts exactly the encoder's outputs and maps each back to its input |
| Base64.EncodeIsInjective | tools/fs-read/src/main.rs:27-42 | different inputs have different encodings |
| Base64.AlphabetInOrder | tools/fs-read/src/main.rs:29 | the alphabet lists capitals, small letters, digits, `+` and `/` in the order of the RFC |
| GraphBatch.WriteRows | tools/_shared/graph_batch.py:75-89 | writing in chunks of 250 equals one pass over all rows, for every statement and state |
| GraphBatch.Write | tools/_shared/graph_batch.py:50-72 | one `UNWIND` statement applies row after row |
| GraphBatch.FoldAppend | tools/_shared/graph_batch.py:83-88 | a pass over two parts is a pass over the first, then over the second |
| Inventory.NodeContract | tools/package-inventory/src/main.rs:28-37 | the answer lists the first `max` of the installed packages whose name has the prefix, in their order, says exactly when there are more, and gives the total of the whole host |
| Inventory.Collector.Walk | tools/librarian/collect_inventory.py:186-201 | adds only installed packages, loses none, holds every named package on a page that is read whatever other pages do, notes no page if all answer and fit, and unless it notes one holds every package its prefixes reach |
| Inventory.Collector.WalkChildren | tools/librarian/collect_inventory.py:193-204 | the same for one page per next character |
| Inventory.Collector.AddPage | tools/librarian/collect_inventory.py:199-201 | every named package of a page is among the rows under its own key |
| Inventory.Collector.CollectPackages | tools/librarian/collect_inventory.py:174-216 | there is a snapshot if and only if the first call answers; it lists every named package on a page the walk reads even when other pages fail; unmarked it lists exactly the installed packages; a host of at most 500 packages is listed whole, and a larger one is unmarked if it pages |
| Inventory.PageableIsComplete | tools/librarian/collect_inventory.py:166-204 | a host pages when its packages are named once each, begin with three ASCII letters or digits, no prefix of three has more than 500 of them and every page answers; then every package is reached and no page is incomplete |
| Inventory.SmallHostFits | tools/librarian/collect_inventory.py:174-178 | one call lists a host of at most 500 packages whole |
| Inventory.ShortCountIsTruncated | tools/librarian/collect_inventory.py:209-211 | rows are a subset of the installed packages, and as many as the total if and only if they are all of them and each is named once |
| Inventory.KeyCount | tools/librarian/collect_inventory.py:211 | a list has as many keys as entries if and only if all are named and no key repeats |
| Inventory.Rows | tools/librarian/ingest_inventory.py:167-176 | one row per named (name, version), with the manager of its last listing |
| Inventory.Graph.WriteRows | tools/librarian/ingest_inventory.py:202-212 | merges the listed packages and their edges and nothing else |
| Inventory.Graph.IngestPackages | tools/librarian/ingest_inventory.py:159-232 | an empty or truncated snapshot removes nothing; managers are those of the last listing, other packages untouched |
| Inventory.ReconcilingIsExact | tools/librarian/ingest_inventory.py:196-231 | other hosts untouched, no listed package unlinked, and after a complete snapshot the edges are exactly the listed packages if and only if no old edge is mistaken for a listed one |
| Inventory.JoinIsInjective | tools/librarian/ingest_inventory.py:224 | keys of names without NUL are told apart by the joined text |
| Inventory.NulFreeNamesAreNeverMistaken | tools/librarian/ingest_inventory.py:224-230 | without NUL in names no old edge is mistaken |
| Inventory.NulNamesCanBeMistaken | tools/librarian/ingest_inventory.py:224-230 | a stale edge that survives because of NUL in names |
| Inventory.SnapshotKeepsInstalled | tools/librarian/ingest_inventory.py:196-231 | a snapshot of installed packages, whole unless truncated, unlinks no installed package and links only installed ones |
| Inventory.CollectAndIngest | tools/librarian/collect_inventory.py:131-204 | for a host that does not change meanwhile: a snapshot exists if and only if the first call answers, and is recorded if and only if the host is known; then every named package of it, truncated or not, has its node and edge, so every package on a page that was read; no edge of an installed package is removed, a truncated snapshot removes none, other hosts are left alone, and after a complete non-empty one the edges are exactly the installed packages (unless one is mistaken) |
| GraphStore.MergeKeysKept | tools/librarian/upsert_node.py:79-107 | setting the properties never changes a merge key of a matched node |
| GraphStore.MatchedAfterWrite | tools/librarian/upsert_node.py:160-193 | after the write the commission matches the nodes it matched before, or exactly the new one |
| GraphStore.NodeWriteIsIdempotent | tools/librarian/upsert_node.py:160-193 | writing a node commission twice leaves the graph of writing it once at the later time |
| GraphStore.NodeWriteIsLocal | tools/librarian/upsert_node.py:160-193 | no edge and no unmatched node changes, and no property is removed |
| GraphStore.NodeWriteSays | tools/librarian/upsert_node.py:182-192 | every node the commission then matches holds all its properties and its provenance over what it held before, and a new one is labelled and holds just that |
| GraphStore.NodeWriteMeans | tools/librarian/upsert_node.py:160-193 | property by property: every node with the label and the merge-key values takes the given properties and provenance and keeps the rest, a new node is made if and only if there is none, and nothing else changes |
| GraphStore.EdgeWriteSays | tools/librarian/upsert_edge.py:206-215 | each pair of matched endpoints is joined by an edge that holds all the commission says over what it held before |
| GraphStore.EdgeWriteMeans | tools/librarian/upsert_edge.py:178-224 | property by property: between every pair of nodes that carry the endpoints' labels and values there is an edge of the type with the given properties and provenance over what it held; other edges and all nodes stay |
| GraphStore.AcceptedMeans | tools/librarian/upsert_node.py:79-107 | an input is taken if and only if it gives every merge key and sets none of the three provenance names |
| GraphStore.EdgeWriteIsIdempotent | tools/librarian/upsert_edge.py:178-224 | the same for an edge commission |
| GraphStore.EdgeWriteIsLocal | tools/librarian/upsert_edge.py:191-215 | no node changes, nothing changes without both endpoints, and with them the edge exists |
| WriteJournal.Journal.RecordSuccess | tools/_shared/write_journal.py:121-134 | streak reset and the entry of this very commission cleared, with I/O errors at any step |
| WriteJournal.Journal.RecordFailure | tools/_shared/write_journal.py:137-165 | the entry kept or updated, with I/O errors at any step; it reports saved if and only if nothing failed to be written, and then the entry is pending |
| WriteJournal.PendingTellsHistory | tools/_shared/write_journal.py:121-165 | over every run, pending are exactly the commissions with a failure since their last success, with the number of those failures and the times of the first and last |
| WriteJournal.OpenMeansLatestFails | tools/_shared/write_journal.py:121-165 | those are exactly the commissions whose latest outcome is a failure |
| WriteJournal.CountersTellHistory | tools/_shared/write_journal.py:107-117 | over every run, `consecutive_failures` counts the failures since the last success of anything, the totals all outcomes |
| WriteJournal.StatusTellsLatest | tools/_shared/write_journal.py:107-115 | over every run, the status names the time of the latest outcome, the latest success and the latest failure, each with its tool, and the first 500 characters of the error |
| WriteJournal.EntriesOnlyLeaveBySuccess | tools/_shared/write_journal.py:121-165 | with I/O errors anywhere, an entry disappears only through a success, and appears only through a failure, of its own commission |
| WriteJournal.CallTells | tools/_shared/write_journal.py:101-165 | each call with I/O errors: without the status nothing is written, an unreadable status counts from zero, an entry that cannot be written stays and one that cannot be read counts as a first failure; entries of other commissions stay |
| Replay.Librarian.UpsertNode | tools/librarian/upsert_node.py:77-144 | succeeds if and only if the input is sound and the store is up, and then the node is recorded property by property; otherwise the graph stays; a store error is journaled, a success clears the entry, a refused input leaves the journal alone |
| Replay.Librarian.UpsertEdge | tools/librarian/upsert_edge.py:95-175 | succeeds if and only if the input is sound, the store is up and both endpoints are there, and then every pair of them is joined, property by property; otherwise the graph stays; a missing endpoint is reported but not journaled |
| Replay.Librarian.PendingEntries | tools/_shared/write_journal.py:168-176 | all entries once, in ascending order of their file names |
| Text.OneOrder | tools/_shared/write_journal.py:174 | there is only one such order |
| Replay.EdgeFilesFirst | tools/_shared/write_journal.py:88-98 | the file of any edge commission sorts strictly before that of any node commission, whatever the digests |
| Replay.UpsertNames | tools/_shared/write_journal.py:97 | the tools' names stand in file names as `upsert_node` and `upsert_edge` |
| Replay.FileOrderPutsEdgesFirst | tools/_shared/write_journal.py:168-176 | so file order replays every edge entry before every node entry |
| Text.SortedBy | tools/_shared/write_journal.py:174 | sorting a set of things by distinct names lists each once, in the order of the names |
| Replay.Librarian.ReplayOne | tools/librarian/apply_pending.py:113-134 | one replay is one attempt of the entry's tool; besides the upserts five tools are replayed, and one without a replayer fails and leaves the entry |
| Replay.Librarian.ReplayFirst | tools/librarian/apply_pending.py:102-135 | the loop is the composition of the attempts, and its two counters are exact |
| Replay.Librarian.ApplyPending | tools/librarian/apply_pending.py:86-151 | the first `limit` entries in file order are attempted, nothing without confirmation, and the four numbers reported are true |
| Replay.NothingIsLost | tools/librarian/apply_pending.py:100-137 | whatever store, disk and the other replayable tools do, an entry is gone after a pass only if its own run succeeded, and none appears |
| Replay.OnePass | tools/librarian/apply_pending.py:100-137 | on a healthy store, with no entry of the other replayable tools pending, a pass leaves pending, unchanged, exactly the refused inputs, the entries of unknown tools and the edges without endpoints on the graph before the pass |
| Replay.StuckPass | tools/librarian/apply_pending.py:100-137 | a pass over such entries changes neither journal nor graph |
| Replay.TwoPassesSettle | tools/librarian/apply_pending.py:100-137 | then two passes reach the fixed point, exactly described, and a third changes nothing |
| Replay.PassWritesNodes | tools/librarian/apply_pending.py:100-137 | the nodes after a pass are those its node commissions make, in file order, of the nodes before |
| Replay.PassWritesEdges | tools/librarian/apply_pending.py:100-137 | whatever the store does, an edge is there after a pass if and only if it was or some replayed sound commission names it between nodes that carry its endpoints before the pass; each property is what the last such commission to set it says, or what it was |
| Replay.ClearedEdgeIsThere | tools/librarian/apply_pending.py:100-137 | every edge commission a healthy pass clears is in the graph after it, between all endpoints found before it |
| Replay.AppliedAreCounted | tools/librarian/apply_pending.py:102-135 | on a healthy store the number applied is that of the entries that were not stuck before the pass |
| Replay.StuckMeans | tools/librarian/apply_pending.py:113-134 | stuck are the refused inputs, the edges without their endpoints and the entries of tools without a replayer |
| Replay.IdleIffStuck | tools/librarian/apply_pending.py:103 | the first `limit` replays change neither journal nor graph if and only if all their entries are stuck on the graph before |
| Replay.BlockedForGood | tools/librarian/apply_pending.py:100-137 | over every run of passes with one limit: the first changes nothing if and only if the entries in front are stuck, and then none does |
| Replay.StarvedRun | tools/librarian/apply_pending.py:103 | with a limit of one, an edge without its endpoints keeps every node commission pending that the store would take |
| Replay.StarvedHost | tools/librarian/apply_pending.py:103 | the case of a host that is pending and would give the edge its endpoints |
| Replay.TwoPassesExactly | tools/librarian/upsert_edge.py:146-158 | with accepted commissions, two passes leave exactly the edges whose endpoints no node matches if and only if the pending node commissions, written in file order on the graph before, take no edge's endpoints away |
| Replay.TwoPassesLeaveUnmatchedEdges | tools/librarian/upsert_edge.py:146-158 | whenever no pending node commission can lose a pending edge, two passes leave exactly the edges whose endpoints no node matches |
| Replay.PairIsExactIff | tools/librarian/upsert_edge.py:146-158 | for one edge and one node commission that holds on every graph and at every time if and only if the node write can never lose the edge |
| Replay.LosingRun | tools/librarian/upsert_edge.py:146-158 | from any graph on which the write loses the edge, the run in which the edge is written, loses its endpoints and is not pending |
| Replay.MovedHostLosesItsEdge | tools/librarian/upsert_node.py:182-192 | a host commission with a new address loses an edge that goes by the old address |
| Replay.HostsAndTheirEdgeAreSafe | tools/librarian/upsert_node.py:160-193 | node commissions that merge on the id, whatever else they set, never lose an edge whose endpoints go by their ids |
| Endpoints.MovesIff | tools/librarian/upsert_node.py:160-193 | an endpoint goes on matching what it matched, on every graph, if and only if the node write disagrees with it on a shared merge key or changes none of its merge keys; on graphs with one label per node also if the labels differ |
| Endpoints.SharedKeysNeverMove | tools/librarian/upsert_node.py:79-107 | a commission that merges on every key an endpoint goes by never moves it |
| Endpoints.EndpointsSurviveIff | tools/librarian/upsert_edge.py:178-204 | both endpoints found before a node write are found after it, on every graph, if and only if the write does not lose the edge |
| Endpoints.EndpointsSurvive | tools/librarian/upsert_edge.py:178-204 | the same on one graph with the labels its nodes carry |
| Enrichment.Partition | tools/librarian/enrich_vulnerabilities.py:265-290 | looked-up and unsupported packages partition the considered ones: by the first supported row, in the order of these rows, or the reason of the first row if none is supported |
| Enrichment.GroupQueries | tools/librarian/enrich_vulnerabilities.py:298-301 | each distinct query once, in the order of the packages, with exactly the packages it stands for |
| Enrichment.FollowPages | tools/_shared/feeds.py:195-212 | the ids of the first page and up to 20 follow-up pages, each once in ascending order |
| Enrichment.IdsAreSorted | tools/_shared/feeds.py:195-212 | they are sorted, distinct and exactly the non-empty ids of these pages |
| Enrichment.IdsAreThoseOnPages | tools/_shared/feeds.py:195-212 | an advisory is a query's if and only if its id is not empty and on one of its first 21 pages |
| Enrichment.OsvQueryBatch | tools/_shared/feeds.py:179-213 | the ids of every query in the order of the queries, over chunks of 500 |
| Enrichment.ReadRecords | tools/librarian/enrich_vulnerabilities.py:306-317 | exactly the answering records of the smallest ids, at most `max_vulnerabilities` of them |
| Enrichment.AddFindings | tools/librarian/enrich_vulnerabilities.py:324-360 | one query's kept ids in the order first met, their merged severities, its worst severity, how many are fixable, and one edge row per package and kept id |
| Enrichment.PlanQuery | tools/librarian/enrich_vulnerabilities.py:322-379 | adding one more query keeps the rows those of all queries so far |
| Enrichment.PlanRows | tools/librarian/enrich_vulnerabilities.py:319-379 | the rows to write say, for all queries, every kept advisory in the order first met with its most severe rank, every edge and every package state |
| Enrichment.OrderIsByRows | tools/librarian/enrich_vulnerabilities.py:319-345 | advisories are met in the order of the rows, and in string order for one package, asking each query and meeting each package once or not |
| Enrichment.AddUnsupported | tools/librarian/enrich_vulnerabilities.py:380-388 | one row without ids per unsupported package |
| Enrichment.Graph.MergeVulnerabilities | tools/librarian/enrich_vulnerabilities.py:390-395 | merges exactly the named nodes, each with the rank of the last row that names it |
| Enrichment.Graph.MergeEdges | tools/librarian/enrich_vulnerabilities.py:396-404 | merges exactly the rows whose package and advisory have nodes, laying their properties over those of an edge already there |
| Enrichment.Graph.SetStatus | tools/librarian/enrich_vulnerabilities.py:405-410 | lays exactly the states of the packages that exist over what the packages held |
| Enrichment.Graph.DeleteStale | tools/librarian/enrich_vulnerabilities.py:411-421 | deletes exactly the edges some row calls stale |
| Enrichment.FoldOfUpserts | tools/_shared/graph_batch.py:75-89 | what a MERGE-and-SET statement over any rows leaves: the matching names, each with a value of one of its rows, all else unchanged |
| Enrichment.LastRowDecides | tools/_shared/graph_batch.py:75-89 | of the rows that name the same thing the last one decides |
| Enrichment.FoldOfOverlays | tools/_shared/graph_batch.py:75-89 | what a `SET +=` statement over rows that agree leaves: the matching names with their row's properties over what they held, all else unchanged |
| Enrichment.FoldOfDrops | tools/librarian/enrich_vulnerabilities.py:411-421 | what a delete statement over any rows leaves |
| Enrichment.EdgesSayTheFeed | tools/librarian/enrich_vulnerabilities.py:396-421 | edge write plus stale delete, from any edges before: looked-up packages have exactly the kept advisories that have a node, each with its finding laid over what the edge held, unsupported ones none, others theirs |
| Enrichment.RanksAreTold | tools/librarian/enrich_vulnerabilities.py:332-395 | for all records: each node that kept records call themselves carries the most severe rank of the last of those advisories in the order first met, other nodes keep theirs |
| Enrichment.NodeIsSeverestIff | tools/librarian/enrich_vulnerabilities.py:332-395 | a node carries the severest rank of all kept findings that go by its id if and only if the last advisory that goes by it is as severe as the others |
| Enrichment.AnyOrderIff | tools/librarian/enrich_vulnerabilities.py:332-395 | that holds in every order of the advisories if and only if all that go by the id are equally severe |
| Enrichment.OwnIdsTellRanks | tools/librarian/enrich_vulnerabilities.py:332-395 | records that go by the ids they were asked for by always agree, and each kept advisory has its own severest rank |
| Enrichment.SharedIdHidesSeverity | tools/librarian/enrich_vulnerabilities.py:332-395 | a critical and a low record with one own id leave its node low |
| Enrichment.StatusIsTold | tools/librarian/enrich_vulnerabilities.py:361-388 | each package has, laid over what it held, a state that counts its kept advisories and the fixable ones and names the worst, or unsupported with its reason |
| Enrichment.Graph.WriteAll | tools/librarian/enrich_vulnerabilities.py:390-421 | the four writes in order leave edges, ranks and states that say the feed, old properties overlaid, whatever ids the records go by |
| Enrichment.Graph.Enrich | tools/librarian/enrich_vulnerabilities.py:254-421 | a whole run, for every graph, feed and rows: considered packages end with exactly those advisories their query returned whose record was read and which have a node (all of them if records go by their own ids), whatever edges existed before, with the findings and states laid over the old properties; every node that records go by carries the severest of their findings if and only if the last such advisory is as severe as the others; nothing else changes |
| Enrichment.KeptIsAllIff | tools/librarian/enrich_vulnerabilities.py:306-314 | nothing the feed returned is left out if and only if the cap covers it and every record answers |
| Enrichment.EdgeTellsExactly | tools/librarian/enrich_vulnerabilities.py:331-404 | every edge of a looked-up package, property by property: the fixed version as read, available exactly if that is not empty, ecosystem and source package of the query, the word of the severity, `osv.dev`, the urgency if there is one; what is not set stays as it was |
| Enrichment.UrgencyIsToldIff | tools/librarian/enrich_vulnerabilities.py:331-404 | an edge tells the urgency of its record if and only if the record has one or the edge had none |
| Enrichment.CheckedTellsExactly | tools/librarian/enrich_vulnerabilities.py:361-379 | every looked-up package, property by property: ecosystem and source package of its query, the number of its kept advisories and of those with a fix, the word of the worst severity or none, an empty note; the rest stays |
| Enrichment.UnsupportedTellsExactly | tools/librarian/enrich_vulnerabilities.py:380-410 | a package that becomes unsupported says so with its reason and keeps every other property of an earlier run, counts included |
| Enrichment.EdgesAreKeptIff | tools/librarian/enrich_vulnerabilities.py:390-404 | the edges are exactly the kept advisories if and only if each of them had a node or is what some kept record calls itself |
| Enrichment.RenamedRecordLosesItsEdge | tools/librarian/enrich_vulnerabilities.py:390-404 | a record that goes by another id than the feed named leaves its package without the edge |
| FeedCache.Feeds.CachedFetch | tools/_shared/feeds.py:116-159 | a copy younger than the TTL is returned unasked, a stale one only after this call's fetch failed, and the call raises exactly when the fetch failed and neither file nor memory has the key |
| FeedCache.CopiesAreSourced | tools/_shared/feeds.py:133-158 | over every run from an empty cache each copy comes from a successful fetch of its own key |
| FeedCache.AnswersAreProduced | tools/_shared/feeds.py:116-159 | over every run with a clock that does not run back, a body returned was produced by a successful fetch of that key, less than the TTL ago unless this call's fetch failed |
| FeedCache.NothingIsAskedTwice | tools/_shared/feeds.py:129-139 | over every such run no call asks the feed for a key again within its TTL, counted from the fetch while memory stands and from the stored file always |
| FeedCache.FallbackIsKnown | tools/_shared/feeds.py:116-159 | over every run, which body a failed fetch falls back to: with a state directory the file, the last body fetched if that was stored and an older one otherwise; without, or without a file, the last body fetched until memory is cleared, then what a later call read from the file, or else it raises |
| FeedCache.MemoryIsKnown | tools/_shared/feeds.py:126-158 | over every run, which copy memory holds of a key: the last body fetched, as old as that call or, once it was read again from its file, as that, until memory is cleared; after that what a call read from the file |
| FeedCache.NeverFetchedRaises | tools/_shared/feeds.py:142-148 | a key no fetch ever succeeded for has nothing to fall back to |
| FeedCache.FallbackCanBeOlder | tools/_shared/feeds.py:142-147 | a run in which the older file wins over the newer copy in memory |

## Left out

- Masking.ScanTokens: which spans the regex rules hit and which runs have high entropy are parameters; positions are those of characters, which inside tokens are single bytes.
- LogRun.Run: the tree and what reading a path gives do not change during a run, the depth counter is unbounded, and defaults and the type checks of the JSON arguments are not modelled.
- Triage.ScanLine: the detectors, the error class, the address pattern and the timestamp of a line are given as facts of the line.
- CivilDate.SyslogOrder: the numbers captured from a line are given; the patterns and the reading of unparsable digits as zero are not modelled.
- CivilDate.ParseTsMeans: the captured numbers of hours, minutes and seconds are not negative, as the patterns have digits only, and the month of a syslog line is one of the twelve.
- FindWalk.Walk: the tree does not change during a walk, times and sizes are those of its entries, and the depth counter is unbounded.
- OutputBudget.FitBudget: the length of the printed JSON is an arbitrary function of the report; how public addresses are told from private ones is not modelled.
- DomainIndex.IndexIndicators: values arrive lower-cased and addresses in canonical form.
- Inventory.NodeContract: its `max` argument is below 2^32, where `as usize` keeps it.
- Inventory.Collector.CollectPackages: one call per page that succeeds or fails; retrying with other published digests of the tool and the note texts are not modelled.
- Inventory.Graph.IngestPackages: host properties, counters and provenance are not part of the modelled graph; rows that are no objects are left out of the package list.
- Services.Graph.IngestServices: host properties, remote peers, counters and provenance are not part of the modelled graph, and a property absent from a later report, which keeps its older value, is not told apart.
- Sockets.ServicesOf: which addresses are loopback ones is a parameter; the services come in no particular order.
- GraphStore.NodeWriteIsIdempotent: properties are non-null texts; labels and property names arrive validated; two edges of one type between two nodes do not occur, as the tool writes none.
- WriteJournal.PendingTellsHistory: a commission stands for its file name (digests are injective), a state directory is set, and times are whole numbers, never the empty text.
- Replay.Librarian.ApplyPending: the input read back from an entry is the input journaled; what the five other replayable tools do to graph and journal is an arbitrary effect that touches no entry but their own; the per-entry listing is not modelled.
- Replay.OnePass: states nothing about passes in which one of those five tools runs, as its effect on the graph is arbitrary.
- Enrichment.Partition: how a host's release maps to an ecosystem and a package to its source and version are facts of the row.
- Enrichment.OsvQueryBatch: transport errors, answers of the wrong shape and a wrong number of results abort the run before anything is written and are not modelled.
- Enrichment.EdgeTellsExactly: the seen-at time and the provenance are not part of the modelled edge; property names are constructors, which stand for their texts.
- Enrichment.Graph.MergeVulnerabilities: of a vulnerability's properties only the rank of its severity is kept; the others are laid over the old ones in the same way.
- Enrichment.Graph.Enrich: a store error between the four writes, the counters of the result and the per-host roll-up are not modelled; severities are ranks computed by an arbitrary function of record and query, so CVSS arithmetic is left out.
- FeedCache.Feeds.CachedFetch: a digest stands for its key, times are whole numbers, reading an existing file does not fail, and calls do not overlap.
- Neo4j itself, drivers, sessions and temporal types: statements are functions on maps and sets.
- JSON, TOML and Cypher text, pydantic validation, regular expressions, entropy and hashing.
- `collect_inventory` beyond the package path, map diffs (`fim-diff`, `package-drift`, `service-baseline-diff`), `json-query`, `config-lint`, `sbom-generate`, end-of-life tables, `ver_ge` and `cypher_safety`: they would add easy members or are about something else.
- Network, MCP and model plumbing, ports, banners, DNS and TLS.
- Locks and threads: calls run one after the other.
