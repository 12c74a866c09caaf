# Verified model of the home DNS control plane

A Dafny model of the parts of the control plane that carry guarantees, with proofs of those guarantees:

- **No protected name is ever blocked** by an activated blocklist or by a rollback, for a fixed protected
  set: from the text of a list through parsing, tripwire, rendering, re-parsing and the crash-safe store
  to the decision.
- **Every query since the first poll is counted exactly once** by the metrics collector, over any
  interleaving of polls, flushes, failures, crashes and restarts, for every bucket that retention has not
  reached, as long as the provider answers a poll with exactly its window and no crash comes between the
  first poll and the first committed flush. What such a crash loses is stated exactly.
- **The regex scanner accepts exactly a grammar**, a subset of the extended regular expressions of
  section 9.4 of IEEE Std 1003.1-2017, except that the scan does not look at the order of a range.
- **Trimmed states decide as full histories would**: incidents, anti-spam, login limiter, heartbeat.

`dafny verify dfyconfig.toml` checks the whole project.

## How it is laid out

| modules | what they model |
|---|---|
| `Strings`, `SortedSets`, `Wrappers` | text as Python splits, joins and orders it; `sorted()` of a set; the Option type |
| `Domains`, `Filtering`, `Policy`, `Decisions` | names and scopes, the rule check, the decision engine and what its answers mean |
| `Blocklists`, `Lines`, `Artifacts`, `ArtifactTexts` | parsing a list, what its lines mean, the indexed tripwire, the artifact text and its parser, which texts are artifacts |
| `ArtifactStore`, `StoreSafety`, `Versions` | the directory of one source, step by step, with a crash allowed between any two steps; which versions it keeps |
| `MockProvider`, `Pipeline`, `Update`, `Outcomes`, `UpdateSafety` | the thirteen gates of an update, what its outcome means, and what whole histories can never do |
| `Metrics`, `Percentiles`, `Buckets` | rollups, percentiles, time buckets |
| `Paging`, `MockQueryLog`, `PiholeQueryLog` | reading a query log page by page |
| `Dashboard`, `Registry`, `Sightings`, `Collector` | the tables and their one transaction, device identities and what a sighting changes, the collector |
| `Attribution`, `PendingSums`, `ExactlyOnce`, `CollectorRuns` | the account behind the collector: every query credited once, over whole runs |
| `RowRuns`, `DeviceRuns`, `ColdStarts` | over whole runs: what decides the row of each device, which device a MAC has, what a crash before the first flush loses |
| `MockRuns` | the mock as the provider of a collector |
| `RegexScanner`, `RegexGrammar`, `RegexLanguage` | the pattern scanner, the grammar, and their equivalence |
| `Monitoring`, `Notify`, `LoginLimiter` | small states that speak about whole histories |
| `Heartbeat`, `IncidentLog` | the day strip of the dashboard, and its path from check results |

Code that changes state is a class or a method with the loops of the original, proved equal to a
specification function; what the original promises is then proved about that function. Errors and
exceptions are `Option` or result values. Everything the code gets from outside is a parameter: the
clock, the answers of providers and mirrors, which write raises, which unlink fails, whether the
database fails, which names a regex matches.

Modelling choices worth knowing:

- A directory is a map from file names to contents, a call the list of directories it passes through;
  a crash keeps a prefix. SHA-256 is a free constructor, so equal hashes mean equal texts.
- The provider's log is one fixed sequence. A transaction is one step, all or nothing; a statement that
  violates UNIQUE(mac) or a foreign key makes it fail, and the proofs show that none ever does.
- Time zones are reduced to their local midnights, which fall on whole minutes.
- The blocked-by-source dictionary of positive counters is a multiset. Latencies, ratios and the step of
  the health sample are real numbers; moments are whole seconds.
- The collector's history (who was credited with which query) is kept beside the model, by functions of
  the run, never inside its state.

## Where code and documentation differ

The model follows the code.

- `docs/specs/a7-backend.md` (section 3) leaves open whether the server counts the start and the end of a
  window in, and says the Pi-hole adapter therefore filters the half-open window on the client. It does
  not. `PiholeQueryLog.ReadsEachEntryOnceIff` gives the exact condition under which no query is read
  twice or lost between two windows, `CollectorRuns.PiholeIsHonestIff` the one under which an answer is
  exactly its window. The run theorems hold for windows with either end, as long as one end counts.
- `docs/protected-domains.md` says the configuration check rejects any deny regex that would block a
  protected domain. It tries the protected domains themselves, not the names below them:
  `Policy.CheckSparesNameIff` says for which names the check is enough,
  `Policy.DenyRegexBelowProtectedPassesTheCheck` is an instance.
- A rollback does not run the tripwire again, so it can block a domain that became protected after the
  previous version was activated: `UpdateSafety.RollbackBlocksIff`.
- `storage/artifacts.py` says exactly three versions are kept. Activating the previous text again leaves
  two: `StoreSafety.VersionsKept`.
- `_health_sample` with size 0 divides by zero, so `update_source` raises unless `health()` raised first:
  `Update.Review`.
- `collector.py` says a crash loses nothing. Before the first committed flush it does: the first watermark
  is in memory only, so the next start begins at its own first poll and what was read before is in no row
  (`ColdStarts.ColdCrashLosesQueries`). `ColdStarts.BeginsAtFirstPollIff` says when that does not happen,
  `ColdStarts.ShowsEverythingIff` what is missing when it does.
- The device of a MAC is likewise forgotten by a crash that no flush precedes, and its id is handed out
  again: `DeviceRuns.KeepsItsMacIff`, `DeviceRuns.CrashReusesAnIdIff`.
- `parse_artifact` lets a ValueError of `int()` through instead of its own error; the model tells the two
  apart.
- A leftover `.state.json.tmp` is never removed by `reconcile`.
- The list of incident events is newest first and the heartbeat sorts it stably, so events of the same
  second come out reversed: `IncidentLog.StripIsRightIffTiesAgree`.
- `HeartbeatStrip.tsx` speaks of the worst state of a day; the sweep shows the state at its end.

## Model

| member | source | states |
|---|---|---|
| `Domains.NormalizedIff` | src/home_dns/core/domains.py:16-50 | a name is left unchanged exactly when it is a lower-case ASCII name of at least two labels within the length limits, no IP literal, no numeric last label |
| `Domains.NormalizeIsIdempotent` | src/home_dns/core/domains.py:16-50 | every result of normalization is a fixed point of it |
| `Domains.NormalizeIff` | src/home_dns/core/domains.py:16-50 | normalization accepts exactly the ways to write a domain name, in any case, with dots behind it and white space around it, and gives the name |
| `Strings.EndsWithIsPartSuffix` | src/home_dns/core/domains.py:53-55 | a string ends with separator + suffix exactly when the parts of the suffix are the last parts of the string: the text test of `covers` is a test on labels |
| `Domains.CoversByLabels` | src/home_dns/core/domains.py:53-55 | a rule covers a name exactly when the name is the scope or becomes it by dropping leading labels |
| `Domains.ScopesAreComparable` | src/home_dns/core/domains.py:53-55 | two scopes at or above one name are equal or one is above the other |
| `Domains.ParentIff` | src/home_dns/core/blocklists.py:209-212 | dropping i labels gives the only name above with that many labels |
| `Filtering.CheckFilteringConfig` | src/home_dns/core/filtering.py:279-413 | the whole check reports exactly the issues that hold, each with its level: repeated ids, missing group, unknown references, unused entries, expired rules, duplicates, conflicts, repeated patterns, the protected list, and what touches a protected domain |
| `Filtering.CheckReferences` | src/home_dns/core/filtering.py:285-335 | the reference part: repeated ids, the missing DEFAULT group, unknown policies, lists and groups, what nothing uses, expired rules |
| `Filtering.CheckDuplicates` | src/home_dns/core/filtering.py:340-353 | the pairwise loop reports a pair exactly when both rules are live, have the same scope and overlapping groups |
| `Filtering.CheckConflicts` | src/home_dns/core/filtering.py:355-368 | an allow and a deny rule are reported exactly when both are live with the same scope and overlapping groups |
| `Filtering.CheckRegexes` | src/home_dns/core/filtering.py:370-375 | two regex rules are reported exactly when both are live with the same pattern and overlapping groups |
| `Filtering.CheckProtectedList` | src/home_dns/core/filtering.py:377-391 | an empty protected list gives the warning, and an entry is reported exactly when an equal one comes before it |
| `Filtering.CheckProtected` | src/home_dns/core/filtering.py:393-412 | deny rules and deny regexes are reported exactly when they touch a protected entry |
| `Filtering.RulesAreUnambiguous` | src/home_dns/core/filtering.py:337-368 | without errors no group ever sees two live domain rules of the same scope, so neither file order nor allow against deny is in doubt |
| `Decisions.ReportedIff` | src/home_dns/core/filtering.py:340-375 | two rules of one scope, or two of one pattern, are reported exactly when some group sees both of them alive |
| `Decisions.LevelsAre` | src/home_dns/core/filtering.py:309-391 | only unused policies, unused sources and expired rules are mere information, and only an empty protected list a warning |
| `Filtering.NoLiveDenyCoversProtected` | src/home_dns/core/filtering.py:393-401 | without errors no live deny rule covers any name inside a protected scope, subdomains included |
| `Filtering.UntouchedScopeIsSafe` | src/home_dns/core/filtering.py:393-401 | a scope that touches no protected entry in either direction covers no protected name |
| `Blocklists.ParseList` | src/home_dns/core/blocklists.py:149-196 | the parsing loop is the fold of its lines, one line at a time, for the three formats; what a line means is in the next rows |
| `Lines.ParsedIffWritten` | src/home_dns/core/blocklists.py:134-184 | the entries of a parsed text are exactly those that one of its lines writes |
| `Lines.ListingLine` | src/home_dns/core/blocklists.py:134-184 | a line that lists names holds their entries, in order and with their subdomains in an Adblock list only, or is invalid when one of them is no domain |
| `Lines.OtherLine` | src/home_dns/core/blocklists.py:162-174 | every other line is blank, a comment or unsupported, and this by its first characters alone |
| `Lines.ListsIff` | src/home_dns/core/blocklists.py:134-146 | which lines list names, by their shape: "||" name "^"; a sink and further words, less the names of the machine itself; a single word; with a remark behind the words or without |
| `Lines.CommonLines` | src/home_dns/core/blocklists.py:134-146 | for every domain name the line of each format that lists use is that one entry |
| `Blocklists.ParseIsFaithful` | src/home_dns/core/blocklists.py:162-184 | the counters of a parse add up: every line is blank, a comment or a rule; the entries are those written on its valid lines, the duplicates the rest, the samples the first invalid lines |
| `Blocklists.WrittenEntriesAreNormalized` | src/home_dns/core/blocklists.py:175-184 | whatever text is parsed, every entry is in normal form |
| `Blocklists.AncestorIff` | src/home_dns/core/blocklists.py:209-212 | the ancestors of a domain are exactly the names above it with at least two labels |
| `Blocklists.BuildBelowIndex` | src/home_dns/core/blocklists.py:221-226 | the index maps exactly the parents of protected names, each to the first protected name below it in sorted order |
| `Blocklists.CheckEntry` | src/home_dns/core/blocklists.py:228-237 | the three look-ups report an entry exactly when it touches a protected domain, with a true relation |
| `Blocklists.FindTripwireHits` | src/home_dns/core/blocklists.py:215-238 | the indexed scan reports an entry exactly when the quadratic scan with `covers` in both directions does |
| `Blocklists.NearestIsLongest` | src/home_dns/core/blocklists.py:232-234 | the ancestor reported for an entry inside a protected tree is the longest one |
| `Blocklists.TouchesByLabels` | src/home_dns/core/blocklists.py:202-206 | touching is one of the three relations of a hit: exact, inside a protected tree, above a protected name |
| `Blocklists.NoHitsMeansNothingProtectedIsBlocked` | src/home_dns/core/blocklists.py:215-238 | a list without hits blocks no name inside any protected scope |
| `Blocklists.EveryTouchBlocksSomethingProtected` | src/home_dns/core/blocklists.py:215-238 | every reported entry does block some protected name: no false alarms |
| `Artifacts.RenderRoundTrip` | src/home_dns/core/blocklists.py:244-279 | parsing the rendered artifact gives back the entry set, for every set of normalized entries |
| `Artifacts.RenderIsInjective` | src/home_dns/core/blocklists.py:244-249 | two entry sets have the same text exactly when they are equal |
| `Artifacts.DamagedArtifactIsRefused` | src/home_dns/core/blocklists.py:256-279 | dropping, repeating or reordering lines of an artifact makes parsing fail or changes nothing |
| `Artifacts.ParseArtifact` | src/home_dns/core/blocklists.py:256-279 | the parsing loop is the specification function the round trip is proved about, with the first failure it meets |
| `ArtifactTexts.ParsedIff` | src/home_dns/core/blocklists.py:256-279 | a text parses to a set of entries exactly when it has the header, every line is a remark or the line of an entry, those lines write exactly the set, every count declared is a number, and the last one is right |
| `ArtifactTexts.RenderedLines` | src/home_dns/core/blocklists.py:244-249 | the rendered text: header, source, count and the line of each entry, in ascending order of the names, the exact entry before the one with subdomains |
| `Artifacts.SortedEntries` | src/home_dns/core/blocklists.py:246-246 | the printed order: ascending by name then flag, without loss or repetition |
| `Strings.StringLeIff` | src/home_dns/core/blocklists.py:246-246 | the order of texts: one is a beginning of the other, or has the smaller character where they first differ |
| `Artifacts.DeltaBalances` | src/home_dns/core/blocklists.py:306-307 | added and removed account for the change of size, and are both zero only for equal sets |
| `Policy.PolicyEngine.Decide` | src/home_dns/core/policy.py:122-170 | the decision is the specified one, whose verdict, reason and matches the next four rows state |
| `Decisions.BlockedIff` | src/home_dns/core/policy.py:122-170 | a name is blocked exactly when no protected scope holds it, no allow rule or regex of the group speaks for it, and a deny rule, a deny regex or a list of the policy of the group speaks against it; groups, expiry, scopes and entries spelled out |
| `Decisions.ReasonIff` | src/home_dns/core/policy.py:122-170 | each of the seven reasons holds exactly under its own condition and none of the earlier ones |
| `Decisions.MatchedIs` | src/home_dns/core/policy.py:129-170 | a decision names the first protected domain, rule or pattern that speaks, in the order of the file, or every list that blocks the name, in the order of the policy |
| `Decisions.RefusedIff` | src/home_dns/core/policy.py:97-124 | refused are, in this order, an undefined group, a group whose policy is undefined, and a text that is no domain; the last definition of an id counts |
| `Policy.ListedIffBlocked` | src/home_dns/core/policy.py:71-74 | the look-up by parents finds exactly the entries that cover the name |
| `Policy.MatchedIffSomeListBlocks` | src/home_dns/core/policy.py:155-162 | the matched sources are not empty exactly when some list of the policy has an entry that covers the name |
| `Policy.BlockedByListMeansCovered` | src/home_dns/core/policy.py:137-170 | without the protected step, the reason is a list exactly when a list covers the name and no allow or deny rule or regex speaks first |
| `Policy.CheckedGroupsDecide` | src/home_dns/core/policy.py:97-127 | for a configuration without errors the DEFAULT group exists, and a decision is made exactly for a defined group and a name that normalizes: no look-up can fail |
| `Policy.ProtectedStepOnlyStopsRegexes` | src/home_dns/core/policy.py:129-153 | for a configuration without errors and lists without hits, leaving out the protected step blocks a protected name exactly when a live deny regex matches it and no allow comes first |
| `Policy.CheckedRegexesSpareProtectedDomains` | src/home_dns/core/filtering.py:402-412 | after the check no deny regex matches a protected domain itself |
| `Policy.CheckSparesNameIff` | src/home_dns/core/filtering.py:402-412 | the check keeps every live deny regex of a group off a name in a protected scope, whatever the regexes match, exactly when the name is itself a protected domain or the group has no live deny regex |
| `Policy.OnlyTheProtectedStepSaves` | src/home_dns/core/policy.py:129-153 | after the check, some meaning of the patterns still blocks a name in a protected scope as soon as the protected step is left out, exactly when the name is not itself a protected domain, the group has a live deny regex, and no allow rule covers the name |
| `Policy.DenyRegexBelowProtectedPassesTheCheck` | src/home_dns/core/filtering.py:402-412 | a concrete configuration without a single issue, with its DEFAULT group, where it happens |
| `Policy.ProtectedNamesAreAllowed` | src/home_dns/core/policy.py:122-136 | the reason is "protected" exactly for names in a protected scope, and then the verdict is allowed |
| `ArtifactStore.Store.AtomicWrite` | src/home_dns/storage/artifacts.py:76-83 | a write is three directory states: torn temporary, complete temporary, renamed; the call that raises leaves those before it |
| `ArtifactStore.Store.Prunable` | src/home_dns/storage/artifacts.py:151-160 | lists exactly the store-named files outside the kept hashes, and the artifact temporaries |
| `ArtifactStore.Store.Prune` | src/home_dns/storage/artifacts.py:162-168 | unlinks one by one and skips what raises |
| `ArtifactStore.Store.Activate` | src/home_dns/storage/artifacts.py:170-196 | the sequence of directory states of an activation, its refusals (a corrupt state, a failed verification, a write that raises) and its result; a call that raises leaves the steps done so far; a dry run changes nothing |
| `Versions.ActivationShifts` | src/home_dns/storage/artifacts.py:175-188 | a completed activation makes the new text current, the old current previous and the old previous the backup; the text that is current already changes nothing |
| `Versions.LastThreeNewestFirst` | src/home_dns/storage/artifacts.py:170-188 | from an empty store, after activations of texts none of which repeats the one before it, the pointers are the last three texts, newest first |
| `Versions.LastThreeAreReadable` | src/home_dns/storage/artifacts.py:170-188 | each of the three is there with its own text and its metadata |
| `Versions.OnlyThreeRemain` | src/home_dns/storage/artifacts.py:151-188 | an activation in which every unlink succeeds leaves, of the files the store can name, exactly the text and the metadata of the three |
| `Versions.RollbackExchanges` | src/home_dns/storage/artifacts.py:198-207 | a rollback exchanges current and previous and keeps the backup |
| `Versions.RollbackUndoesActivation` | src/home_dns/storage/artifacts.py:198-207 | a rollback after an activation makes the version active just before it current again, verified |
| `ArtifactStore.Store.Rollback` | src/home_dns/storage/artifacts.py:198-207 | refuses exactly without an intact previous artifact, when its metadata does not parse or when a write raises, otherwise swaps the first two pointers |
| `ArtifactStore.Store.Reconcile` | src/home_dns/storage/artifacts.py:209-229 | the pointers never change; only what they do not name is unlinked |
| `StoreSafety.ActivateIsSound` | src/home_dns/storage/artifacts.py:170-196 | at every step of an activation the three pointers are the old or the new ones and each names a verified artifact with its metadata; the last step has the new ones |
| `StoreSafety.RollbackIsSound` | src/home_dns/storage/artifacts.py:198-207 | at every step of a rollback the directory is sound and the pointers are the old or the swapped ones; the last step has the swapped ones |
| `ArtifactStore.StepsAreACut` | src/home_dns/storage/artifacts.py:170-188 | an activation that raises leaves a directory that a crash could have left |
| `StoreSafety.ActivateLosesOnlyGarbage` | src/home_dns/storage/artifacts.py:151-188 | nothing an activation removes is named by the state on disk at that moment |
| `StoreSafety.CallIsSound` | src/home_dns/storage/artifacts.py:170-229 | every step of every call is sound and loses only files no pointer names |
| `StoreSafety.EveryRunIsSound` | src/home_dns/storage/artifacts.py:170-229 | from a sound directory, whatever is called and wherever each call crashes, the directory is sound: verified artifacts behind all pointers, current differs from previous, a backup only with a previous |
| `StoreSafety.RunsFromAnEmptyStore` | src/home_dns/storage/artifacts.py:170-229 | so it is in every run from an empty store |
| `StoreSafety.RetriesRotateAtMostOnce` | src/home_dns/storage/artifacts.py:170-196 | an activation cut off any number of times has rotated the pointers at most once |
| `StoreSafety.RetriedActivationRotatesOnce` | src/home_dns/storage/artifacts.py:170-196 | retried to completion it ends in the pointers of one uninterrupted call |
| `StoreSafety.RollbackIsItsOwnInverse` | src/home_dns/storage/artifacts.py:198-207 | rolling back twice restores the directory, less a leftover temporary state file |
| `StoreSafety.ReconcileLeavesRetained` | src/home_dns/storage/artifacts.py:209-229 | one complete reconcile leaves exactly the retained artifacts and their metadata among the files the store can name |
| `StoreSafety.VersionsKept` | src/home_dns/storage/artifacts.py:172-178 | an activation over two versions keeps three exactly when the new text is not the previous one |
| `MockProvider.MatchesIffBlocked` | src/home_dns/providers/mock.py:155-166 | the look-up by ancestor set matches a list exactly when an entry covers the name |
| `MockProvider.MockDnsProvider.LookupDomain` | src/home_dns/providers/mock.py:155-167 | the matched sources are the deployed lists that block the name; blocked means there is one |
| `MockProvider.MockDnsProvider.DeployBlocklist` | src/home_dns/providers/mock.py:146-153 | a deployment replaces the list of its source and reports its size; a dry run replaces nothing |
| `Pipeline.EarlyStages` | src/home_dns/pipeline/blocklists.py:166-193 | stages 1 to 3 stop at their first failure |
| `Pipeline.ListStages` | src/home_dns/pipeline/blocklists.py:195-261 | stages 4 to 7 stop at their first failure |
| `Pipeline.Attempt` | src/home_dns/pipeline/blocklists.py:152-261 | a mirror is accepted exactly when none of its seven gates fails, and then with the parse of its text |
| `Pipeline.AcceptsIff` | src/home_dns/pipeline/blocklists.py:166-261 | none of them fails exactly for a plain-text answer of allowed size with the right first line, not too old and not from the future, with rules, not too many of them invalid, and as many as it declares |
| `Pipeline.VerdictsAre` | src/home_dns/pipeline/blocklists.py:166-261 | the seven verdicts on a text: those on the answer, then those on the list |
| `Pipeline.EarlyVerdictsAre` | src/home_dns/pipeline/blocklists.py:166-193 | the first three verdicts, stage by stage |
| `Pipeline.LateVerdictsAre` | src/home_dns/pipeline/blocklists.py:195-261 | the other four, with the warning for invalid rules that are tolerated |
| `Pipeline.FirstAcceptedIff` | src/home_dns/pipeline/blocklists.py:290-299 | the list taken is that of the first acceptable mirror |
| `Pipeline.FirstLineIs` | src/home_dns/pipeline/blocklists.py:196-196 | the line looked at is the first that is not blank |
| `Pipeline.UpToFailureShape` | src/home_dns/pipeline/blocklists.py:139-144 | a report is a prefix of the gates and only its last stage can have failed |
| `Pipeline.AcceptedListIsNormalized` | src/home_dns/pipeline/blocklists.py:290-299 | the accepted list has only entries in normal form |
| `Pipeline.SampleIndexGrows` | src/home_dns/pipeline/blocklists.py:268-269 | the stepped sample indices are strictly increasing and in range |
| `Pipeline.HealthSampleIsDistinct` | src/home_dns/pipeline/blocklists.py:264-269 | a sample of a positive size has min(size, n) different entries of the list |
| `Update.TryMirrors` | src/home_dns/pipeline/blocklists.py:290-299 | the mirrors are tried in order up to the first accepted one, each with its report |
| `Update.TripwireStage` | src/home_dns/pipeline/blocklists.py:336-366 | fails exactly on a hit, or on an empty protected set unless it is a dry run |
| `Update.SyntaxStage` | src/home_dns/pipeline/blocklists.py:368-385 | the rendered artifact always round-trips: this gate never fails |
| `Update.HealthStage` | src/home_dns/pipeline/blocklists.py:471-500 | passes exactly when the provider is healthy, every sampled entry is matched by the source and no protected domain is blocked |
| `Update.CheckAndActivate` | src/home_dns/pipeline/blocklists.py:336-534 | stages 8 to 13: the report is the gates up to the first failure, the outcome follows it, the store changes exactly when every gate passed and it is no dry run |
| `Update.Review` | src/home_dns/pipeline/blocklists.py:392-501 | stages 10 to 12 stop at their first failure; an exception leaves exactly for a sample size of zero after health() answered |
| `Update.ReviewAndActivate` | src/home_dns/pipeline/blocklists.py:392-534 | the same for stages 10 to 13 |
| `Update.ActivateStage` | src/home_dns/pipeline/blocklists.py:502-520 | activation passes, is skipped on a dry run, or fails on the integrity check or on a write that raises |
| `Update.SuccessMeansNoFailure` | src/home_dns/pipeline/blocklists.py:387-534 | the outcome is activated, would-activate or unchanged exactly when no stage failed |
| `Outcomes.SanityIff` | src/home_dns/core/blocklists.py:316-349 | an empty list fails and no other; a list is an anomaly exactly when it is not empty and is smaller than the minimum, larger than the maximum, or adds or removes more than the approved share of the previous list, each spelled out by set sizes |
| `Outcomes.OutcomeIff` | src/home_dns/pipeline/blocklists.py:336-534 | each outcome of an update that reports holds exactly under its own condition on the entries, the limits, the active list and the answers of the test provider; held for review: limits exceeded without acceptance |
| `Outcomes.VerdictsHold` | src/home_dns/pipeline/blocklists.py:336-534 | the six verdicts of a report on a new list, stage by stage, with their warnings |
| `Outcomes.RaisesIff` | src/home_dns/pipeline/blocklists.py:392-476 | an exception leaves exactly when the active artifact has metadata or a count line that does not parse, or the health check meets a sample size of zero |
| `Outcomes.SoundStoresAccept` | src/home_dns/storage/artifacts.py:170-188 | a sound directory takes every list unless a write raises |
| `UpdateSafety.UpdateSource` | src/home_dns/pipeline/blocklists.py:272-534 | one update: nothing changes without an accepted mirror; otherwise report and directory follow the gates and the outcome holds by its own condition; every directory change is an update step of a clean list, and only an activation, complete or failed, changes the directory |
| `UpdateSafety.EveryRetainedVersionIsClean` | src/home_dns/pipeline/blocklists.py:336-379 | over every history of updates, rollbacks and clean-ups, crashes included, each retained version is verified and parses to a non-empty list without tripwire hits |
| `UpdateSafety.NoProtectedNameIsEverBlocked` | src/home_dns/pipeline/blocklists.py:502-534 | no version that is active, or that a rollback could make active, blocks a name in a protected scope |
| `UpdateSafety.RollbackUnderAnotherProtectedSet` | src/home_dns/storage/artifacts.py:198-207 | against another protected set, what a rollback makes active is clean exactly when the tripwire finds nothing in the previous version |
| `UpdateSafety.RollbackBlocksIff` | src/home_dns/storage/artifacts.py:198-207 | so after a rollback some name in a protected scope is blocked exactly when the tripwire, run on the previous version before it, would have reported something |
| `UpdateSafety.RollbackCanBlockANewlyProtectedName` | src/home_dns/storage/artifacts.py:198-207 | a rollback does block a domain protected since, whenever the previous version lists it |
| `UpdateSafety.RollbackExposureExists` | src/home_dns/storage/artifacts.py:198-207 | one concrete store where it happens |
| `UpdateSafety.CleanListsPassOnAFreshMock` | src/home_dns/pipeline/blocklists.py:443-501 | a list without hits always passes test deployment and health check on a fresh healthy mock |
| `Metrics.Rollup.Add` | src/home_dns/core/metrics.py:40-51 | adding a query merges the rollup of that one query |
| `Metrics.Rollup.MergeFrom` | src/home_dns/core/metrics.py:53-62 | merging adds all counters, bins and sources |
| `Metrics.Rollup.LatencyPercentile` | src/home_dns/core/metrics.py:74-88 | the error for percentiles outside (0, 100], none without samples, else the bound of the bin the running sum reaches |
| `Metrics.FindRank` | src/home_dns/core/metrics.py:82-88 | the loop always returns inside: the final return is unreachable |
| `Metrics.BinIndexIsMonotone` | src/home_dns/core/metrics.py:91-95 | a longer latency never falls into an earlier bin |
| `Metrics.MergeCommutes` | src/home_dns/core/metrics.py:53-62 | merge is commutative |
| `Metrics.MergeAssociates` | src/home_dns/core/metrics.py:53-62 | merge is associative |
| `Metrics.TallyConcat` | src/home_dns/core/metrics.py:40-62 | the rollup of two batches is the merge of their rollups |
| `Metrics.TallyIgnoresOrder` | src/home_dns/core/metrics.py:40-51 | a rollup depends only on the multiset of queries |
| `Percentiles.TallyCounts` | src/home_dns/core/metrics.py:40-51 | every counter of a rollup is the number of queries it claims to count; blocked is the sum over the sources |
| `Percentiles.TallyHistogram` | src/home_dns/core/metrics.py:50-51 | every bin holds the number of latencies that fall into it |
| `Percentiles.OrderStatisticBin` | src/home_dns/core/metrics.py:74-88 | the k-th smallest sample lies below a bin exactly when k samples do |
| `Percentiles.PercentileIsNearestRank` | src/home_dns/core/metrics.py:74-88 | a percentile is the bound of the bin of the nearest-rank order statistic of all latencies, sorted |
| `Percentiles.PercentileRoundsUpNearestRank` | src/home_dns/core/metrics.py:74-95 | in numbers: with k least such that 100 k is not below p n, a percentile is the least bound the k-th smallest latency does not exceed, and the last bound for a latency beyond them all |
| `Percentiles.NoPercentileWithoutSamples` | src/home_dns/core/metrics.py:79-81 | there is no percentile exactly when no query had a latency |
| `Buckets.BucketsTile` | src/home_dns/core/metrics.py:98-115 | a moment lies in [start, end) of a bucket exactly when that is its bucket, at every resolution |
| `Buckets.BucketsAre` | src/home_dns/core/metrics.py:98-115 | minutes and hours begin and end where the clock does, days at local midnights |
| `Buckets.Rebucket` | src/home_dns/collector.py:204-208 | bucketing the minute start of a moment gives the bucket of the moment |
| `Buckets.BucketsAreWholeMinutes` | src/home_dns/core/metrics.py:98-115 | buckets begin and end on whole minutes |
| `Paging.ReadWindow` | src/home_dns/collector.py:190-198 | following cursors to the end terminates and yields the whole log in order |
| `Paging.FollowIsPrefix` | src/home_dns/collector.py:190-198 | any number of pages is a prefix: no gap and no repeat at any page boundary |
| `MockQueryLog.MinuteIdsAreDistinct` | src/home_dns/providers/mock.py:68-70 | no two queries of a minute share an id |
| `MockQueryLog.DeviceMinuteIs` | src/home_dns/providers/mock.py:176-203 | a device makes at most 19 queries in a minute, the first ones drawn, each at its offset |
| `MockQueryLog.FullLogIsExact` | src/home_dns/providers/mock.py:235-261 | the log of a filter holds exactly the kept queries of every device, strictly falling by id |
| `MockQueryLog.OneDeviceIsEnough` | src/home_dns/providers/mock.py:211-221 | generating only the device an address can belong to changes no answer |
| `MockQueryLog.CursorWalk` | src/home_dns/providers/mock.py:244-261 | starting at the minute of the cursor loses nothing below it |
| `MockQueryLog.QueryLog` | src/home_dns/providers/mock.py:235-265 | a page is the specified page; limits outside 1..1000 are refused |
| `MockQueryLog.MockPagesTheLog` | src/home_dns/providers/mock.py:235-265 | for every filter and limit, cursor by cursor the whole filtered log is served without gaps or repeats |
| `MockQueryLog.ReadMockWindow` | src/home_dns/collector.py:190-198 | so the reading loop returns exactly the filtered log |
| `MockQueryLog.AdjacentLogs` | src/home_dns/providers/mock.py:235-261 | the logs of two adjacent windows, the later one first, are the log of the whole: the mock never reads a query twice or loses one at an edge |
| `MockRuns.MockAnswersItsWindow` | src/home_dns/providers/mock.py:222-261 | what the mock regenerates for a window is that window of its log of any longer stretch |
| `MockRuns.MockRunsAreHonest` | src/home_dns/collector.py:168-178 | so every run of the collector against the mock is a run against one fixed log, and all that is said of such runs holds |
| `PiholeQueryLog.QueryLog` | src/home_dns/providers/pihole_v6.py:377-433 | a page of the adapter is the specified page; bad limits and cursors are refused |
| `PiholeQueryLog.ScanReads` | src/home_dns/providers/pihole_v6.py:400-428 | a scan returns the wanted entries between its offsets, and stops early only with enough of them |
| `PiholeQueryLog.WantedCounts` | src/home_dns/providers/pihole_v6.py:400-428 | wanted are the entries of the outcome asked for, or all, each as often as the server lists it |
| `PiholeQueryLog.PiholePagesTheLog` | src/home_dns/providers/pihole_v6.py:377-433 | over a list that does not change, the offset cursor serves every wanted entry once, in order |
| `PiholeQueryLog.ReadPiholeWindow` | src/home_dns/collector.py:190-198 | so the reading loop returns exactly the wanted entries of the list |
| `PiholeQueryLog.AdjacentWindows` | src/home_dns/providers/pihole_v6.py:388-391 | two adjacent windows read the entries at their common edge twice when the server counts both ends in, never when it leaves both out, once otherwise |
| `PiholeQueryLog.ReadsEachEntryOnceIff` | src/home_dns/providers/pihole_v6.py:388-391 | they read every entry once exactly when the server counts one end in and leaves the other out, or nothing is at the edge |
| `PiholeQueryLog.AnswersTheWindowIff` | src/home_dns/providers/pihole_v6.py:388-391 | an answer is the window meant exactly when the server treats each end as meant or nothing was logged in that second |
| `Dashboard.DashboardStore.Flush` | src/home_dns/storage/dashboard.py:374-434 | all or nothing: the new contents are the upserts, merges and deletions in order, or the old contents on any error |
| `Dashboard.ApplyDevices` | src/home_dns/storage/dashboard.py:377-394 | device upserts one by one, refused on a MAC held by another row |
| `Dashboard.ApplyAddresses` | src/home_dns/storage/dashboard.py:395-400 | address upserts one by one, refused on an unknown device |
| `Dashboard.ApplyRollups` | src/home_dns/storage/dashboard.py:549-575 | rollup merges one by one, refused on an unknown device |
| `Dashboard.UpsertDevicesKeep` | src/home_dns/storage/dashboard.py:377-394 | upserts keep MACs unique, never touch the name and group people gave, never raise first_seen or lower last_seen |
| `Dashboard.UpsertLeaves` | src/home_dns/storage/dashboard.py:377-394 | a new device enters without a name of its own in the DEFAULT group; of a stored one MAC and host name are overwritten but never erased; refused exactly on a MAC of another row |
| `Dashboard.CommitKeepsConsistency` | src/home_dns/storage/dashboard.py:56-87 | a committed flush keeps unique MACs and foreign keys and stores its watermark |
| `Dashboard.DashboardStore.RenameDevice` | src/home_dns/storage/dashboard.py:350-355 | changes exactly the name of an existing device |
| `Dashboard.DashboardStore.AssignGroup` | src/home_dns/storage/dashboard.py:357-362 | changes exactly the group of an existing device |
| `Registry.DeviceRegistry.ObserveClient` | src/home_dns/collector.py:72-94 | MAC first, then the first address whose device has no other MAC, else a new device; the new registry is the specified one |
| `Registry.DeviceRegistry.ResolveAddress` | src/home_dns/collector.py:96-105 | a bound address keeps its device, another gets a new one; the new registry is the specified one |
| `Registry.DeviceRegistry.FindHolder` | src/home_dns/collector.py:76-81 | the search stops at the first address that may be the client |
| `Registry.DeviceRegistry.Pending` | src/home_dns/collector.py:107-117 | one row for each dirty device and each dirty address and none else, in ascending order, with what the registry now says of it |
| `Registry.ObservedKeeps` | src/home_dns/collector.py:72-94 | afterwards the device carries the MAC and holds all addresses of the client; no known device, MAC or binding is lost |
| `Registry.ResolvedKeeps` | src/home_dns/collector.py:96-105 | a known address resolves to its device and a new one to a device that did not exist |
| `Sightings.ClientIs` | src/home_dns/collector.py:72-86 | a client is the device that has its MAC; else that of its first address whose device has no MAC or the same; else a new device with the next id |
| `Sightings.ClientLeaves` | src/home_dns/collector.py:72-94 | every field afterwards: MAC, host name and dates of its device, the bindings of its addresses, what is dirty; nothing else changes |
| `Sightings.AddressLeaves` | src/home_dns/collector.py:96-105 | the same for a resolved address: its device was last seen no earlier than the query, a new one first and last then |
| `Registry.MacsNeverShareADevice` | src/home_dns/collector.py:72-94 | a device that has a MAC is never taken for a client with another one |
| `Registry.FlushAlwaysCommits` | src/home_dns/collector.py:107-122 | a flush of a registry in step with the store violates no constraint at any statement, and leaves them in step |
| `Registry.FlushDevices` | src/home_dns/storage/dashboard.py:377-394 | UNIQUE(mac) holds at every device statement of such a flush, and the rows written are exact |
| `Registry.FlushAddresses` | src/home_dns/storage/dashboard.py:395-400 | the foreign key holds at every address statement, and each binding gets its latest sighting |
| `Registry.ReloadAfterFlush` | src/home_dns/collector.py:46-57 | a restart after a committed flush rebuilds the registry, less exactly the addresses last seen before the retention cutoff |
| `Registry.NextId` | src/home_dns/collector.py:59-60 | a new id is above every id in use |
| `Collector.Collector.Poll` | src/home_dns/collector.py:153-188 | no backfill on the first poll, nothing on a failed or empty one, else clients then entries, then the new watermark |
| `Collector.Collector.Flush` | src/home_dns/collector.py:200-229 | the batch of three rows a pending minute; after a failure everything is kept |
| `Collector.Collector.constructor` | src/home_dns/collector.py:130-151 | a start takes registry and watermark from the store and has nothing pending |
| `Attribution.Partition` | src/home_dns/core/metrics.py:53-62 | a rollup is the sum of the rollups of its parts, however it is cut |
| `PendingSums.AbsorbedIs` | src/home_dns/collector.py:171-178 | the pending minutes are the rollups of the queries read since the last flush, by minute and device |
| `PendingSums.BatchAdds` | src/home_dns/collector.py:204-208 | a flush adds to each minute, hour and day row exactly the rollup of the read queries of its bucket and device |
| `PendingSums.MergedRows` | src/home_dns/storage/dashboard.py:549-575 | each row ends as the merge of its old value and everything the batch adds to it |
| `CollectorRuns.AliveIffUnexpired` | src/home_dns/collector.py:216-220 | a bucket is kept exactly when no committed flush came later than its start plus the retention of its resolution: minutes, hours and days each by their own |
| `CollectorRuns.RowHoldsItsCredits` | src/home_dns/collector.py:204-220 | in every run such a row holds exactly the queries credited to its device and bucket |
| `CollectorRuns.ExpiredIsGone` | src/home_dns/collector.py:216-220 | after a committed flush, and until the next, no row older than the retention of its resolution is stored, and no address last seen before the retention of days |
| `ExactlyOnce.StepIsSafe` | src/home_dns/collector.py:153-229 | every poll, flush, crash with restart and edit keeps registry and store in step |
| `ExactlyOnce.FlushCommits` | src/home_dns/collector.py:200-226 | a flush fails only when the database itself fails |
| `ExactlyOnce.StepIsExact` | src/home_dns/collector.py:153-229 | every step keeps the account: stored rows are the rollups of the log from the beginning of the account up to the stored watermark, memory those of the rest; a restart that finds no watermark stored begins a new account |
| `CollectorRuns.EveryRunIsExact` | src/home_dns/collector.py:153-229 | the account, begun at the first watermark since the last restart that found none stored, holds after every run |
| `CollectorRuns.ExactlyOnceInEveryRun` | src/home_dns/collector.py:153-229 | in every run each bucket that no committed flush found older than its retention shows, summed over devices, exactly the log entries that fall into it, each once, from the beginning of the account up to the stored watermark; for windows that count either end |
| `ColdStarts.WarmRunsLoseNothing` | src/home_dns/collector.py:153-189 | when every restart finds a stored watermark or comes before any poll, each bucket shows exactly the queries from the first poll of all up to the stored watermark: nothing lost, nothing twice |
| `ColdStarts.BeginsAtFirstPollIff` | src/home_dns/collector.py:159-163 | when no later poll shows the moment of the first one or an earlier one, the account begins at the first poll of all exactly when every restart finds a stored watermark or comes before any poll |
| `ColdStarts.StoredIffCommitted` | src/home_dns/collector.py:200-229 | a watermark is stored exactly when a flush has committed |
| `ColdStarts.StoresEverythingIff` | src/home_dns/collector.py:159-163 | over every run the stored queries are those from the first poll of all exactly when the log holds none between that poll and the beginning of the account |
| `ColdStarts.ShowsEverythingIff` | src/home_dns/collector.py:159-163 | the same for what a bucket shows: only the queries of the bucket in between are missing |
| `ColdStarts.ColdCrashLosesQueries` | src/home_dns/collector.py:159-163 | a run, for any query, in which it is read and credited and then in no row: the crash came before the first flush |
| `CollectorRuns.BatchingDoesNotMatter` | src/home_dns/collector.py:200-229 | two runs over one log with the same first and last watermark show the same sums over all devices, however they polled, batched, failed or crashed |
| `RowRuns.BatchingKeepsEveryRow` | src/home_dns/collector.py:200-229 | two runs with the same polls store the same devices and the same row of every device in every bucket not yet expired, however the polls were batched into flushes, whichever flushes failed and whatever people edited, as long as no restart lost anything |
| `RowRuns.OnlyPollsDecide` | src/home_dns/collector.py:171-178 | who is who and which device each query is credited to follow from the polls alone |
| `RowRuns.LosslessAfterFlushIff` | src/home_dns/collector.py:46-57 | right after a flush a restart loses nothing exactly when no known address has expired |
| `CollectorRuns.RowsAreSumsOfMinutes` | src/home_dns/collector.py:204-208 | while its minutes are kept, every hour and day row is the sum of its minute rows, whatever the provider answers |
| `CollectorRuns.StoreOnlyGrows` | src/home_dns/storage/dashboard.py:374-434 | over every run, whatever the provider answers, the stored watermark never moves back, no stored device disappears and no stored MAC changes |
| `DeviceRuns.KeepsItsMacIff` | src/home_dns/collector.py:72-122 | over a run a device keeps its MAC in memory exactly when, before every restart, it was stored or a flush committed |
| `DeviceRuns.StoredMacIsForEver` | src/home_dns/collector.py:46-57 | once stored, a device has its MAC in every later state of the run, in the store and in memory |
| `DeviceRuns.SameDeviceIffSameMac` | src/home_dns/collector.py:72-94 | two clients with MACs, in two polls of a run, get one device exactly when they have one MAC, provided the first device was stored or a flush committed before every restart in between |
| `DeviceRuns.SameDeviceInOnePoll` | src/home_dns/collector.py:72-94 | the same for two clients of one poll, with no condition |
| `DeviceRuns.QueriesGoToTheirClients` | src/home_dns/collector.py:171-178 | clients are observed before the queries are credited: a query goes to the device of the last client of the poll that lists its address |
| `DeviceRuns.OneAddressOneDevice` | src/home_dns/collector.py:96-105 | the queries of one address go to one device within a poll |
| `DeviceRuns.EveryRunIsNumbered` | src/home_dns/collector.py:59-60 | in every run the ids in memory and in the store are 1, 2, 3 and so on without gaps |
| `DeviceRuns.CrashReusesAnIdIff` | src/home_dns/collector.py:46-60 | after a crash the next unknown client gets an id that was in use before exactly when some device had not been stored; nothing stored refers to that id |
| `CollectorRuns.EveryFlushCommits` | src/home_dns/storage/dashboard.py:374-434 | in every reachable state the constraints hold and the next flush commits unless the database fails |
| `CollectorRuns.PiholeIsHonestIff` | src/home_dns/providers/pihole_v6.py:388-391 | the adapter answers a poll with exactly its window, one end counted in, if and only if the server treats each end the same way or nothing was logged in that second |
| `RegexScanner.FindBracketEnd` | src/home_dns/core/regex.py:31-53 | finds the closing bracket; the branch for an empty bracket expression is unreachable |
| `RegexScanner.Validate` | src/home_dns/core/regex.py:56-128 | the scanning loop terminates and accepts exactly what its step-by-step specification accepts |
| `RegexScanner.ScanItem` | src/home_dns/core/regex.py:65-124 | one turn of the loop is one step of the specification, branch by branch |
| `RegexGrammar.BracketReads` | src/home_dns/core/regex.py:31-53 | an accepted bracket expression is the printed form of valid items |
| `RegexGrammar.IntervalReads` | src/home_dns/core/regex.py:108-119 | an accepted interval is the printed form of its bounds |
| `RegexLanguage.AcceptsExactlyTheGrammar` | src/home_dns/core/regex.py:56-128 | the scan accepts a pattern exactly when it is the printed form of a valid syntax tree without upper-case letters |
| `RegexLanguage.StepParses` | src/home_dns/core/regex.py:65-124 | one step of the scan is one step of a parser that builds the tree of everything read so far |
| `RegexLanguage.RegexScans` | src/home_dns/core/regex.py:65-124 | scanning the printed form of a valid tree never fails and leaves depth as it was |
| `RegexLanguage.TreesAreAccepted` | src/home_dns/core/regex.py:56-128 | every valid tree without upper-case letters prints to an accepted pattern |
| `RegexLanguage.ReversedRangeIsAccepted` | src/home_dns/core/regex.py:31-53 | the scan does not look at the order of a range inside brackets |
| `RegexLanguage.IntervalAcceptedIff` | src/home_dns/core/regex.py:108-119 | an interval {m,n} after an atom is accepted exactly when m <= n <= 255 |
| `Monitoring.OpenIffConfirmedAndNotRecovered` | src/home_dns/core/monitoring.py:70-139 | after every history the incident is open exactly when some run of incident_after problems is not followed by a run of recovered_after OKs; the counters are the runs at its end |
| `Monitoring.NoticesAlternate` | src/home_dns/core/monitoring.py:81-131 | OPENED and RECOVERED alternate, OPENED first |
| `Monitoring.OpenIncidentKeepsItsDates` | src/home_dns/core/monitoring.py:81-119 | opened_at stays the moment of the OPENED through every relapse; last_notified_at is the last OPENED or REMINDER |
| `Monitoring.RemindersRespectTheCooldown` | src/home_dns/core/monitoring.py:98-109 | with a clock that never goes back a reminder comes at least the cooldown after every earlier OPENED or REMINDER, and never without a cooldown |
| `Monitoring.RemindedIff` | src/home_dns/core/monitoring.py:98-109 | a reminder is sent exactly for a problem right after a problem of an open incident, when there is a cooldown and it has passed since the last OPENED or REMINDER |
| `Monitoring.NoticedIff` | src/home_dns/core/monitoring.py:79-131 | OPENED is sent exactly when the incident opens and RECOVERED exactly when it closes |
| `Monitoring.StateIs` | src/home_dns/core/monitoring.py:79-139 | the four states, by whether the incident is open and whether the last result was a problem |
| `Monitoring.FieldsAre` | src/home_dns/core/monitoring.py:79-139 | nothing is kept of a quiet check; otherwise the moment of the last result, and opened_at only while the incident is open |
| `Monitoring.AdvancesIff` | src/home_dns/core/monitoring.py:70-76 | only a result of the check itself advances its incident |
| `Notify.DecidesAsTheFullHistory` | src/home_dns/core/notify.py:63-84 | with a clock that never goes back the trimmed state decides as a scan of everything ever sent would |
| `Notify.SameKeySendsAreApart` | src/home_dns/core/notify.py:67-73 | two sends of one key are never closer than the cooldown |
| `Notify.NoHourExceedsTheLimit` | src/home_dns/core/notify.py:75-84 | no window (x, x + 1 h] holds more sends than the limit |
| `LoginLimiter.LoginRateLimiter.Recent` | src/home_dns/core/auth.py:106-114 | pops what left the window, forgets an empty queue, returns what is left |
| `LoginLimiter.LoginRateLimiter.IsLocked` | src/home_dns/core/auth.py:116-117 | locked means at least max_failures are left |
| `LoginLimiter.LoginRateLimiter.RecordFailure` | src/home_dns/core/auth.py:119-121 | prunes, then appends the failure |
| `LoginLimiter.LoginRateLimiter.Reset` | src/home_dns/core/auth.py:123-124 | forgets exactly one key |
| `LoginLimiter.LockedIffEnoughYoungFailures` | src/home_dns/core/auth.py:106-124 | over every history with a clock that never goes back a key is locked exactly when at least max_failures failures since its last reset are younger than the window |
| `LoginLimiter.NoEmptyQueues` | src/home_dns/core/auth.py:112-114 | no empty queue is kept |
| `Heartbeat.BuildHeartbeat` | dashboard/frontend/src/lib/heartbeat.ts:16-65 | the sweep gives every day the severity of the events up to its end, unknown before the first |
| `Heartbeat.DayHolds` | dashboard/frontend/src/lib/heartbeat.ts:16-30 | days begin at midnight, UTC |
| `Heartbeat.DayIsTheLatestOfEachCheck` | dashboard/frontend/src/lib/heartbeat.ts:43-61 | from the first event on, a day is critical, warning or ok by the latest event of each check up to its end |
| `Heartbeat.LatestEventDecides` | dashboard/frontend/src/lib/heartbeat.ts:43-54 | a check is open after some events exactly when its latest one is an opening |
| `Heartbeat.SortByTimeSorts` | dashboard/frontend/src/lib/heartbeat.ts:34-36 | the sort is ascending by time and keeps every event |
| `IncidentLog.LogFollowsIncidents` | src/home_dns/cli.py:1252-1269 | the recorded log opens and closes each check exactly when its incident does |
| `IncidentLog.ShownIsFirstOfTie` | src/home_dns/storage/dashboard.py:472-497 | listed newest first and sorted stably, the strip takes for each check the first of the events tied at its latest moment |
| `IncidentLog.StripIsRightIffTiesAgree` | dashboard/frontend/src/lib/heartbeat.ts:34-54 | for every check and day the strip is right exactly when the first and the last of those tied events agree |
| `IncidentLog.TiedRecoveryIsNotShown` | dashboard/frontend/src/lib/heartbeat.ts:34-54 | an incident opened and recovered in the same second keeps being shown as open |
| `IncidentLog.DayIsOkIffNothingIsOpen` | dashboard/frontend/src/lib/heartbeat.ts:16-65 | when no two events share a moment, a day from the first event on is not ok exactly when the incident of some check was open at its end |

## Left out

- NormalizeIsIdempotent: covers ASCII names only; for others normalization answers None, IDNA encoding is not modelled.
- WrittenEntriesAreNormalized: likewise, entries outside ASCII count as invalid instead of being IDNA-encoded.
- ParseList: leaves the header fields of the result out (title, dates, declared count); they are parameters of the gates.
- FindTripwireHits: does not state the order of the reported hits, which the source sorts last for display.
- Prunable: does not state the order of the listed files; file names have no order here, and no proof depends on it.
- UpdateSource: leaves out alerts, statistics and message texts.
- CheckAndActivate: likewise.
- AcceptsExactlyTheGrammar: the scan leaves the order of a range inside brackets to the compilation after it, and so does the grammar.
- Validate: ends with the scan; compiling the pattern and searching the empty string, which follow it, are calls into the regex engine.
- Collector.Poll: leaves out the anomaly analyzer, whose failures the source swallows.
- Collector.Flush: leaves out the pending anomalies of the batch.
- DashboardStore.Flush: leaves out the anomaly rows and their retention.
- Decide: which names a regex matches is a parameter.
- HTTP fetching, and more than one source directory: sources never share files, and `run_update` only loops.
- Invalid source ids and malformed hashes, which the store refuses before it touches a file.
- Text of cursors (they are numbers here), moments before 1970, and malformed items of the Pi-hole.
- The field of a query that nothing here reads (its type).
- Artifact files whose bytes are not UTF-8: reading them raises another error than the failed integrity check of the model.
- Fractions of a second in entries and sightings: the store truncates them to seconds.
- The anomaly table, users, sessions and migrations of the dashboard database.
- Rollup objects held by the collector are modelled by their values: no code path shares one.
- Queries that reach the provider's log after their window was read: the log is fixed.
- The thread and the timing loop of the collector: only the interleavings of its polls and flushes.
- The limit and the start date of the listed incident events: the heartbeat gets the whole log.
- Password hashing, tokens, HTTP routes, configuration files, backups, storage thresholds, restart back-off, freshness ladder, components of the dashboard: wiring or short decision tables.
