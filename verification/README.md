# Loginom Dock and OpenViking tooling: a verified model

A Dafny model of the parts of the repository whose correctness depends on more than one line of code: the
publication of executor catalogs, the streaming reader and the path algebra of the vector benchmark, the
provenance of client sources, the life cycle of load-test tasks, a bounded asynchronous map, and the smaller
algorithms around them. Dafny verifies every file; `dafny verify dfyconfig.toml` checks all of them together.

| module | what it models |
|---|---|
| `JsonGrammar`, `JsonArrayReader`, `JsonArrayGrammar` | `iter_json_array_records` and the JSON decoder it calls, after sections 2 to 7 of RFC 8259 |
| `Paths`, `WrittenPaths`, `SyntheticPaths`, `DirectoryScope` | path normalisation, segment-prefix matching, mixed-radix paths, the scope derived from ground truth |
| `SourceTree`, `Provenance`, `StagedCopy`, `StagedTree`, `MemberNames`, `Packaging` | the pruned walk, the two cleanliness checks, the staged copy, the published archive |
| `CatalogBuild`, `CatalogValidation`, `CatalogMeaning`, `CatalogPublication`, `CatalogRerun`, `CatalogExample` | validation of a build, and the stage and activate runs against a remote store |
| `TaskDrain`, `Aggregation` | the load test's worker pools, background tasks, drains, and grouped summaries |
| `BoundedMap` | `map_bounded_as_completed` as a state machine over all schedules |
| `ConfigWriter`, `UniqueFilter`, `MetricSummary`, `RunSummary` | configuration replacement, request ranges, median and MAD, multi-run summaries |
| `Base`, `Strings`, `Sorting` | shared types, character classes, and laws of string operations and sorting |

Assumptions, stated where they are used: SHA-256 is a function, and collision-free where two checks are compared;
a store's `create` never overwrites, a batch write may stop after any prefix, a `replace` of one file is atomic,
and nothing else writes below the catalog root; clocks do not go back and a sleep lasts at least as long as asked;
reading an archive gives back the members that were added. Answers of servers, failures of file-system steps and
schedules are parameters that may be anything. Other processes may change the inputs at any time while they are packed,
and may put or remove any file of the output folder between any two steps of publishing.

## Findings

- A derived scope does not always match the paths it is derived from. For every corpus it is proved when it does: if
  and only if one of the paths that a value lists is written, slash by slash, as the scope is, where white space at
  the end of the scope is trimmed (`DirectoryScope.ScopeMatchesExactly`). So a single path matches if and only if the
  scope's last name is blank or does not end in white space and the path has no doubled slash down to the scope; and a
  path of names that are not empty and do not end in white space matches if and only if the scope holds no ';'. The
  values "/a/b;/c", "//a", and "/a /b" with "/a /c" each lose their scope
  (`ListedPathsLoseTheirScope`, `DoubledSlashLosesItsScope`, `BlankEndLosesItsScope`).
- The two cleanliness checks give different answers if and only if the Git listing matches and the tree holds an entry
  that only the walk refuses (`Provenance.ChecksAgree`), such as a linked "plugins" directory
  (`StagedCopy.LinkedPluginsPart` for the program's own lists, `Provenance.SmallTreeParts` at one tree).
- Publishing is not proof against other processes in the output folder. A failed second link leaves the archive alone
  behind if and only if the removal fails too and nobody has touched the archive; it removes a file of another process
  if and only if that process has put one at the output and the removal works; and both links can go through although
  the archive has been replaced in between (`Packaging.Packager.LinkOutputs`). `Packaging.ArchiveLeftAlone`,
  `Packaging.FileOfOthersLost` and `Packaging.ForeignArchive` show one case of each.
- Stale evidence always stops publication, but its action is reported if and only if the live commit is the catalog's
  (`CatalogBuild.StaleEvidenceStops`; `CatalogExample.DifferingCommitReportsNothing` shows the other case).
- Requests closer than the span of starting rows can share a range exactly when the span is a multiple of 997
  (`UniqueFilter.DistinctExactly`), as with 1096 rows (`UniqueFilter.SpanOfStride`).
- With fewer than ten rows the range of a request reaches past the last row (`UniqueFilter.InsideExactly`).

## Model

| member | source | states |
|---|---|---|
| `JsonGrammar.ScanSound` | benchmark/vectordb_perf/run.py:414-421 | whatever the decoder returns at a position is a well-formed value, printed there character by character, and the end it reports is the end of that text |
| `JsonGrammar.ScanComplete` | benchmark/vectordb_perf/run.py:414-421 | every well-formed value that stands at a position is decoded, whatever follows it (a number must not continue): the scanner is the inverse of the grammar |
| `JsonGrammar.ScanMembersSound` | benchmark/vectordb_perf/run.py:414-421 | members of an object or array that are scanned are well-formed and end at the matching bracket |
| `JsonGrammar.ScanMembersComplete` | benchmark/vectordb_perf/run.py:414-421 | well-formed members followed by the closing bracket are scanned to exactly that bracket |
| `JsonGrammar.ScanStable` | benchmark/vectordb_perf/run.py:414-421 | prefix stability: what is decoded in a buffer is decoded in every text around it, with the same value and end (a number stays a number) |
| `JsonGrammar.ScanAtEnd` | benchmark/vectordb_perf/run.py:414-420 | at the end of the file the buffer decodes whatever the whole text decodes, so an error there is final |
| `JsonGrammar.Bracketed` | benchmark/vectordb_perf/run.py:414-421 | every object is written in braces and every array in brackets |
| `Base.ClassesAre` | benchmark/vectordb_perf/run.py:368-368 | the members of every character class one by one; the white space of RFC 8259 is white space to the reader |
| `JsonArrayReader.SkipSpaces` | benchmark/vectordb_perf/run.py:368-369 | stops at the first character of the buffer that is no white space |
| `JsonArrayReader.Refill` | benchmark/vectordb_perf/run.py:354-363 | the buffer still is a stretch of the file, now longer, or the end of the file is known |
| `JsonArrayReader.Settle` | benchmark/vectordb_perf/run.py:365-370 | the head of the loop keeps the place in the file up to white space |
| `JsonArrayReader.ExpectEnd` | benchmark/vectordb_perf/run.py:391-398 | after the closing bracket only white space is accepted, across any number of refills |
| `JsonArrayReader.ContinueDecoded` | benchmark/vectordb_perf/run.py:414-429 | decoding in the buffer decides what the whole-text reader does next, and a failure does so only at the end of the file |
| `JsonArrayReader.IterJsonArrayRecords` | benchmark/vectordb_perf/run.py:332-429 | for every text, limit and chunk size: terminates with the same objects and the same outcome as reading the whole text at once |
| `JsonArrayGrammar.ReadsDocument` | benchmark/vectordb_perf/run.py:332-429 | a well-formed array of objects is read as exactly the list of its objects |
| `JsonArrayGrammar.ReadsRfcDocument` | benchmark/vectordb_perf/run.py:332-429 | every array of objects of RFC 8259, with space, tab, line feed and carriage return around its parts, is read as the list of its objects |
| `JsonArrayGrammar.RecordsAreObjects` | benchmark/vectordb_perf/run.py:424-426 | whatever is yielded is an object in braces |
| `JsonArrayGrammar.AcceptedIsDocument` | benchmark/vectordb_perf/run.py:332-429 | an accepted text is the printed form of a well-formed array of objects |
| `JsonArrayGrammar.AcceptsExactlyDocuments` | benchmark/vectordb_perf/run.py:332-429 | the reader accepts a text with given objects if and only if the grammar derives the text with these objects |
| `JsonArrayGrammar.ReadWithQuota` | benchmark/vectordb_perf/run.py:426-429 | from any place, a limit only cuts the sequence of objects, and an error behind the cut is not seen |
| `JsonArrayGrammar.LimitTruncates` | benchmark/vectordb_perf/run.py:341-342 | reading with a limit is reading without one, truncated |
| `Strings.SplitJoin` | benchmark/vectordb_perf/run.py:565-569 | splitting undoes joining of pieces free of the separator |
| `Strings.JoinSplit` | benchmark/vectordb_perf/run.py:565-569 | joining undoes splitting |
| `Strings.SplitAppend` | benchmark/vectordb_perf/run.py:573-573 | a separator splits what stands on its two sides independently |
| `Strings.DecimalInjective` | benchmark/vectordb_perf/run.py:650-650 | different numbers have different numerals |
| `Paths.NormalizeSlashed` | benchmark/vectordb_perf/run.py:479-493 | a path made of proper segments is its own normal form |
| `Paths.SchemeIsRoot` | benchmark/vectordb_perf/run.py:489-490 | a URI of the scheme, with any slashes around its path, normalises to the path |
| `Paths.RelativeIsRooted` | benchmark/vectordb_perf/run.py:491-492 | a relative path is taken from the root |
| `Paths.PiecesOfText` | benchmark/vectordb_perf/run.py:565-565 | the text of a path is cut back into exactly its segments |
| `Paths.PartsOfText` | benchmark/vectordb_perf/run.py:582-583 | `path_parts` gives back exactly the segments of a path |
| `Paths.PrefixOfText` | benchmark/vectordb_perf/run.py:564-569 | `path_prefix` is the path of the first segments, at least one and at most all |
| `Paths.PrefixOfRoot` | benchmark/vectordb_perf/run.py:564-569 | every prefix of the root, or of nothing, is the root |
| `Paths.SlashedPrefix` | benchmark/vectordb_perf/run.py:577-577 | with a closing slash, string prefix is segment prefix |
| `Paths.UnderText` | benchmark/vectordb_perf/run.py:577-577 | equality or slash-prefix of strings holds exactly for a segment prefix, the root included |
| `Paths.MatchesIsSegmentPrefix` | benchmark/vectordb_perf/run.py:572-579 | `path_matches` accepts a path exactly when the prefix is a segment prefix of it |
| `Paths.MatchesOneOf` | benchmark/vectordb_perf/run.py:572-579 | on a ';'-joined list, exactly when the prefix is a segment prefix of one of the paths |
| `Paths.MatchesAncestorExactly` | benchmark/vectordb_perf/run.py:572-579 | for names that are not empty and do not end in white space, but may hold ';': a path matches an ancestor directory if and only if no ';' occurs in that directory (all strings: `WrittenPaths.AnyValueExactly`) |
| `WrittenPaths.SplitPrefix` | benchmark/vectordb_perf/run.py:577-577 | with a closing slash, one string starts with another exactly when its '/'-pieces do, empty pieces included |
| `WrittenPaths.UnderExactly` | benchmark/vectordb_perf/run.py:576-578 | for all strings: the test of one path is that its pieces, as written between slashes, start with those of the prefix |
| `WrittenPaths.MatchesExactly` | benchmark/vectordb_perf/run.py:572-579 | for all values and prefixes: a value matches exactly when one listed path is written as the prefix is, and on |
| `WrittenPaths.PartsAreWritten` | benchmark/vectordb_perf/run.py:582-583 | for all strings: `path_parts` gives the written pieces without the empty ones |
| `WrittenPaths.WrittenOfDirectory` | benchmark/vectordb_perf/run.py:486-493 | normalising a directory's text drops white space at the end of its last name, and a blank last name, and nothing else |
| `WrittenPaths.SinglePathExactly` | benchmark/vectordb_perf/run.py:572-583 | a value without ';' matches a directory made of its first parts if and only if the directory's last name is blank or does not end in white space, and the path has no doubled slash down to there |
| `WrittenPaths.AnyValueExactly` | benchmark/vectordb_perf/run.py:572-579 | any value matches a directory, the root included, if and only if one of its listed paths is written as that directory, trimmed, and on |
| `WrittenPaths.SemicolonIsNeverReached` | benchmark/vectordb_perf/run.py:573-573 | a directory that holds a ';' is matched by no value at all |
| `SyntheticPaths.SyntheticPath` | benchmark/vectordb_perf/run.py:645-652 | the loop builds the path of the mixed-radix digits of the index |
| `SyntheticPaths.PathOfSeven` | benchmark/vectordb_perf/run.py:645-652 | the path of index 7 at depth 2 and fanout 3, written out |
| `SyntheticPaths.LevelsAgree` | benchmark/vectordb_perf/run.py:648-651 | two indices agree on k levels exactly when they are congruent modulo fanout to the k |
| `SyntheticPaths.UnderPrefixIsCongruent` | benchmark/vectordb_perf/run.py:564-579 | as strings judged by `path_matches`, path j lies under the k-segment prefix of path i exactly when i and j are congruent modulo fanout to the k |
| `SyntheticPaths.SamePathIsCongruent` | benchmark/vectordb_perf/run.py:645-652 | two indices have the same path exactly when they are congruent modulo fanout to the depth |
| `SyntheticPaths.PathsDistinct` | benchmark/vectordb_perf/run.py:645-652 | all paths below fanout to the depth are different |
| `DirectoryScope.AgreementLoop` | benchmark/vectordb_perf/run.py:592-594 | the inner loop finds how far two segment lists agree |
| `DirectoryScope.CutIsGreatest` | benchmark/vectordb_perf/run.py:595-595 | cutting the greatest common prefix at the agreement with one more path gives the greatest common prefix of all |
| `DirectoryScope.CommonPathPrefix` | benchmark/vectordb_perf/run.py:586-598 | the result is the path of the greatest common segment prefix, early return included |
| `DirectoryScope.DerivedScope` | benchmark/vectordb_perf/run.py:633-638 | the scope is the path of the greatest common segment prefix of the highest-scored paths |
| `DirectoryScope.GreatestIsUnique` | benchmark/vectordb_perf/run.py:586-598 | the greatest common prefix depends only on the set of paths |
| `DirectoryScope.ScopeIgnoresOrder` | benchmark/vectordb_perf/run.py:633-638 | the scope does not depend on the order of the ground-truth items |
| `DirectoryScope.ScopeIsDeepest` | benchmark/vectordb_perf/run.py:633-638 | `path_matches` accepts every best-scored path under the scope, and no deeper directory has this property |
| `DirectoryScope.ScopeMatchesExactly` | benchmark/vectordb_perf/run.py:572-598 | for every corpus: a best-scored document matches the scope if and only if one of its listed paths is written as the scope, trimmed, and on |
| `DirectoryScope.SinglePathMatchesExactly` | benchmark/vectordb_perf/run.py:572-598 | a document with a single path: if and only if the scope's last name is blank or does not end in white space, and the path has no doubled slash down to the scope |
| `DirectoryScope.NamedPathMatchesExactly` | benchmark/vectordb_perf/run.py:572-598 | a document whose parts are names not ending in white space, without doubled slashes: if and only if the scope holds no ';' |
| `DirectoryScope.KeepsBestScoredExactly` | benchmark/vectordb_perf/run.py:974-978 | for every corpus: the directory query keeps all best-scored ids if and only if each of their values reaches the scope as written |
| `DirectoryScope.KeepsSinglePathsExactly` | benchmark/vectordb_perf/run.py:974-978 | for single paths: if and only if the scope's last name is tidy and no path has a doubled slash down to the scope |
| `DirectoryScope.KeepsNamedPathsExactly` | benchmark/vectordb_perf/run.py:974-978 | for proper names: if and only if the scope holds no ';' |
| `DirectoryScope.ListedPathsLoseTheirScope` | benchmark/vectordb_perf/run.py:586-598 | a listed path whose derived scope does not match it and whose directory query is empty |
| `DirectoryScope.DoubledSlashLosesItsScope` | benchmark/vectordb_perf/run.py:586-598 | the normal form "//a" is not matched by the scope derived from it |
| `DirectoryScope.BlankEndLosesItsScope` | benchmark/vectordb_perf/run.py:586-598 | the normal forms "/a /b" and "/a /c" are not matched by the scope derived from them |
| `SourceTree.SelectedIsRelevant` | deploy/loginom-dock/client-source-inventory.py:79-82 | a directory prefix of a selected path is never judged irrelevant |
| `SourceTree.NeverSelected` | deploy/loginom-dock/package-client-source.py:67-72 | a name with a component for dependencies, caches, repositories or secrets, at any place, is never selected |
| `SourceTree.Selects` | deploy/loginom-dock/package-client-source.py:67-72 | a listed file, or one below a listed directory, without such a component is selected |
| `SourceTree.PrunedHasNothing` | deploy/loginom-dock/client-source-inventory.py:75-86 | below a pruned directory there is no selectable file and no unsupported input |
| `SourceTree.WalkIsFilter` | deploy/loginom-dock/client-source-inventory.py:67-101 | from any directory, the pruned walk is the filtered complete listing, or fails on an unsupported entry |
| `SourceTree.TreeInventoryExact` | deploy/loginom-dock/client-source-inventory.py:67-101 | the walk fails exactly on an unsupported entry and otherwise finds exactly the files that `is_client_source` selects from a full listing |
| `SourceTree.VisitDirectory` | deploy/loginom-dock/client-source-inventory.py:72-100 | one turn of the walk keeps what the whole walk will find |
| `SourceTree.TreeInventory` | deploy/loginom-dock/client-source-inventory.py:67-101 | the work-list loop computes the recursive walk |
| `Provenance.ClientSourceFiles` | deploy/loginom-dock/package-client-source.py:75-98 | the loop over listed names gives exactly the selected names that exist as a file, following links, or as a link, and fails exactly when a required input is not among them |
| `Provenance.ReadCommit` | deploy/loginom-dock/client-source-inventory.py:104-123 | the loop over the commit's entries gives the rows of the selected ones, and fails exactly on an irregular entry or a missing required input |
| `Provenance.Inventory` | deploy/loginom-dock/client-source-inventory.py:26-64 | the loop returns exactly when no required input is missing and no selected name is a link or lies beyond a linked directory, and reports a match exactly when no name differs |
| `Provenance.ReasonsAre` | deploy/loginom-dock/client-source-inventory.py:45-61 | each reason is reported of a path exactly when it applies: missing, untracked, other type or mode, other contents |
| `Provenance.MatchIsClean` | deploy/loginom-dock/client-source-inventory.py:126-133 | a match by Git's listing makes the raw-tree check succeed, on trees without unsupported entries |
| `Provenance.CleanIsMatch` | deploy/loginom-dock/client-source-inventory.py:26-64 | success of the raw-tree check implies a match by Git's listing, and no unsupported entry |
| `Provenance.ChecksAgree` | deploy/loginom-dock/client-source-inventory.py:26-133 | whenever the Git-listing check returns, the raw-tree check succeeds if and only if the listing matches and no entry is unsupported; the two answers differ if and only if the listing matches and an entry is unsupported |
| `Provenance.DirectoryLinkParts` | deploy/loginom-dock/client-source-inventory.py:83-84 | in any tree that matches, linking a directory under which build inputs may lie keeps the match and makes the raw-tree check fail |
| `Provenance.SmallTreeParts` | deploy/loginom-dock/client-source-inventory.py:83-84 | a concrete tree, listing and commit that meet every condition of `ChecksAgree` on them, and on which the two checks part |
| `StagedCopy.CopyLeaves` | deploy/loginom-dock/build-client-bundle.py:26-33 | copying a tree with the ignore patterns keeps exactly the files with no ignored component |
| `StagedCopy.NotCopied` | deploy/loginom-dock/build-client-bundle.py:29-31 | which names the copy leaves out, and which of them are junk |
| `StagedCopy.EndsWithExactly` | deploy/loginom-dock/build-client-bundle.py:30-30 | a pattern with a star matches exactly the names that end so |
| `StagedCopy.SubLeaves` | deploy/loginom-dock/build-client-bundle.py:27-28 | the files below a looked-up directory are the files of the tree below that path |
| `StagedCopy.PlanFits` | deploy/loginom-dock/build-client-bundle.py:17-70 | the literal copy lists, the selection rule and the build-only exclusions fit together |
| `StagedCopy.KeptExactly` | deploy/loginom-dock/build-client-bundle.py:29-31 | a selected file of a directory is staged if and only if no component is `.DS_Store` or `*.pyc` |
| `StagedCopy.StagedAllExactly` | deploy/loginom-dock/build-client-bundle.py:15-73 | the staged files are the selected ones without build-only files if and only if there is no such component |
| `StagedTree.PlaceFiles` | deploy/loginom-dock/build-client-bundle.py:26-33 | placing a node in the staged tree adds its files at its path and no other |
| `StagedTree.PartUnsupported` | deploy/loginom-dock/build-client-bundle.py:26-33 | part of a tree has no unsupported entry that the whole has not |
| `StagedTree.RowAt` | deploy/loginom-dock/build-client-bundle.py:71-73 | the file that a path names in the source is the one row of the listing with that path |
| `StagedTree.CopyDirectories` | deploy/loginom-dock/build-client-bundle.py:17-33 | the first loop builds a tree that is part of the source and holds the copied directories; it ends early only for a missing directory, or if one of the directories lies in another |
| `StagedTree.CopyFiles` | deploy/loginom-dock/build-client-bundle.py:34-73 | the second loop adds exactly the listed files, and fails exactly when one of them is missing |
| `StagedTree.CopyClientSources` | deploy/loginom-dock/build-client-bundle.py:15-73 | the tree that is built is part of the source and holds exactly the staged files; there is none only for want of an input or for nested directories |
| `StagedTree.StagedWalk` | deploy/loginom-dock/client-source-inventory.py:140-142 | the walk of a tree staged from a clean source meets no unsupported entry and finds the selected staged files |
| `StagedTree.StagedPassesExactly` | deploy/loginom-dock/client-source-inventory.py:140-143 | after a clean source, the walk of the staged tree passes verification if and only if no selected path of a directory has a `.DS_Store` or `*.pyc` component |
| `StagedTree.StageClient` | deploy/loginom-dock/build-client-bundle.py:100-106 | with the program's own lists, from a clean source: the copy goes through if and only if no input is missing, and then passes verification if and only if no selected path of a directory has such a component |
| `StagedCopy.LinkedPluginsPart` | deploy/loginom-dock/client-source-inventory.py:80-84 | for the program's own selection: in any matching tree without "plugins", linking that directory makes the two cleanliness checks part |
| `Sorting.SortKeeps` | deploy/loginom-dock/client-source-inventory.py:155-155 | sorting rearranges: every element keeps its multiplicity |
| `Packaging.SortKeepsRows` | deploy/loginom-dock/client-source-inventory.py:155-155 | sorting by path keeps every row and its multiplicity |
| `Packaging.OrderedRowsStay` | deploy/loginom-dock/client-source-inventory.py:155-155 | rows listed in path order stay as they are |
| `MemberNames.SafeStaysBelow` | deploy/loginom-dock/client-source-inventory.py:150-151 | extracting a safe name never leaves the directory it starts in, on any step, whatever that directory is |
| `MemberNames.UnsafeNames` | deploy/loginom-dock/client-source-inventory.py:150-151 | for all strings: absolute names, and names with an upward component first, last, alone or between, are not safe |
| `MemberNames.SafeNames` | deploy/loginom-dock/client-source-inventory.py:150-151 | a relative name without an upward component is safe |
| `MemberNames.UnsafeLeadsOut` | deploy/loginom-dock/client-source-inventory.py:150-151 | an absolute name, and one whose first component is upward, do leave the directory |
| `MemberNames.BeforeIsTotal` | deploy/loginom-dock/client-source-inventory.py:155-155 | any two different names compare |
| `MemberNames.BeforeDecides` | deploy/loginom-dock/client-source-inventory.py:155-155 | the first different character decides, and the end comes before any character |
| `Packaging.VerifyArchive` | deploy/loginom-dock/client-source-inventory.py:146-156 | succeeds exactly when all members are safe and their sorted rows are the expected ones; then archive and record have the same rows, and no member leads out of the directory it is extracted in |
| `Packaging.PassesAsRows` | deploy/loginom-dock/client-source-inventory.py:155-155 | against an inventory the order of members does not matter: sorted rows are the expected ones exactly when the rows are the same, each once |
| `Packaging.ExecuteBits` | deploy/loginom-dock/client-source-inventory.py:154-154 | a member counts as executable exactly when one of its three octal digits is odd |
| `Packaging.BuildArchive` | deploy/loginom-dock/package-client-source.py:132-141 | packs every file as it is met, and fails exactly when one is gone or has become a link |
| `Packaging.PassesExactly` | deploy/loginom-dock/package-client-source.py:132-142 | an archive built while files change passes exactly when each file, as read, has its recorded digest, size and mode, and the names are safe |
| `Packaging.Packager.Interfere` | deploy/loginom-dock/package-client-source.py:148-152 | others put and remove files as they like, and what they touch is theirs |
| `Packaging.Packager.LinkNew` | deploy/loginom-dock/package-client-source.py:148-148 | a link is made exactly when its name is free and the step does not fail |
| `Packaging.Packager.LinkOutputs` | deploy/loginom-dock/package-client-source.py:148-153 | while others do anything: both links go through if and only if both names are free when they are linked and neither step fails; the archive is then still the packager's if and only if others have not touched it; it is left alone if and only if the manifest cannot be linked, the removal fails and others have not touched it; a file of others is removed if and only if the manifest cannot be linked, they have put a file at the output, and the removal works |
| `Packaging.Packager.Package` | deploy/loginom-dock/package-client-source.py:120-153 | an archive that is published and not touched holds exactly the recorded rows and its manifest names its digest; for an inventory, both links go through if and only if names are free, no step fails, every path is safe, every file is met as recorded and the inventory is the same afterwards; what is left of the files of others is given exactly |
| `Packaging.RivalTimes` | deploy/loginom-dock/package-client-source.py:148-153 | in a surrounding where others act once between the two links, which conditions of publishing hold |
| `Packaging.ArchiveLeftAlone` | deploy/loginom-dock/package-client-source.py:148-153 | another process takes the manifest's name and the removal fails: the archive stays behind beside a manifest that is not its own |
| `Packaging.FileOfOthersLost` | deploy/loginom-dock/package-client-source.py:149-152 | it also replaces the archive, and the removal works: the packager removes the file of the other process |
| `Packaging.ForeignArchive` | deploy/loginom-dock/package-client-source.py:148-153 | it replaces the archive only: publication succeeds with the manifest beside an archive of others |
| `CatalogBuild.RevisionRoundTrip` | deploy/loginom-dock/publish-action-catalog.py:34-39 | three numbers written with dots are read back exactly when none exceeds the bound |
| `CatalogMeaning.RevisionExactly` | deploy/loginom-dock/publish-action-catalog.py:34-39 | three numerals with dots are read as their numbers exactly when none is too large |
| `CatalogMeaning.RevisionIsTriple` | deploy/loginom-dock/publish-action-catalog.py:34-36 | nothing else is a revision |
| `CatalogMeaning.AtMostExactly` | deploy/loginom-dock/publish-action-catalog.py:77-79 | revisions compare by the first component, then the second, then the third |
| `CatalogMeaning.AtMostIsTotal` | deploy/loginom-dock/publish-action-catalog.py:100-101 | the order of revisions is total and antisymmetric |
| `CatalogMeaning.HexExactly` | deploy/loginom-dock/publish-action-catalog.py:80-81 | digests and commits are texts of a fixed length over sixteen characters |
| `CatalogMeaning.VersionExactly` | deploy/loginom-dock/publish-action-catalog.py:83-83 | versions are texts of letters, digits and three signs, and not empty |
| `CatalogMeaning.NotBlankExactly` | deploy/loginom-dock/publish-action-catalog.py:95-97 | a text counts as present exactly when stripping leaves something |
| `CatalogMeaning.TimestampExactly` | deploy/loginom-dock/publish-action-catalog.py:65-66 | a time stamp is six numerals of fixed length with their punctuation |
| `CatalogMeaning.AcceptanceExactly` | deploy/loginom-dock/publish-action-catalog.py:42-67 | an acceptance is valid exactly when it vouches for this manifest digest and profile, this executor, every check, the agent and the evidence |
| `CatalogMeaning.AcceptanceIsOfOne` | deploy/loginom-dock/publish-action-catalog.py:47-62 | an acceptance of one manifest digest is of no other, and one with a failed or missing check is of none |
| `CatalogValidation.ValidateAcceptance` | deploy/loginom-dock/publish-action-catalog.py:42-67 | the checks in their order accept exactly the valid acceptances |
| `CatalogValidation.GreatestRevision` | deploy/loginom-dock/publish-action-catalog.py:100-101 | the loop finds the greatest revision of the actions, or that one is none |
| `CatalogValidation.CheckIdentity` | deploy/loginom-dock/publish-action-catalog.py:73-92 | status, schema, executor, commit, version, URI and digests are accepted exactly when the identity is valid |
| `CatalogValidation.CheckProfile` | deploy/loginom-dock/publish-action-catalog.py:93-97 | the profile checks accept exactly valid profiles |
| `CatalogValidation.CheckActions` | deploy/loginom-dock/publish-action-catalog.py:98-110 | the loops over actions accept exactly when keys, revisions, contracts and each action are valid |
| `CatalogValidation.CheckAction` | deploy/loginom-dock/publish-action-catalog.py:120-133 | the checks of one action accept exactly valid actions |
| `CatalogValidation.CheckSelectors` | deploy/loginom-dock/publish-action-catalog.py:111-119 | the loops over selectors accept exactly when symbols differ and provenance is indexed |
| `CatalogValidation.CheckIndex` | deploy/loginom-dock/publish-action-catalog.py:113-115 | the index checks accept exactly valid indexes |
| `CatalogValidation.ValidateBuild` | deploy/loginom-dock/publish-action-catalog.py:70-136 | the checks and loops in the program's form accept exactly the valid builds, for staging and for activation |
| `CatalogValidation.ReleaseUri` | deploy/loginom-dock/publish-action-catalog.py:84-85 | the URIs of releases and of `current.json`, written out |
| `CatalogBuild.EvidenceIsDependency` | deploy/loginom-dock/publish-action-catalog.py:117-133 | in a valid build, evidence of an action or of a selector it uses is among the action's dependency files, with the indexed digest |
| `CatalogBuild.StaleEvidenceStops` | deploy/loginom-dock/publish-action-catalog.py:176-184 | for every valid build and every evidence that is not live, publication stops, and the report names the action if and only if the live commit is the catalog's; if publication goes on, all evidence is live |
| `CatalogBuild.GoesExactly` | deploy/loginom-dock/publish-action-catalog.py:178-184 | publication goes on if and only if the commits agree and every indexed file is live with its indexed digest |
| `CatalogBuild.ReportIsExact` | deploy/loginom-dock/publish-action-catalog.py:180-184 | for every valid build with a report: a reported key belongs to an action one of whose dependency files is not live as indexed, and of an action that is not reported all evidence is live |
| `CatalogPublication.ReleaseIsNotCurrent` | deploy/loginom-dock/publish-action-catalog.py:188-188 | no file below a release has the name of `current.json` |
| `CatalogPublication.RequestExtends` | deploy/loginom-dock/publish-action-catalog.py:186-237 | no request changes or removes a stored file other than `current.json` |
| `CatalogPublication.StepExtends` | deploy/loginom-dock/publish-action-catalog.py:186-237 | nor does any step of the system, of whatever run |
| `CatalogPublication.WrittenOnce` | deploy/loginom-dock/publish-action-catalog.py:186-210 | bytes below a release root, once present, stay for the rest of every interleaved and interrupted execution |
| `CatalogPublication.StepKeepsInvariant` | deploy/loginom-dock/publish-action-catalog.py:186-237 | every step keeps what every run has made sure of and what `current.json` relies on |
| `CatalogPublication.InvariantHolds` | deploy/loginom-dock/publish-action-catalog.py:186-237 | the invariant holds in every state of every execution |
| `CatalogPublication.CompletedIsStored` | deploy/loginom-dock/publish-action-catalog.py:207-210 | a completed run has its release stored, an activation also its acceptance, also among concurrent runs |
| `CatalogPublication.PublishedIsSound` | deploy/loginom-dock/publish-action-catalog.py:85-92 | if the files of a valid build and its acceptance are stored, every reference of the new `current.json` can be followed with matching digests |
| `CatalogPublication.CurrentIsAlwaysSound` | deploy/loginom-dock/publish-action-catalog.py:186-237 | in every reachable state a `current.json` written by an activation names a manifest, files and a valid acceptance that are all stored with the recorded digests |
| `CatalogMeaning.CurrentIsAttested` | deploy/loginom-dock/publish-action-catalog.py:211-237 | in every reachable state a `current.json` written by an activation names a stored acceptance whose manifest digest is that of the stored manifest, and which vouches for its profile, this executor and every check |
| `CatalogRerun.CurrentChangesByActivation` | deploy/loginom-dock/publish-action-catalog.py:211-237 | `current.json` changes only in the swap of an activation whose release and acceptance are stored; never by a stage run |
| `CatalogRerun.RequestAdvances` | deploy/loginom-dock/publish-action-catalog.py:186-237 | every request brings a run closer to its end |
| `CatalogRerun.SameUri` | deploy/loginom-dock/publish-action-catalog.py:84-84 | files of different releases or names never share a URI |
| `CatalogRerun.StageAlone` | deploy/loginom-dock/publish-action-catalog.py:186-210 | alone, a stage run completes exactly when nothing stored contradicts the build, adds the release and nothing else, and writes only if a file was missing; otherwise the store is unchanged |
| `CatalogRerun.ActivateAlone` | deploy/loginom-dock/publish-action-catalog.py:186-237 | alone, an activation completes exactly when the whole release is stored and the acceptance does not collide; otherwise the store is unchanged |
| `CatalogRerun.StaysCompatible` | deploy/loginom-dock/publish-action-catalog.py:186-210 | interrupted runs of the same texts, and any runs of other releases, never spoil a release |
| `CatalogRerun.RerunCompletes` | deploy/loginom-dock/publish-action-catalog.py:186-210 | after any interruption a stage run completes with all four files byte-equal, and a further one makes no write |
| `CatalogRerun.AloneIsExecution` | deploy/loginom-dock/publish-action-catalog.py:186-237 | after any execution an admitted run can be started and goes on to the end that is computed for it alone |
| `CatalogRerun.MayStop` | deploy/loginom-dock/publish-action-catalog.py:186-237 | any run may be cut off after any request, and the store stays as it was |
| `CatalogExample.ExampleIsAdmitted` | deploy/loginom-dock/publish-action-catalog.py:70-136 | the checks can be met: a smallest build passes them for staging and for activation |
| `CatalogExample.ExampleIsPublished` | deploy/loginom-dock/publish-action-catalog.py:186-237 | that build, staged into the empty store and then activated, completes both runs and sets `current.json` |
| `CatalogExample.ExampleIsSound` | deploy/loginom-dock/publish-action-catalog.py:186-237 | there is an execution that ends with the example active, and its `current.json` decodes and is sound |
| `CatalogExample.DifferingCommitReportsNothing` | deploy/loginom-dock/publish-action-catalog.py:178-184 | for the example with no live file: a differing live commit stops publication with no action reported, the same commit reports the action |
| `TaskDrain.Runner.RegisterTaskIfPresent` | benchmark/custom/session_contention_benchmark.py:1056-1079 | a successful answer that names a task adds exactly that task to the pending ones |
| `TaskDrain.AllEnd` | benchmark/custom/session_contention_benchmark.py:1088-1111 | when every server reports an end, a round leaves exactly the tasks of unknown adapters |
| `TaskDrain.Runner.PollRound` | benchmark/custom/session_contention_benchmark.py:1086-1114 | one round polls every task of a known adapter once, removes exactly those reported completed or failed, each with one event, and conserves all |
| `TaskDrain.KeptHasNoEnd` | benchmark/custom/session_contention_benchmark.py:1095-1111 | a task that stays after a round was polled in it, and no end was reported |
| `TaskDrain.PromptRounds` | benchmark/custom/session_contention_benchmark.py:1086-1114 | with servers that report an end, nothing of known adapters is left after a round |
| `TaskDrain.RoundLimitIs` | benchmark/custom/session_contention_benchmark.py:1085-1086 | the bound on rounds is the timeout over the interval, rounded down, and one more |
| `TaskDrain.Runner.PollUntil` | benchmark/custom/session_contention_benchmark.py:1085-1114 | what becomes of the tasks is what that many rounds of polling make of them; there is a round unless the time is over at once, and the loop ends early only when nothing is pending |
| `TaskDrain.Runner.DrainTasks` | benchmark/custom/session_contention_benchmark.py:1081-1116 | terminates within the bound; each task ends as its polls say, or stays, or is given up only in the final drain or without time, and not before the time is over; with servers that report an end, every task ends |
| `TaskDrain.Runner.FinalizeIncompleteTasks` | benchmark/custom/session_contention_benchmark.py:1118-1136 | every pending task gets one incomplete event, and none stays pending |
| `TaskDrain.InFlightUpdate` | benchmark/custom/session_contention_benchmark.py:647-675 | what a worker takes and completes is exactly what the requests in flight gain and lose |
| `TaskDrain.LiveUpdate` | benchmark/custom/session_contention_benchmark.py:647-675 | a worker that returns leaves one live worker less, and nothing else changes that number |
| `TaskDrain.Runner.Turn` | benchmark/custom/session_contention_benchmark.py:647-674 | a worker's turn completes the request it waited for and begins another, and keeps begun requests equal to completed plus in flight |
| `TaskDrain.Runner.RunQueue` | benchmark/custom/session_contention_benchmark.py:638-681 | for every schedule of the workers the pool terminates and every queued request is made exactly once |
| `TaskDrain.Runner.RunTimed` | benchmark/custom/session_contention_benchmark.py:799-818 | for every schedule, every choice of requests and every breaking worker, the pool terminates after the stop event and every request that was begun has completed exactly once |
| `TaskDrain.Runner.RunAdapter` | benchmark/custom/session_contention_benchmark.py:587-612 | the phases of an adapter make exactly the requests its workload asks for, `wait_processed` included, complete what timed workers begin, and keep all tasks accounted for |
| `TaskDrain.Runner.Run` | benchmark/custom/session_contention_benchmark.py:458-467 | in a run without a fatal error, whatever servers answer, each registered task has exactly one event, none is pending, every request was made once, and the poll rounds are bounded; if servers report an end when asked, every event says completed or failed |
| `TaskDrain.Started` | benchmark/custom/session_contention_benchmark.py:1926-1927 | the clamps make every command line meet what a run relies on |
| `BoundedMap.StepKeepsInvariant` | benchmark/vectordb_perf/async_utils.py:23-38 | every step of a task or of the consumer keeps permits plus running calls at the limit and the finished tasks listed once |
| `BoundedMap.InvariantHolds` | benchmark/vectordb_perf/async_utils.py:23-38 | the invariant holds in every state of every schedule |
| `BoundedMap.NeverOverLimit` | benchmark/vectordb_perf/async_utils.py:23-27 | at most max(1, concurrency) calls are in flight in any schedule |
| `BoundedMap.EachExactlyOnce` | benchmark/vectordb_perf/async_utils.py:29-32 | full consumption yields each item's result at exactly one position |
| `BoundedMap.YieldsAreResults` | benchmark/vectordb_perf/async_utils.py:31-32 | everything yielded, also before an exception or a close, is the result of its item and is yielded once |
| `BoundedMap.ClosedIsClean` | benchmark/vectordb_perf/async_utils.py:33-38 | after exhaustion, an exception or an early close no task runs and all permits are back |
| `BoundedMap.NeverStuck` | benchmark/vectordb_perf/async_utils.py:23-38 | no schedule deadlocks |
| `BoundedMap.MayClose` | benchmark/vectordb_perf/async_utils.py:33-38 | the consumer may close at any time while it consumes |
| `BoundedMap.NoNewCalls` | benchmark/vectordb_perf/async_utils.py:33-38 | once the consumer is done no further call begins |
| `BoundedMap.SchedulesEnd` | benchmark/vectordb_perf/async_utils.py:23-38 | every schedule has at most three steps per item and two more |
| `Aggregation.GroupEvents` | benchmark/custom/session_contention_benchmark.py:1418-1420 | each group holds exactly the events of its key, in order, and no group is empty |
| `Aggregation.BuildSummaryRow` | benchmark/custom/session_contention_benchmark.py:1435-1457 | requests, successes, failures and the status histogram of a group are its true counts |
| `Aggregation.RowTotals` | benchmark/custom/session_contention_benchmark.py:1443-1457 | successes plus failures, and the status histogram, both total the requests of a row |
| `Aggregation.RowsByFields` | benchmark/custom/session_contention_benchmark.py:1418-1431 | the row of given fields counts exactly the events with these fields, in each of the three groupings |
| `Aggregation.StatusIs` | benchmark/custom/session_contention_benchmark.py:1447-1451 | a status code comes first, then the name of an exception, then "ok" |
| `Aggregation.GroupsConserve` | benchmark/custom/session_contention_benchmark.py:1418-1431 | for any grouping and any kind of event, the groups together count what the events count |
| `Aggregation.BuildRequestRows` | benchmark/custom/session_contention_benchmark.py:1412-1506 | there is one non-empty row for each occurring key of each grouping, with true counts |
| `Aggregation.RowsConserve` | benchmark/custom/session_contention_benchmark.py:1412-1506 | scenario rows, ALL rows and window rows each count every event, success and failure once |
| `Aggregation.FineRowsAddUp` | benchmark/custom/session_contention_benchmark.py:1412-1506 | the rows of a finer grouping add up to the row of a coarser one |
| `Aggregation.WindowsAddUp` | benchmark/custom/session_contention_benchmark.py:1475-1506 | window rows add up to the matching summary row |
| `Aggregation.ScenariosAddUp` | benchmark/custom/session_contention_benchmark.py:1427-1431 | scenario rows add up to the matching ALL row |
| `Aggregation.StartsInWindow` | benchmark/custom/session_contention_benchmark.py:1480-1480 | every event starts inside its window |
| `ConfigWriter.BackupsDiffer` | openviking_cli/setup_wizard.py:1056-1066 | no two backup names of the search are the same |
| `ConfigWriter.StemIs` | openviking_cli/setup_wizard.py:1058-1063 | a suffix is what follows the last dot inside a name |
| `ConfigWriter.BackupsOfDefault` | openviking_cli/setup_wizard.py:1056-1066 | the names tried for the default configuration, written out |
| `ConfigWriter.TempIsNoBackup` | openviking_cli/setup_wizard.py:1090-1091 | a temporary file never takes the name of a backup or of the configuration |
| `ConfigWriter.NamesFit` | openviking_cli/setup_wizard.py:1061-1066 | as many taken names as there are files is the most the search can meet |
| `ConfigWriter.Disk.NextBackupPath` | openviking_cli/setup_wizard.py:1056-1066 | finds the first free backup name within one try more than there are files, unless a step fails |
| `ConfigWriter.Disk.WriteSecureBackup` | openviking_cli/setup_wizard.py:1069-1082 | whatever fails, no earlier file changes; success adds exactly a backup with the old contents, and comes about when no step fails and the temporary name is free |
| `ConfigWriter.Disk.WriteConfig` | openviking_cli/setup_wizard.py:1085-1111 | whatever fails and whenever, the configuration is whole, old or new, and no earlier file changes; success leaves a fresh backup of the old contents and nothing else; with no failing step and free temporary names it succeeds |
| `UniqueFilter.InsideExactly` | benchmark/cuvs/run_service_concurrency_benchmark.py:212-221 | a range starts at a row, is 10 to 100 wide, and ends inside the rows exactly when there are at least ten |
| `UniqueFilter.StartsAre` | benchmark/cuvs/run_service_concurrency_benchmark.py:215-215 | requests start at row 0, each moves on by 997 modulo the span, and a salt shifts the requests |
| `UniqueFilter.WidthsAre` | benchmark/cuvs/run_service_concurrency_benchmark.py:213-214 | width and span for every number of rows |
| `UniqueFilter.SameRange` | benchmark/cuvs/run_service_concurrency_benchmark.py:214-215 | two requests share a range exactly when the span divides their distance times 997 |
| `UniqueFilter.CloseRequestsDiffer` | benchmark/cuvs/run_service_concurrency_benchmark.py:212-221 | requests closer than a span that is no multiple of 997 have different ranges |
| `UniqueFilter.DistinctExactly` | benchmark/cuvs/run_service_concurrency_benchmark.py:212-221 | all requests closer than the span have different ranges if and only if the span is no multiple of 997 |
| `UniqueFilter.SpanOfStride` | benchmark/cuvs/run_service_concurrency_benchmark.py:212-221 | with 1096 rows the span is 997 and all requests share one range |
| `MetricSummary.HalfAtMostMedian` | benchmark/cuvs/summarize_index_runs.py:71-71 | at least half of the values are at most the median |
| `MetricSummary.MedianIsBetween` | benchmark/cuvs/summarize_index_runs.py:71-78 | the median lies between any bounds of the values |
| `MetricSummary.MedianIsMiddle` | benchmark/cuvs/summarize_index_runs.py:71-71 | twice the median is the sum of the two middle values, in any ascending arrangement of the values |
| `MetricSummary.MadIsMiddle` | benchmark/cuvs/summarize_index_runs.py:72-76 | likewise for the MAD and the distances to the median |
| `MetricSummary.SummaryIsRobust` | benchmark/cuvs/summarize_index_runs.py:67-79 | in a summary of some values the median lies between the extremes, which are values, and at least half of the values lie within MAD of the median |
| `MetricSummary.SummaryIgnoresOrder` | benchmark/cuvs/summarize_index_runs.py:67-79 | the summary depends only on the values, not on their order |
| `RunSummary.AddResults` | benchmark/cuvs/summarize_index_runs.py:143-149 | refuses exactly a nameless or repeated variant, and otherwise appends each result to the group of its variant |
| `RunSummary.SummarizeFiles` | benchmark/cuvs/summarize_index_runs.py:102-188 | accepts exactly loadable files with dataset metadata that are comparable, proper and of different processes, and groups all their results by variant |
| `RunSummary.AcceptedFiles` | benchmark/cuvs/summarize_index_runs.py:102-161 | what is accepted has the format, metadata, results and times, and each result a name and numbers |
| `RunSummary.TwoFilesAccepted` | benchmark/cuvs/summarize_index_runs.py:123-161 | two files of one result each that agree and come from different processes are accepted |
| `RunSummary.OnePerFile` | benchmark/cuvs/summarize_index_runs.py:143-153 | in accepted files each variant has exactly one result from each file |
| `RunSummary.OrderOfFilesIsIrrelevant` | benchmark/cuvs/summarize_index_runs.py:123-188 | neither acceptance nor the metrics of a variant depend on the order of the files |

## Left out

- JSON values: strings keep their escapes and numbers their digits; duplicate keys, recursion depth and digit limits of the decoder are not modelled.
- `\d` in revisions and time stamps stands for the ASCII digits only.
- Inventories are sets of rows in `SourceTree`, `Provenance`, `StagedCopy` and `StagedTree`; that they are listed in path order matters only in `Packaging`, where it is a condition on the records.
- Directories are listed by `os.walk` in the order of the tree; the result does not depend on it.
- HTTP, subprocesses, Git objects, tar and gzip encoding: a store is a map, a commit is a map from names to blobs, an archive is its list of members.
- Reading the live source manifest is a check of the build (`CatalogBuild.CheckLive`), not a request of the publication protocol.
- `CatalogBuild` takes each document as decoded into typed fields; errors for missing or ill-typed fields are all one failure to decode.
- `resource_uri` and the rest of workload building: string plumbing and sampling.
- The server's URI normalisation: the store is addressed by the exact text of a URI.
- `TaskDrain.Runner.Run`: covers runs without a fatal error; the fatal path, clean-up and output files are not modelled.
- Extraction of task ids and statuses from payloads, latencies, time stamps and command lines of load-test requests.
- Percentiles, rates and rounding in summary rows, and the order in which rows are listed.
- `RunSummary.SummarizeFiles`: does not model the error that Python raises when the numeric fields of two variants cannot be compared while sorting for the report.
- `BoundedMap`: waiting tasks may get a permit in any order, of which the first-come order of the semaphore is one.
- File modes, mode changes and durability in `ConfigWriter`: a mode change is a step that may fail.
- Floating-point rounding: times, medians and deviations are exact reals.
- `normalize_path` on Python lists and on values that are not strings.
- Terminal prompts, provider presets, diagnosis, reports, restore and monitor scripts, and the native engine binding: interface and plumbing.
