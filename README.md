# rn-safe-upgrade core, modelled in Dafny

rn-safe-upgrade helps upgrade a React Native app. It reads the user's
`package.json` and asks the npm registry which version of each dependency
declares a `react-native` peer range that the target React Native version
satisfies. It then rewrites the manifest, prints a unified-diff view of the
change, and fetches the upstream template diff between two React Native
releases. It also sorts the changed files by platform.

This project models the four library files that do that work:

- `src/lib/packageJsonMerger.ts`: the manifest merger, the positional line
  differ, the change summary and the annotated serialiser.
- `src/lib/compatibilityChecker.ts`: the per-package verdict and the batch loop.
- `src/lib/npmApi.ts`: the registry memo cache and its small readers.
- `src/lib/diffFetcher.ts`: URL building, version cleaning, `package.json`-first
  ordering, changelog URLs, extension lookups, file categorisation and
  app-name substitution.

Modules:

- **Types** (`types.dfy`): the records of `src/lib/types.ts` and the constants
  of `src/lib/constants.ts`. A JavaScript object whose key order is observable
  is a `seq<(string, V)>` with `Get`/`Keys`; absence is `Option`.
- **Strings**: the JavaScript string operations used (`includes`, `split`,
  `join`, `replaceAll`, ASCII `toLowerCase`, `trim() === ""`).
- **Sorting**: `Array.prototype.sort` as a stable insertion sort.
- **Semver**: the four `semver` operations as a record of function values,
  with the assumptions the proofs need stated as predicates.
- **NpmApi**: `PackageCache`, a class with the cache `map` as a field and a
  ghost log of the requests made.
- **CompatibilityChecker**, **PackageJsonDiff** (`generatePackageJsonDiff`),
  **PackageJsonMerger** and **DiffFetcher**.

State-changing code is imperative Dafny:

- the cache fetch;
- the version search loop and the batch loop;
- the diff loop, which keeps the source's `hunkStart`, `hunkLines` and `diff`
  variables, with its loop body split into one method per branch;
- the analysis-map build and value rewriting;
- the summary's four pushes;
- the annotator's appends;
- the categoriser's five pushes.

Each such method is proved equal to a specification function. The
properties the source promises are proved about those functions as lemmas.

Where the source behaves differently from its description, the model follows
the code:

- A diff hunk header prints the first differing index plus one on both
  sides, not the index of the first context line.
- Two hunks separated by three to five equal lines can share context lines.
- The diff shows only hunks: equal lines more than three away from a change are
  never printed, and neighbouring hunks can repeat context. Taking the context
  and `+` lines of the output therefore does not rebuild the upgraded
  manifest; `HunksDoNotRebuildUpgraded` gives the nine-line case.

## Model

| member | source | states |
|---|---|---|
| Types.Get | src/lib/packageJsonMerger.ts:182-186 | a keyed lookup finds a value exactly when the key is one of the entries' keys, and the value found belongs to such an entry |
| Types.GetAtFirstMatch | src/lib/diffFetcher.ts:140 | the lookup returns the value of the first entry with that key |
| PackageJsonMerger.BuildAnalysisMap | src/lib/packageJsonMerger.ts:22-25 | the map built by `set` in array order holds, for every name, the last analysis with that name, and nothing for other names |
| PackageJsonMerger.LastAnalysisFor | src/lib/packageJsonMerger.ts:22-25 | the analysis found has the name asked for and is one of the analyses; none is found only when no analysis has that name |
| PackageJsonMerger.LastAnalysisWins | src/lib/packageJsonMerger.ts:22-25 | when several analyses share a name, the last one in the array is the one used |
| PackageJsonMerger.RewriteVersions | src/lib/packageJsonMerger.ts:28-51 | the `forEach` rewrite over one dependency record produces exactly the merged record |
| PackageJsonMerger.MergedDeps | src/lib/packageJsonMerger.ts:28-51 | the same keys in the same order, each with its merged value |
| PackageJsonMerger.MergePackageJsonWithAnalysis | src/lib/packageJsonMerger.ts:13-61 | `original` is the input itself, `upgraded` is the merged copy, and `diffText` is the differ's text for the two serialisations |
| PackageJsonMerger.MergedDepsLookup | src/lib/packageJsonMerger.ts:28-51 | a key of the merged record maps to the merged value of its original value; a key not in the input stays absent |
| PackageJsonMerger.MergeRewriteRule | src/lib/packageJsonMerger.ts:30-50 | in `dependencies`, `react-native` becomes the target verbatim; every other key, and every `devDependencies` key including `react-native`, becomes `^` + recommended exactly when its last analysis needs an update, and is otherwise unchanged |
| PackageJsonMerger.MergeAddsAndRemovesNoKeys | src/lib/packageJsonMerger.ts:19-51 | merging keeps the name, version, peer dependencies, other fields, the presence of both records and their key sequences |
| PackageJsonMerger.MergeIsIdempotent | src/lib/packageJsonMerger.ts:28-51 | merging the merged manifest again with the same analyses changes nothing |
| PackageJsonMerger.MergeWithoutUpdatesIsNoOp | src/lib/packageJsonMerger.ts:28-60 | with no analysis needing an update and `react-native` already at the target, the copy equals the input and the diff is the bare preamble |
| PackageJsonDiff.GeneratePackageJsonDiff | src/lib/packageJsonMerger.ts:66-155 | the loop's output is the rendering of the hunk scan; it starts with the preamble, and it is exactly the preamble when the two line arrays agree line for line |
| PackageJsonDiff.ScanLine | src/lib/packageJsonMerger.ts:87-139 | one loop iteration moves `hunkStart`, `hunkLines` and `diff` to the next scan state |
| PackageJsonDiff.AddChange | src/lib/packageJsonMerger.ts:91-111 | at a differing index: `hunkStart` is set if unset; up to three leading context lines are pushed only when the hunk is empty and i > 0; then the `-`/`+` lines are pushed |
| PackageJsonDiff.AddLeadingContext | src/lib/packageJsonMerger.ts:97-102 | the pushed context lines are original lines `max(0, i-3)` to `i-1`, each printed after a space |
| PackageJsonDiff.PushChangeLines | src/lib/packageJsonMerger.ts:104-111 | the pushed lines are the texts of the index's change lines: `-` for a non-empty original line, `+` for a non-empty upgraded one, both when both are non-empty or both are empty |
| PackageJsonDiff.AddContext | src/lib/packageJsonMerger.ts:112-138 | an equal line inside an open hunk is pushed as context; the hunk is flushed and reset exactly when three context lines follow its last change |
| PackageJsonDiff.FlushHunk | src/lib/packageJsonMerger.ts:127-134 | the header counts `-` plus context lines on the old side and `+` plus context lines on the new side, with the start printed plus one on both sides, followed by the lines joined with newlines |
| PackageJsonDiff.TailContextOfTexts | src/lib/packageJsonMerger.ts:117-123 | the source's `contextAfter` filter counts exactly the context lines after the last change line |
| PackageJsonDiff.CountsOfTexts | src/lib/packageJsonMerger.ts:127-129 | counting by first character counts the added, removed and context lines |
| PackageJsonDiff.LineTextStarts | src/lib/packageJsonMerger.ts:100-114 | a printed line starts with a space, `-` or `+` exactly for context, removed and added lines |
| PackageJsonDiff.TextsOfChangeLines | src/lib/packageJsonMerger.ts:104-111 | a non-empty original alone gives one `-` line, a non-empty upgraded alone gives one `+` line, and otherwise `-` then `+`; a missing line reads as empty |
| PackageJsonDiff.DiffTextShape | src/lib/packageJsonMerger.ts:76-80 | the text starts with the four-line preamble, and equals it exactly when the line arrays agree |
| PackageJsonDiff.NoHunksIffSameLines | src/lib/packageJsonMerger.ts:87-152 | there is no hunk exactly when no index differs |
| PackageJsonDiff.HunksOpenAtDifferences | src/lib/packageJsonMerger.ts:92-111 | every hunk starts at a differing index below the line count, with its leading context and that index's change lines first |
| PackageJsonDiff.HunkStartsIncrease | src/lib/packageJsonMerger.ts:92-94 | hunk starts strictly increase |
| PackageJsonDiff.HunksCloseAfterThreeContextLines | src/lib/packageJsonMerger.ts:125-152 | every hunk but the last ends with exactly three context lines after its last change; the last ends with at most three |
| PackageJsonDiff.HunksCoverEveryChange | src/lib/packageJsonMerger.ts:87-152 | the hunks' `-`/`+` lines, read in order, are exactly the change lines of every differing index, in index order |
| PackageJsonDiff.AllChangesEmptyIff | src/lib/packageJsonMerger.ts:91 | there are no change lines exactly when no index differs |
| PackageJsonDiff.OpenedHunkHasChanges | src/lib/packageJsonMerger.ts:104-111 | every hunk holds at least one change line |
| PackageJsonDiff.ScanInvariant | src/lib/packageJsonMerger.ts:87-140 | the invariant the loop keeps, after every prefix of the indices |
| PackageJsonDiff.RenderHunksEmptyIff | src/lib/packageJsonMerger.ts:131-151 | the hunks render to nothing exactly when there are none |
| PackageJsonDiff.HunksDoNotRebuildUpgraded | src/lib/packageJsonMerger.ts:87-146 | for nine lines with the fifth changed, the only hunk holds lines two to eight, so the context and `+` lines do not give back the upgraded text |
| PackageJsonMerger.GetPackageJsonChangeSummary | src/lib/packageJsonMerger.ts:160-200 | the four pushes give the four lists of the classification over the de-duplicated union of keys |
| PackageJsonMerger.DedupIsSet | src/lib/packageJsonMerger.ts:174-179 | the union holds exactly the keys of the four records, each once |
| PackageJsonMerger.WithChangeMembers | src/lib/packageJsonMerger.ts:188-196 | a name is in a list exactly when it is in the union and is classified that way |
| PackageJsonMerger.WithChangeCounts | src/lib/packageJsonMerger.ts:188-196 | the four list lengths add up to the size of the union |
| PackageJsonMerger.SummaryPartitions | src/lib/packageJsonMerger.ts:174-196 | the union is the keys of the four records; each key lands in exactly one of the four lists |
| PackageJsonMerger.VersionPrefersDependencies | src/lib/packageJsonMerger.ts:182-186 | the looked-up version is the `dependencies` value when that is non-empty, else the `devDependencies` value |
| PackageJsonMerger.VersionTruthy | src/lib/packageJsonMerger.ts:182-186 | with non-empty values, a version is present exactly when the name is a key of either record |
| PackageJsonMerger.SummaryExample | src/lib/packageJsonMerger.ts:169-199 | `{a, b}` to `{a, c}` gives updated `[]`, added `[c]`, removed `[b]` and unchanged `[a]` |
| PackageJsonMerger.MergeSummaryHasNoAddedOrRemoved | src/lib/packageJsonMerger.ts:28-51 | with non-empty values and target, the summary of a merge reports nothing added or removed |
| PackageJsonMerger.CreateAnnotatedPackageJson | src/lib/packageJsonMerger.ts:205-268 | the appends produce exactly the annotated text: `{` and a newline, the present basic fields, then the two dependency blocks, then `}` |
| PackageJsonMerger.AppendEntries | src/lib/packageJsonMerger.ts:230-242 | one entry line per record entry, in entry order |
| PackageJsonMerger.AppendBasicFields | src/lib/packageJsonMerger.ts:214-224 | the opening brace and each truthy basic field in order, with its value's lines indented by two spaces |
| PackageJsonMerger.AppendDepsBlock | src/lib/packageJsonMerger.ts:227-244 | the `dependencies` block appears only when the record exists |
| PackageJsonMerger.AppendDevDepsBlock | src/lib/packageJsonMerger.ts:247-264 | the `devDependencies` block appears only when the record exists |
| PackageJsonMerger.EntryComment | src/lib/packageJsonMerger.ts:231-238 | the comment chosen from the map is the one for the last analysis of that name |
| PackageJsonMerger.AnnotatedStartsAndEnds | src/lib/packageJsonMerger.ts:214-266 | the output starts with `{` and a newline, and ends with `}` |
| PackageJsonMerger.AnnotatedEntryLines | src/lib/packageJsonMerger.ts:240-241 | the block splits into exactly one `    "name": "version"` line per entry, in order, with a comma on all but the last, then the comment |
| PackageJsonMerger.CommentHasNoNewline | src/lib/packageJsonMerger.ts:234-238 | a comment never breaks the line |
| PackageJsonMerger.CommentMarksUpdates | src/lib/packageJsonMerger.ts:234-238 | the breaking-changes comment takes precedence; there is a comment exactly when the last analysis needs an update |
| CompatibilityChecker.FindCompatibleVersion | src/lib/compatibilityChecker.ts:54-78 | the loop returns the first version, newest first, with a `react-native` peer range the target satisfies, and otherwise `latest`; so the result is a published version or `latest` |
| CompatibilityChecker.FirstAcceptingIndex | src/lib/compatibilityChecker.ts:62-75 | no version before the index accepts the target, and the version at the index does |
| CompatibilityChecker.NoneAcceptsExtends | src/lib/compatibilityChecker.ts:66-68 | a skipped version (no peer range, or one not satisfied) does not accept |
| CompatibilityChecker.FirstAcceptingIndexIsFirst | src/lib/compatibilityChecker.ts:62-75 | the index is determined by those two facts |
| CompatibilityChecker.CompatibleVersionIsPublishedOrLatest | src/lib/compatibilityChecker.ts:62-77 | the recommendation is a key of `versions` or the latest tag |
| CompatibilityChecker.CompatibleVersionIsNewestAccepting | src/lib/compatibilityChecker.ts:58-74 | when some version accepts, the recommendation is a published accepting version and no accepting version is newer |
| CompatibilityChecker.FirstAcceptingIsNewest | src/lib/compatibilityChecker.ts:58-74 | in newest-first order, the first accepting version is at least as new as any accepting one |
| CompatibilityChecker.NoAcceptingVersionFallsBackToLatest | src/lib/compatibilityChecker.ts:77 | when no version accepts, `latest` is recommended |
| CompatibilityChecker.SoleAcceptingVersionIsSelected | src/lib/compatibilityChecker.ts:62-74 | the only accepting version is chosen, however new the others are |
| CompatibilityChecker.AcceptingVersionHasPeer | src/lib/compatibilityChecker.ts:63-70 | an accepting version declares a `react-native` peer dependency |
| CompatibilityChecker.CreateAnalysis | src/lib/compatibilityChecker.ts:80-115 | `needsUpdate` is coerced current differing from coerced recommended; `hasBreakingChanges` implies it and compares majors only when it holds; status is warning exactly when an update is needed; the npm versions page is the changelog; it fails exactly when `major` throws |
| CompatibilityChecker.CoercibleVersionsNeverThrow | src/lib/compatibilityChecker.ts:87-93 | when both versions coerce, `major` never throws |
| CompatibilityChecker.Verdict | src/lib/compatibilityChecker.ts:5-52 | `react-native` gets the fixed verdict (target recommended and latest, raw inequality as `needsUpdate`, compatible, no changelog); no registry data gives the `unknown` verdict; otherwise the recommendation and latest tag; `incompatible` never appears |
| CompatibilityChecker.AnalyzeDependency | src/lib/compatibilityChecker.ts:5-52 | the verdict for the cache and registry as found, with the cache updated by the lookup; `react-native` makes no request |
| CompatibilityChecker.AnalyzeAllDependencies | src/lib/compatibilityChecker.ts:117-141 | the loop's results, progress calls and cache are those of the batch specification; progress runs `(1, n)`, `(2, n)` and so on up to each started entry, and there are none without a callback |
| CompatibilityChecker.ProgressCalls | src/lib/compatibilityChecker.ts:128-130 | the i-th progress call is `(i + 1, n)` |
| CompatibilityChecker.BatchOneVerdictPerEntry | src/lib/compatibilityChecker.ts:122-140 | a completed batch has one verdict per entry, in entry order, for that entry's name and version; a thrown `major` aborts it after at least one start |
| NpmApi.PackageCache.FetchPackageInfo | src/lib/npmApi.ts:9-29 | a hit returns the cached record with no request; a miss makes one request and stores the record only when it succeeds |
| NpmApi.PackageCache.constructor | src/lib/npmApi.ts:7 | the cache starts empty |
| NpmApi.Fetched | src/lib/npmApi.ts:9-29 | a hit answers from the cache; a miss answers from the registry or fails |
| NpmApi.CacheAfterFetch | src/lib/npmApi.ts:13-28 | entries are only added, never overwritten or removed, and only under the requested name; a failure leaves the cache unchanged |
| NpmApi.SecondFetchIsHit | src/lib/npmApi.ts:13-24 | after a successful fetch, a later call for that name is a hit returning the same record, whatever the registry answers by then |
| NpmApi.GetAvailableVersions | src/lib/npmApi.ts:31-35 | a permutation of the version keys |
| NpmApi.AvailableVersionsSorted | src/lib/npmApi.ts:31-35 | sorted newest first by `rcompare` |
| NpmApi.GetLatestVersion | src/lib/npmApi.ts:37-39 | the `latest` dist-tag |
| NpmApi.LatestVersionIgnoresVersions | src/lib/npmApi.ts:37-39 | `getLatestVersion` reads the `latest` dist-tag only: changing the published versions does not change it |
| NpmApi.HasPeerDependencies | src/lib/npmApi.ts:41-50 | true exactly when the version exists, has `peerDependencies`, and the package is a key there |
| Semver.Coerced | src/lib/compatibilityChecker.ts:87-89 | coercion falls back to the raw string when `coerce` yields nothing |
| Sorting.Sort | src/lib/npmApi.ts:32-34 | the sort returns a permutation of its input |
| Sorting.SortSorted | src/lib/npmApi.ts:32-34 | for a total-preorder comparator the result is sorted |
| Sorting.SortIsStablePartition | src/lib/diffFetcher.ts:80-87 | a comparator that only puts the elements satisfying a test first sorts into those elements then the others, each in input order |
| DiffFetcher.RepoFor | src/lib/diffFetcher.ts:23-25 | the repository of a known package name, else the react-native one |
| DiffFetcher.DiffRepositories | src/lib/constants.ts:10-14 | the three repositories, and the react-native fallback for unknown names |
| DiffFetcher.GetDiffURL | src/lib/diffFetcher.ts:14-27 | the URL is exactly the raw GitHub prefix, the package's repository and `/diffs/diffs/`, followed by `<from>..<to>.diff`: prefix, suffix and a length that leaves nothing between them |
| DiffFetcher.DefaultDiffURL | src/lib/diffFetcher.ts:14-25 | an absent package name, and a package without its own diff repository, give react-native's URL |
| DiffFetcher.CleanVersion | src/lib/diffFetcher.ts:38-39 | no `^` or `~` remains, and every other character keeps its count |
| DiffFetcher.CleanVersionIdempotent | src/lib/diffFetcher.ts:38-39 | cleaning twice is cleaning once |
| DiffFetcher.FetchRNDiffURLIgnoresRangeOperators | src/lib/diffFetcher.ts:38-45 | a leading `^` or `~` on either version does not change the URL |
| DiffFetcher.FetchRNDiff | src/lib/diffFetcher.ts:32-74 | a rejected fetch, a non-OK status (with its status and text) and a blank body are the three errors; otherwise the result is the parsed files with `package.json` moved to the top, a permutation of them |
| DiffFetcher.MovePackageJsonToTop | src/lib/diffFetcher.ts:79-88 | a permutation of a copy of the files |
| DiffFetcher.MoveIsStablePartition | src/lib/diffFetcher.ts:79-88 | the `package.json` files in order, then the others in order |
| DiffFetcher.PackageJsonMovesToTop | src/lib/diffFetcher.ts:79-88 | with exactly one `package.json` file, it comes first and the others keep their order |
| DiffFetcher.NoPackageJsonKeepsOrder | src/lib/diffFetcher.ts:79-88 | with none, the order is unchanged |
| DiffFetcher.GetChangelogURL | src/lib/diffFetcher.ts:93-109 | none exactly when the version contains `-rc` or the package has no base URL; otherwise it starts with the base URL |
| DiffFetcher.ChangelogTable | src/lib/constants.ts:16-23 | the three changelog base URLs |
| DiffFetcher.ReactNativeChangelogAnchor | src/lib/diffFetcher.ts:104-106 | for react-native, and by default, the URL is base + `#v` + the version with every dot removed |
| DiffFetcher.OtherChangelogAnchors | src/lib/diffFetcher.ts:108 | for macOS and Windows the URL is base + `v` + the version |
| DiffFetcher.ReleaseCandidateHasNoChangelog | src/lib/diffFetcher.ts:97 | a version containing `-rc` has no changelog for any package |
| DiffFetcher.Extension | src/lib/diffFetcher.ts:115 | the extension holds no dot |
| DiffFetcher.ExtensionIsAfterLastDot | src/lib/diffFetcher.ts:115 | it is the lower-cased text after the last dot, or the whole lower-cased path when there is no dot |
| DiffFetcher.GetLanguageFromPath | src/lib/diffFetcher.ts:114-141 | the mapped language of a known extension, `text` otherwise |
| DiffFetcher.LanguagesAreNonEmpty | src/lib/diffFetcher.ts:117-138 | every mapped language is non-empty, so `|| "text"` applies only to unknown extensions |
| DiffFetcher.IsBinaryFile | src/lib/diffFetcher.ts:146-168 | binary exactly when the extension is in the list |
| DiffFetcher.BinaryFilesAreText | src/lib/diffFetcher.ts:114-168 | a binary file's language is `text` |
| DiffFetcher.UpperCaseExtension | src/lib/diffFetcher.ts:115 | `App.TSX` highlights as `tsx` |
| DiffFetcher.PathWithoutDot | src/lib/diffFetcher.ts:115 | `Podfile` has extension `podfile` |
| DiffFetcher.BinaryExample | src/lib/diffFetcher.ts:159-167 | `gradle-wrapper.jar` is binary |
| DiffFetcher.CategorizeFiles | src/lib/diffFetcher.ts:173-224 | the pushes produce, per category, the files of that category in input order |
| DiffFetcher.FilesInMembers | src/lib/diffFetcher.ts:188-221 | a file is in a list exactly when it is in the input and its first-matching rule picks that list |
| DiffFetcher.FilesInCounts | src/lib/diffFetcher.ts:188-221 | the five list lengths add up to the input length |
| DiffFetcher.FilesInConcat | src/lib/diffFetcher.ts:188-221 | categorising two lists after each other is categorising their concatenation |
| DiffFetcher.CategoriesPartition | src/lib/diffFetcher.ts:173-224 | every file lands in exactly its category's list, and the lengths add up |
| DiffFetcher.GradleUnderIosIsAndroid | src/lib/diffFetcher.ts:191-205 | the Android rule is tried first: `ios/build.gradle` is Android |
| DiffFetcher.RemoveAppPathPrefix | src/lib/diffFetcher.ts:229-234 | one leading `<app name>/` (default app name when absent) is removed; other paths are unchanged |
| DiffFetcher.RemoveAppPathPrefixOnce | src/lib/diffFetcher.ts:233 | only one copy of the prefix is removed |
| DiffFetcher.ReplaceAppDetails | src/lib/diffFetcher.ts:239-258 | the four template replacements with falsy values falling back to the defaults; a text holding none of the template's name, package, package path or lower-cased name comes back unchanged (what the replacements do is stated by the `Rename*` lemmas below) |
| DiffFetcher.ReplaceAppDetailsWithDefaults | src/lib/diffFetcher.ts:244-257 | without an app name or package the text is unchanged |
| DiffFetcher.RenameApp | src/lib/diffFetcher.ts:247-257 | the four `replaceAll` steps for any template name and package; a text holding none of their identifiers comes back unchanged |
| DiffFetcher.RenameAppToItself | src/lib/diffFetcher.ts:247-257 | renaming an app to its own name and package changes nothing |
| DiffFetcher.RenameDirectory | src/lib/diffFetcher.ts:253 | replacing the name at the front of `name/rest` gives `new/rest` when the rest does not hold the name |
| DiffFetcher.RenameAppMovesPath | src/lib/diffFetcher.ts:247-257 | with the package kept, `name/rest` becomes `new/rest` when the rest holds no old name and the new path no lower-cased old name |
| DiffFetcher.ReplaceAppDetailsRenamesApp | src/lib/diffFetcher.ts:239-258 | given an app name `n`, `RnSafeUpgradeApp/rest` becomes `n/rest` (under the same side conditions) |
| DiffFetcher.RenameAppReplacesPackage | src/lib/diffFetcher.ts:247-257 | with the name kept, the old package becomes the new one when the new package does not hold the old package path |
| DiffFetcher.ReplaceAppDetailsRenamesPackage | src/lib/diffFetcher.ts:239-258 | given an app package `p`, `com.rnsafeupgradeapp` becomes `p` (when `p` does not hold `com/rnsafeupgradeapp`) |
| DiffFetcher.RenameAppReplacesPackagePath | src/lib/diffFetcher.ts:248-252 | with the name kept, the old package path becomes the new package with its dots turned into slashes, when the old package has a dot |
| DiffFetcher.ReplaceAppDetailsRenamesPackagePath | src/lib/diffFetcher.ts:239-258 | given an app package `p`, `com/rnsafeupgradeapp` becomes `p` with its dots turned into slashes |
| DiffFetcher.GetFilePathsToShow | src/lib/diffFetcher.ts:263-288 | an absent path shows as empty; a present one is sanitised, then stripped of one prefix |
| DiffFetcher.PathsToShowWithDefaults | src/lib/diffFetcher.ts:277-287 | with the defaults, `RnSafeUpgradeApp/x` shows as `x` |
| Strings.JoinSplit | src/lib/packageJsonMerger.ts:220-222 | joining the pieces of a split with the separator gives the text back |
| Strings.SplitUnlines | src/lib/packageJsonMerger.ts:241 | newline-terminated lines split back into those lines and one empty piece |
| Strings.ReplaceAllBySelf | src/lib/diffFetcher.ts:247-257 | replacing a pattern by itself changes nothing |
| Strings.RemoveCharsIdempotent | src/lib/diffFetcher.ts:38-39 | removing characters twice is removing them once |
| Strings.LastPieceFollowsLastSeparator | src/lib/diffFetcher.ts:115 | `split(sep).pop()` is the text after the last separator, or the whole text |

## Left out

- Network I/O. The registry request (`axios.get` with its 10 s timeout) is a `Registry` map parameter; an absent name is any failure. The diff download (`fetch` and the 300 ms delay) is a function parameter returning `Option<HttpResponse>`.
- `console.log` and `console.error` calls. The rethrow of the caught error in `fetchRNDiff` is an `Err` result.
- `parseDiff` from react-diff-view is a function parameter; the diff's text format is not modelled.
- `JSON.stringify(_, null, 2)` is a function parameter (`stringify`). The deep copy `JSON.parse(JSON.stringify(...))` is Dafny's value semantics, so `JSON.parse` does not appear.
- PackageJson: `name`, `version` and the three dependency records are separate fields, and only the remaining fields keep their order. The relative order of the top-level fields, which `JSON.stringify` prints, is not represented; it reaches the model only through the `stringify` parameter.
- The `semver` library: `rcompare`, `satisfies`, `coerce` and `major` are fields of a `Semver` record, with their range grammar not modelled. `major` is partial; where it would throw, the verdict and the batch end in `Err(InvalidVersion)`.
- NpmApi.GetAvailableVersions: `semver.rcompare` throws on a string that is not a valid version, and `getAvailableVersions` would then throw. The model's `rcompare` is total, so a registry record with such a version key still gives a sorted list.
- CompatibilityChecker.CompatibleVersion, CompatibilityChecker.FindCompatibleVersion: `findCompatibleVersion` sorts the version keys with `semver.rcompare` too, so in the source one key that is not valid semver makes `analyzeDependency` reject. The model's total `rcompare` gives a verdict instead.
- CompatibilityChecker.AnalyzeAllDependencies: the `await` of each analysis has no `catch`, so such a rejection rejects the whole batch. The model then still returns one verdict per entry; it ends the batch early only where `major` throws.
- Types.Json: JSON numbers are integers (`JNumber(n: int)`); fractional and exponent numbers are not represented.
- Strings.ReplaceAll: `String.prototype.replaceAll` treats `$$`, `$&`, `` $` `` and `$'` in the replacement string as patterns. The model inserts the replacement literally, so `replaceAppDetails` differs when `appName` or `appPackage` contains `$`.
- async and Promise: everything runs in sequence.
- `toLowerCase` is modelled on ASCII letters only, with no Unicode case mapping.
- MovePackageJsonToTop: with two or more `package.json` files the comparator is not a consistent order, and the engine's result is implementation-defined. The model uses one stable insertion sort and proves the stable partition for it.
- RemoveAppPathPrefix: the app name is put into a regular expression unescaped. The model removes it as a literal prefix, which is the same only when the name has no regular-expression metacharacters.
- Object-key lookups such as `RN_DIFF_REPOSITORIES[name]`, `RN_CHANGELOG_URLS[name]` and `languageMap[ext]` can also reach inherited properties (`constructor`, `toString`). The model looks up only the table's own entries.
- Get: a JavaScript object holds each key once. An entry sequence could hold a key twice; the lookup then finds the first entry, a case that parsed JSON never produces.
- React components, pages and the UI's own copy of the summary classification are not part of this model.
- Integer keys of JavaScript objects, which the engine orders first, are not modelled: every record keeps its insertion order.
