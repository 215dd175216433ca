/** The compatibility resolver and the batch loop (src/lib/compatibilityChecker.ts). */
module CompatibilityChecker {
  import opened Types
  import opened Semver
  import opened NpmApi
  import Sorting

  const CorePackageReason := "React Native core package"
  const FetchFailedReason := "Could not fetch package information from npm"
  const PeerAnalysisReason := "Based on peer dependency analysis"

  /** The registry's web page listing a package's versions. */
  function ChangelogUrlFor(packageName: string): string {
    "https://www.npmjs.com/package/" + packageName + "?activeTab=versions"
  }

  /** `packageInfo.versions[version].peerDependencies?.["react-native"]`. */
  function ReactNativePeerRange(info: NpmPackageInfo, version: string): Option<string> {
    match Get(info.versions, version)
    case None => None
    case Some(vi) =>
      if vi.peerDependencies.None? then None else Get(vi.peerDependencies.value, ReactNative)
  }

  /** A version declares a (non-empty) peer range on react-native that the
      target satisfies. */
  predicate AcceptsTarget(info: NpmPackageInfo, version: string, target: string, sv: Semver) {
    var range := ReactNativePeerRange(info, version);
    Truthy(range) && sv.satisfies(target, range.value)
  }

  /** The position of the first version in `versions` that accepts the target,
      or `|versions|` when none does. */
  function FirstAcceptingIndex(versions: seq<string>, info: NpmPackageInfo, target: string, sv: Semver): (k: nat)
    ensures k <= |versions|
    ensures forall j :: 0 <= j < k ==> !AcceptsTarget(info, versions[j], target, sv)
    ensures k < |versions| ==> AcceptsTarget(info, versions[k], target, sv)
  {
    if versions == [] then 0
    else if AcceptsTarget(info, versions[0], target, sv) then 0
    else 1 + FirstAcceptingIndex(versions[1..], info, target, sv)
  }

  /** The version `findCompatibleVersion` settles on: the first accepting one
      in newest-first order, else the `latest` tag. */
  function CompatibleVersion(info: NpmPackageInfo, target: string, sv: Semver): string {
    var versions := GetAvailableVersions(info, sv);
    var k := FirstAcceptingIndex(versions, info, target, sv);
    if k < |versions| then versions[k] else GetLatestVersion(info)
  }

  /** `findCompatibleVersion`: walk the versions newest first, skip those
      without a react-native peer range, return the first whose range the
      target satisfies; fall back to `latest`. */
  method FindCompatibleVersion(info: NpmPackageInfo, target: string, sv: Semver) returns (version: string)
    ensures version == CompatibleVersion(info, target, sv)
    ensures version in Keys(info.versions) || version == GetLatestVersion(info)
  {
    CompatibleVersionIsPublishedOrLatest(info, target, sv);
    var versions := GetAvailableVersions(info, sv);
    for k := 0 to |versions|
      invariant forall j :: 0 <= j < k ==> !AcceptsTarget(info, versions[j], target, sv)
    {
      var peerRange := ReactNativePeerRange(info, versions[k]);
      if !Truthy(peerRange) {
        NoneAcceptsExtends(versions, info, target, sv, k);
        continue;
      }
      if sv.satisfies(target, peerRange.value) {
        FirstAcceptingIndexIsFirst(versions, info, target, sv, k);
        return versions[k];
      }
      NoneAcceptsExtends(versions, info, target, sv, k);
    }
    FirstAcceptingIndexIsFirst(versions, info, target, sv, |versions|);
    return GetLatestVersion(info);
  }

  lemma NoneAcceptsExtends(versions: seq<string>, info: NpmPackageInfo, target: string, sv: Semver, k: nat)
    requires k < |versions|
    requires forall j :: 0 <= j < k ==> !AcceptsTarget(info, versions[j], target, sv)
    requires !Truthy(ReactNativePeerRange(info, versions[k])) || !sv.satisfies(target, ReactNativePeerRange(info, versions[k]).value)
    ensures forall j :: 0 <= j < k + 1 ==> !AcceptsTarget(info, versions[j], target, sv)
  {
  }

  /** An index before which nothing accepts and at which the target is
      accepted (or the end) is the first accepting index. */
  lemma FirstAcceptingIndexIsFirst(versions: seq<string>, info: NpmPackageInfo, target: string, sv: Semver, k: nat)
    requires k <= |versions|
    requires forall j :: 0 <= j < k ==> !AcceptsTarget(info, versions[j], target, sv)
    requires k < |versions| ==> AcceptsTarget(info, versions[k], target, sv)
    ensures FirstAcceptingIndex(versions, info, target, sv) == k
  {
  }

  /** The recommendation is a published version or the `latest` tag. */
  lemma CompatibleVersionIsPublishedOrLatest(info: NpmPackageInfo, target: string, sv: Semver)
    ensures var r := CompatibleVersion(info, target, sv);
            r in Keys(info.versions) || r == GetLatestVersion(info)
  {
    var versions := GetAvailableVersions(info, sv);
    var k := FirstAcceptingIndex(versions, info, target, sv);
    if k < |versions| {
      assert versions[k] in multiset(versions);
    }
  }

  /** When some published version accepts the target, the recommendation is an
      accepting published version, and no accepting version is newer. */
  lemma CompatibleVersionIsNewestAccepting(info: NpmPackageInfo, target: string, sv: Semver, v: string)
    requires OrderIsPreorder(sv)
    requires v in Keys(info.versions) && AcceptsTarget(info, v, target, sv)
    ensures var r := CompatibleVersion(info, target, sv);
            && r in Keys(info.versions)
            && AcceptsTarget(info, r, target, sv)
            && sv.rcompare(r, v) <= 0
  {
    var versions := GetAvailableVersions(info, sv);
    AvailableVersionsSorted(info, sv);
    assert v in multiset(versions);
    var i :| 0 <= i < |versions| && versions[i] == v;
    FirstAcceptingIsNewest(versions, info, target, sv, i);
    var k := FirstAcceptingIndex(versions, info, target, sv);
    assert versions[k] in multiset(versions);
  }

  /** In a newest-first list the first accepting version is at least as new
      as any other accepting one. */
  lemma FirstAcceptingIsNewest(versions: seq<string>, info: NpmPackageInfo, target: string, sv: Semver, i: nat)
    requires OrderIsPreorder(sv) && Sorting.SortedBy(versions, sv.rcompare)
    requires i < |versions| && AcceptsTarget(info, versions[i], target, sv)
    ensures var k := FirstAcceptingIndex(versions, info, target, sv);
            k <= i && sv.rcompare(versions[k], versions[i]) <= 0
  {
    var k := FirstAcceptingIndex(versions, info, target, sv);
    if k == i {
      var x := versions[i];
      assert sv.rcompare(x, x) <= 0;
    }
  }

  /** When no published version accepts the target, `latest` is recommended. */
  lemma NoAcceptingVersionFallsBackToLatest(info: NpmPackageInfo, target: string, sv: Semver)
    requires forall v :: v in Keys(info.versions) ==> !AcceptsTarget(info, v, target, sv)
    ensures CompatibleVersion(info, target, sv) == GetLatestVersion(info)
  {
    var versions := GetAvailableVersions(info, sv);
    var k := FirstAcceptingIndex(versions, info, target, sv);
    assert forall j :: 0 <= j < |versions| ==> versions[j] in multiset(Keys(info.versions));
  }

  /** The only accepting version is the one selected, however new the others
      are (the "2.0.0 / 1.5.0 / 1.0.0" example). */
  lemma SoleAcceptingVersionIsSelected(info: NpmPackageInfo, target: string, sv: Semver, v: string)
    requires v in Keys(info.versions) && AcceptsTarget(info, v, target, sv)
    requires forall w :: w in Keys(info.versions) && w != v ==> !AcceptsTarget(info, w, target, sv)
    ensures CompatibleVersion(info, target, sv) == v
  {
    var versions := GetAvailableVersions(info, sv);
    assert v in multiset(versions);
    var i :| 0 <= i < |versions| && versions[i] == v;
    var k := FirstAcceptingIndex(versions, info, target, sv);
    assert versions[k] in multiset(Keys(info.versions));
  }

  /** A version that accepts the target is one `hasPeerDependencies` reports
      as having a react-native peer. */
  lemma AcceptingVersionHasPeer(info: NpmPackageInfo, version: string, target: string, sv: Semver)
    requires AcceptsTarget(info, version, target, sv)
    ensures HasPeerDependencies(info, version, ReactNative)
  {
    var vi := Get(info.versions, version).value;
    assert Get(info.versions, version) == Some(vi);
  }

  /** `createAnalysis`. `semver.major` is asked only when an update is needed
      (short-circuit `&&`), and throwing there is an `Err`. */
  function CreateAnalysis(packageName: string, currentVersion: string, recommendedVersion: string,
                          latestVersion: string, reason: string, sv: Semver): (r: Result<DependencyAnalysis>)
    ensures var current := Coerced(sv, currentVersion);
            var recommended := Coerced(sv, recommendedVersion);
            r.Err? <==> current != recommended && (sv.major(recommended).None? || sv.major(current).None?)
    ensures r.Ok? ==> && r.value.package == packageName
                      && r.value.currentVersion == currentVersion
                      && r.value.recommendedVersion == recommendedVersion
                      && r.value.latestVersion == latestVersion
                      && r.value.reason == reason
                      && r.value.changelogUrl == Some(ChangelogUrlFor(packageName))
    ensures r.Ok? ==> r.value.needsUpdate == (Coerced(sv, currentVersion) != Coerced(sv, recommendedVersion))
    ensures r.Ok? ==> (r.value.hasBreakingChanges ==> r.value.needsUpdate)
    ensures r.Ok? && r.value.needsUpdate ==>
              r.value.hasBreakingChanges == (sv.major(Coerced(sv, recommendedVersion)).value > sv.major(Coerced(sv, currentVersion)).value)
    ensures r.Ok? ==> r.value.compatibilityStatus == if r.value.needsUpdate then Warning else Compatible
  {
    var current := Coerced(sv, currentVersion);
    var recommended := Coerced(sv, recommendedVersion);
    var needsUpdate := current != recommended;
    if needsUpdate && sv.major(recommended).None? then Err(InvalidVersion(recommended))
    else if needsUpdate && sv.major(current).None? then Err(InvalidVersion(current))
    else
      var hasBreakingChanges := needsUpdate && sv.major(recommended).value > sv.major(current).value;
      var status := if hasBreakingChanges then Warning else if needsUpdate then Warning else Compatible;
      Ok(DependencyAnalysis(packageName, currentVersion, recommendedVersion, latestVersion,
                            needsUpdate, hasBreakingChanges, status, reason, Some(ChangelogUrlFor(packageName))))
  }

  /** Versions that coerce never make `createAnalysis` throw. */
  lemma CoercibleVersionsNeverThrow(packageName: string, currentVersion: string, recommendedVersion: string,
                                    latestVersion: string, reason: string, sv: Semver)
    requires CoerceGivesVersions(sv)
    requires sv.coerce(currentVersion).Some? && sv.coerce(recommendedVersion).Some?
    ensures CreateAnalysis(packageName, currentVersion, recommendedVersion, latestVersion, reason, sv).Ok?
  {
  }

  /** `analyzeDependency`, given what `fetchPackageInfo` answered (`info`; it
      is not consulted for react-native). */
  function Verdict(packageName: string, currentVersion: string, target: string,
                   info: Option<NpmPackageInfo>, sv: Semver): (r: Result<DependencyAnalysis>)
    ensures r.Ok? ==> r.value.package == packageName && r.value.currentVersion == currentVersion
    ensures r.Ok? ==> (r.value.hasBreakingChanges ==> r.value.needsUpdate)
    ensures r.Ok? ==> r.value.compatibilityStatus != Incompatible
    ensures packageName == ReactNative ==>
              r == Ok(DependencyAnalysis(packageName, currentVersion, target, target,
                                         currentVersion != target, false, Compatible, CorePackageReason, None))
    ensures packageName != ReactNative && info.None? ==>
              r == Ok(DependencyAnalysis(packageName, currentVersion, currentVersion, "unknown",
                                         false, false, Unknown, FetchFailedReason, None))
    ensures packageName != ReactNative && info.Some? ==>
              && (r.Ok? ==> r.value.recommendedVersion == CompatibleVersion(info.value, target, sv)
                            && r.value.latestVersion == GetLatestVersion(info.value)
                            && r.value.compatibilityStatus == (if r.value.needsUpdate then Warning else Compatible))
    ensures r.Err? ==> packageName != ReactNative && info.Some?
  {
    if packageName == ReactNative then
      Ok(DependencyAnalysis(packageName, currentVersion, target, target,
                            currentVersion != target, false, Compatible, CorePackageReason, None))
    else if info.None? then
      Ok(DependencyAnalysis(packageName, currentVersion, currentVersion, "unknown",
                            false, false, Unknown, FetchFailedReason, None))
    else
      var latestVersion := GetLatestVersion(info.value);
      var recommendedVersion := CompatibleVersion(info.value, target, sv);
      CreateAnalysis(packageName, currentVersion, recommendedVersion, latestVersion, PeerAnalysisReason, sv)
  }

  /** What the resolver passes on from the fetch: nothing for react-native. */
  function LookupFor(cache: map<string, NpmPackageInfo>, registry: Registry, packageName: string): Option<NpmPackageInfo> {
    if packageName == ReactNative then None else Fetched(cache, registry, packageName)
  }

  function CacheAfterLookup(cache: map<string, NpmPackageInfo>, registry: Registry, packageName: string): map<string, NpmPackageInfo> {
    if packageName == ReactNative then cache else CacheAfterFetch(cache, registry, packageName)
  }

  /** `analyzeDependency`: the react-native verdict is fixed without a
      request; every other package goes through the registry cache. */
  method AnalyzeDependency(cache: PackageCache, registry: Registry, packageName: string,
                           currentVersion: string, target: string, sv: Semver)
    returns (r: Result<DependencyAnalysis>)
    requires cache.Valid()
    modifies cache
    ensures cache.Valid()
    ensures r == Verdict(packageName, currentVersion, target, LookupFor(old(cache.entries), registry, packageName), sv)
    ensures cache.entries == CacheAfterLookup(old(cache.entries), registry, packageName)
    ensures packageName == ReactNative ==> cache.requests == old(cache.requests)
  {
    if packageName == ReactNative {
      return Ok(DependencyAnalysis(packageName, currentVersion, target, target,
                                   currentVersion != target, false, Compatible, CorePackageReason, None));
    }
    var packageInfo := cache.FetchPackageInfo(packageName, registry);
    if packageInfo.None? {
      return Ok(DependencyAnalysis(packageName, currentVersion, currentVersion, "unknown",
                                   false, false, Unknown, FetchFailedReason, None));
    }
    var latestVersion := GetLatestVersion(packageInfo.value);
    var recommendedVersion := FindCompatibleVersion(packageInfo.value, target, sv);
    r := CreateAnalysis(packageName, currentVersion, recommendedVersion, latestVersion, PeerAnalysisReason, sv);
  }

  /** The outcome of a batch: the verdicts or the error that aborted it, how
      many entries were started, and the cache left behind. */
  datatype BatchOutcome = BatchOutcome(results: Result<seq<DependencyAnalysis>>, started: nat,
                                       cache: map<string, NpmPackageInfo>)

  /** `done` verdicts put in front of the outcome of the remaining entries. */
  function AfterPrefix(done: seq<DependencyAnalysis>, rest: BatchOutcome): BatchOutcome {
    BatchOutcome(if rest.results.Ok? then Ok(done + rest.results.value) else rest.results,
                 |done| + rest.started, rest.cache)
  }

  lemma AfterEmptyPrefix(out: BatchOutcome)
    ensures AfterPrefix([], out) == out
  {
    if out.results.Ok? {
      assert [] + out.results.value == out.results.value;
    }
  }

  /** `analyzeAllDependencies` over `entries`, in order, starting from `cache`. */
  function AnalyzeAll(entries: Deps, cache: map<string, NpmPackageInfo>, registry: Registry,
                      target: string, sv: Semver): BatchOutcome
    decreases |entries|
  {
    if entries == [] then BatchOutcome(Ok([]), 0, cache)
    else
      var packageName := entries[0].0;
      var cache' := CacheAfterLookup(cache, registry, packageName);
      match Verdict(packageName, entries[0].1, target, LookupFor(cache, registry, packageName), sv)
      case Err(e) => BatchOutcome(Err(e), 1, cache')
      case Ok(a) => AfterPrefix([a], AnalyzeAll(entries[1..], cache', registry, target, sv))
  }

  /** The `onProgress` calls for `started` entries out of `total`. */
  function ProgressCalls(started: nat, total: nat): (calls: seq<(nat, nat)>)
    ensures |calls| == started
    ensures forall i :: 0 <= i < started ==> calls[i] == (i + 1, total)
  {
    seq(started, i requires 0 <= i < started => (i + 1, total))
  }

  /** A batch gives one verdict per entry, in entry order, or stops at an
      entry that throws; it starts at least that entry and no more. */
  lemma {:induction false} BatchOneVerdictPerEntry(entries: Deps, cache: map<string, NpmPackageInfo>,
                                                   registry: Registry, target: string, sv: Semver)
    ensures var out := AnalyzeAll(entries, cache, registry, target, sv);
            && out.started <= |entries|
            && (out.results.Ok? ==>
                  && out.started == |entries|
                  && |out.results.value| == |entries|
                  && forall i :: 0 <= i < |entries| ==>
                       && out.results.value[i].package == entries[i].0
                       && out.results.value[i].currentVersion == entries[i].1
                       && (out.results.value[i].hasBreakingChanges ==> out.results.value[i].needsUpdate))
            && (out.results.Err? ==> 1 <= out.started)
    decreases |entries|
  {
    if entries != [] {
      var packageName := entries[0].0;
      var cache' := CacheAfterLookup(cache, registry, packageName);
      BatchOneVerdictPerEntry(entries[1..], cache', registry, target, sv);
    }
  }

  /** Unfolding the batch at its first remaining entry. */
  lemma AnalyzeAllAt(entries: Deps, i: nat, cache: map<string, NpmPackageInfo>, registry: Registry,
                     target: string, sv: Semver)
    requires i < |entries|
    ensures var packageName := entries[i].0;
            var cache' := CacheAfterLookup(cache, registry, packageName);
            var verdict := Verdict(packageName, entries[i].1, target, LookupFor(cache, registry, packageName), sv);
            AnalyzeAll(entries[i..], cache, registry, target, sv)
              == if verdict.Err? then BatchOutcome(Err(verdict.error), 1, cache')
                 else AfterPrefix([verdict.value], AnalyzeAll(entries[i + 1..], cache', registry, target, sv))
  {
    assert entries[i..][0] == entries[i] && entries[i..][1..] == entries[i + 1..];
  }

  /** One entry of the batch, in the terms the loop keeps. */
  lemma BatchStep(entries: Deps, i: nat, done: seq<DependencyAnalysis>, whole: BatchOutcome,
                  before: map<string, NpmPackageInfo>, registry: Registry, target: string, sv: Semver)
    requires i < |entries|
    requires whole == AfterPrefix(done, AnalyzeAll(entries[i..], before, registry, target, sv))
    ensures var packageName := entries[i].0;
            var after := CacheAfterLookup(before, registry, packageName);
            var verdict := Verdict(packageName, entries[i].1, target, LookupFor(before, registry, packageName), sv);
            if verdict.Err? then whole == BatchOutcome(Err(verdict.error), |done| + 1, after)
            else whole == AfterPrefix(done + [verdict.value], AnalyzeAll(entries[i + 1..], after, registry, target, sv))
  {
    AnalyzeAllAt(entries, i, before, registry, target, sv);
    var packageName := entries[i].0;
    var after := CacheAfterLookup(before, registry, packageName);
    var verdict := Verdict(packageName, entries[i].1, target, LookupFor(before, registry, packageName), sv);
    if verdict.Ok? {
      AfterPrefixAppend(done, verdict.value, AnalyzeAll(entries[i + 1..], after, registry, target, sv));
    }
  }

  lemma ProgressCallsNext(i: nat, total: nat)
    ensures ProgressCalls(i, total) + [(i + 1, total)] == ProgressCalls(i + 1, total)
  {
  }

  lemma AfterPrefixAppend(done: seq<DependencyAnalysis>, a: DependencyAnalysis, rest: BatchOutcome)
    ensures AfterPrefix(done, AfterPrefix([a], rest)) == AfterPrefix(done + [a], rest)
  {
    if rest.results.Ok? {
      assert done + ([a] + rest.results.value) == done + [a] + rest.results.value;
    }
  }

  /** `analyzeAllDependencies`: one entry at a time, `onProgress(i + 1, n)`
      before each is analysed (only when a callback is given); an exception
      aborts the rest. The calls made are returned in `progress`. */
  method AnalyzeAllDependencies(cache: PackageCache, registry: Registry, dependencies: Deps,
                                target: string, hasProgressCallback: bool, sv: Semver)
    returns (results: Result<seq<DependencyAnalysis>>, progress: seq<(nat, nat)>)
    requires cache.Valid()
    modifies cache
    ensures cache.Valid()
    ensures var out := AnalyzeAll(dependencies, old(cache.entries), registry, target, sv);
            && results == out.results
            && cache.entries == out.cache
            && progress == if hasProgressCallback then ProgressCalls(out.started, |dependencies|) else []
  {
    var entries := dependencies;
    var done: seq<DependencyAnalysis> := [];
    progress := [];
    ghost var start := cache.entries;
    assert entries[0..] == entries;
    AfterEmptyPrefix(AnalyzeAll(entries, start, registry, target, sv));
    for i := 0 to |entries|
      invariant cache.Valid()
      invariant |done| == i
      invariant AnalyzeAll(entries, start, registry, target, sv)
                == AfterPrefix(done, AnalyzeAll(entries[i..], cache.entries, registry, target, sv))
      invariant progress == if hasProgressCallback then ProgressCalls(i, |entries|) else []
    {
      var packageName := entries[i].0;
      var version := entries[i].1;
      if hasProgressCallback {
        progress := progress + [(i + 1, |entries|)];
      }
      ProgressCallsNext(i, |entries|);
      BatchStep(entries, i, done, AnalyzeAll(entries, start, registry, target, sv), cache.entries, registry, target, sv);
      var analysis := AnalyzeDependency(cache, registry, packageName, version, target, sv);
      if analysis.Err? {
        return Err(analysis.error), progress;
      }
      done := done + [analysis.value];
    }
    assert entries[|entries|..] == [];
    assert done + [] == done;
    results := Ok(done);
  }
}
