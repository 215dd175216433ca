/** Records shared by the upgrade helper's library code (src/lib/types.ts) and
    its fixed tables (src/lib/constants.ts). */
module Types {

  datatype Option<T> = None | Some(value: T)

  /** What a thrown exception or a rejected promise carries in the source. */
  datatype Error =
    | InvalidVersion(version: string)                  // semver.major on a string that is not a version
    | DiffFetchFailed(status: nat, statusText: string) // a diff download with a non-2xx answer
    | EmptyDiff                                        // a diff download whose body is blank
    | NetworkError                                     // a diff download whose `fetch` rejects

  datatype Result<T> = Ok(value: T) | Err(error: Error)

  /** A JSON object of string values (`Record<string, string>`), entries in
      insertion order: JavaScript's key order is observable here. */
  type Deps = seq<(string, string)>

  /** The keys of an entry list, in order (`Object.keys`). */
  function Keys<V>(entries: seq<(string, V)>): (ks: seq<string>)
    ensures |ks| == |entries|
    ensures forall i :: 0 <= i < |entries| ==> ks[i] == entries[i].0
  {
    seq(|entries|, i requires 0 <= i < |entries| => entries[i].0)
  }

  /** `obj[key]`: the value stored under `key`, or `undefined`. */
  function Get<V>(entries: seq<(string, V)>, key: string): (r: Option<V>)
    ensures r.Some? <==> key in Keys(entries)
    ensures r.Some? ==> exists i :: 0 <= i < |entries| && entries[i] == (key, r.value)
  {
    if entries == [] then None
    else if entries[0].0 == key then Some(entries[0].1)
    else Get(entries[1..], key)
  }

  /** The first entry with the key decides. */
  lemma {:induction false} GetAtFirstMatch<V>(entries: seq<(string, V)>, k: nat, key: string)
    requires k < |entries| && entries[k].0 == key
    requires forall i :: 0 <= i < k ==> entries[i].0 != key
    ensures Get(entries, key) == Some(entries[k].1)
  {
    if k > 0 {
      GetAtFirstMatch(entries[1..], k - 1, key);
    }
  }

  /** `opt || {}` for an optional record. */
  function OrEmpty(d: Option<Deps>): Deps {
    if d.Some? then d.value else []
  }

  /** JavaScript truthiness of an optional string: `undefined` and `""` are falsy. */
  predicate Truthy(s: Option<string>) {
    s.Some? && s.value != ""
  }

  /** `a || b` on optional strings. */
  function Or(a: Option<string>, b: Option<string>): Option<string> {
    if Truthy(a) then a else b
  }

  /** A JSON value for the manifest fields the core passes through untouched.
      Numbers are integers here; floating point is not modelled. */
  datatype Json =
    | JNull
    | JBool(b: bool)
    | JNumber(n: int)
    | JString(s: string)
    | JArray(items: seq<Json>)
    | JObject(members: seq<(string, Json)>)

  /** JavaScript truthiness of a JSON value. */
  predicate JsonTruthy(j: Json) {
    match j
    case JNull => false
    case JBool(b) => b
    case JNumber(n) => n != 0
    case JString(s) => s != ""
    case _ => true
  }

  /** A package manifest: the three dependency records interpreted by the core,
      and every other field kept opaquely, in order. */
  datatype PackageJson = PackageJson(
    name: string,
    version: string,
    dependencies: Option<Deps>,
    devDependencies: Option<Deps>,
    peerDependencies: Option<Deps>,
    otherFields: seq<(string, Json)>)

  datatype CompatibilityStatus = Compatible | Warning | Incompatible | Unknown

  /** One verdict of the compatibility resolver. */
  datatype DependencyAnalysis = DependencyAnalysis(
    package: string,
    currentVersion: string,
    recommendedVersion: string,
    latestVersion: string,
    needsUpdate: bool,
    hasBreakingChanges: bool,
    compatibilityStatus: CompatibilityStatus,
    reason: string,
    changelogUrl: Option<string>)

  /** One published version's metadata; `engines` and the rest stay opaque. */
  datatype VersionInfo = VersionInfo(
    version: string,
    peerDependencies: Option<Deps>,
    otherFields: seq<(string, Json)>)

  /** The `dist-tags` object: `latest` and any other tags. */
  datatype DistTags = DistTags(latest: string, otherTags: Deps)

  /** A registry record for one package. */
  datatype NpmPackageInfo = NpmPackageInfo(
    name: string,
    distTags: DistTags,
    versions: seq<(string, VersionInfo)>,
    time: Deps)

  datatype DiffType = Add | Delete | Modify | Rename

  /** One file of a template diff, as the diff parser hands it over. */
  datatype DiffFile = DiffFile(
    oldPath: string,
    newPath: string,
    diffType: DiffType,
    hunks: seq<Json>,
    oldRevision: Option<string>,
    newRevision: Option<string>,
    isBinary: Option<bool>)

  // src/lib/constants.ts

  const DefaultAppName := "RnSafeUpgradeApp"
  const DefaultAppPackage := "com.rnsafeupgradeapp"

  const ReactNative := "react-native"
  const ReactNativeMacos := "react-native-macos"
  const ReactNativeWindows := "react-native-windows"

  const ReactNativeDiffRepo := "react-native-community/rn-diff-purge"
  const ReactNativeMacosRepo := "microsoft/react-native-macos"
  const ReactNativeWindowsRepo := "microsoft/react-native-windows"

  const RnDiffRepositories: seq<(string, string)> := [
    (ReactNative, ReactNativeDiffRepo),
    (ReactNativeMacos, ReactNativeMacosRepo),
    (ReactNativeWindows, ReactNativeWindowsRepo)
  ]

  const ReactNativeChangelog := "https://github.com/facebook/react-native/blob/main/CHANGELOG.md"
  const ReactNativeMacosReleases := "https://github.com/microsoft/react-native-macos/releases/tag/"
  const ReactNativeWindowsReleases := "https://github.com/microsoft/react-native-windows/releases/tag/react-native-windows_"

  const RnChangelogUrls: seq<(string, string)> := [
    (ReactNative, ReactNativeChangelog),
    (ReactNativeMacos, ReactNativeMacosReleases),
    (ReactNativeWindows, ReactNativeWindowsReleases)
  ]
}
