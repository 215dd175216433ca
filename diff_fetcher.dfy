/** The template-diff helpers of src/lib/diffFetcher.ts: URLs for the
    pre-computed template diffs and the changelogs, the reordering and
    classification of the diff's files, and the substitution of the
    template app's name and package in displayed paths. */
module DiffFetcher {
  import opened Types
  import opened Strings
  import Sorting

  // ---------------------------------------------------------------------
  // Diff URL and download

  /** `packageName = PACKAGE_NAMES.RN`: the default applies only to an absent argument. */
  function PackageOrDefault(packageName: Option<string>): string {
    if packageName.Some? then packageName.value else ReactNative
  }

  /** The diff repository for a package; an unknown name falls back to react-native's. */
  function RepoFor(packageName: string): (repo: string)
    ensures Get(RnDiffRepositories, packageName).Some? ==> repo == Get(RnDiffRepositories, packageName).value
    ensures Get(RnDiffRepositories, packageName).None? ==> repo == Get(RnDiffRepositories, ReactNative).value
  {
    Or(Get(RnDiffRepositories, packageName), Get(RnDiffRepositories, ReactNative)).value
  }

  const RawGithubPrefix := "https://raw.githubusercontent.com/"

  /** `getDiffURL`: the raw-content prefix and the package's repository, then
      `<from>..<to>.diff` at the end. */
  function GetDiffURL(packageName: Option<string>, fromVersion: string, toVersion: string): (url: string)
    ensures RawGithubPrefix + RepoFor(PackageOrDefault(packageName)) + "/diffs/diffs/" <= url
    ensures EndsWith(url, fromVersion + ".." + toVersion + ".diff")
    ensures |url| == |RawGithubPrefix + RepoFor(PackageOrDefault(packageName)) + "/diffs/diffs/"|
                     + |fromVersion + ".." + toVersion + ".diff"|
  {
    var head := RawGithubPrefix + RepoFor(PackageOrDefault(packageName)) + "/diffs/diffs/";
    var tail := fromVersion + ".." + toVersion + ".diff";
    assert (head + tail)[|head + tail| - |tail|..] == tail;
    head + tail
  }

  /** Each of the three known packages gets its own repository, anything else react-native's. */
  lemma DiffRepositories(name: string)
    ensures RepoFor(ReactNative) == ReactNativeDiffRepo
    ensures RepoFor(ReactNativeMacos) == ReactNativeMacosRepo
    ensures RepoFor(ReactNativeWindows) == ReactNativeWindowsRepo
    ensures name !in Keys(RnDiffRepositories) ==> RepoFor(name) == ReactNativeDiffRepo
  {
    var table := RnDiffRepositories;
    assert table[1..] == [(ReactNativeMacos, ReactNativeMacosRepo), (ReactNativeWindows, ReactNativeWindowsRepo)];
    assert Get(table[1..], ReactNativeMacos) == Some(ReactNativeMacosRepo);
    assert table[1..][1..] == [(ReactNativeWindows, ReactNativeWindowsRepo)];
    assert Get(table[1..][1..], ReactNativeWindows) == Some(ReactNativeWindowsRepo);
  }

  /** Without a package name, and for a package without its own diff
      repository, the URL is react-native's. */
  lemma DefaultDiffURL(name: string, fromVersion: string, toVersion: string)
    requires name !in Keys(RnDiffRepositories)
    ensures GetDiffURL(None, fromVersion, toVersion) == GetDiffURL(Some(ReactNative), fromVersion, toVersion)
    ensures GetDiffURL(Some(name), fromVersion, toVersion) == GetDiffURL(None, fromVersion, toVersion)
  {
    DiffRepositories(name);
  }

  /** `version.replace(/[\^~]/g, "")`. */
  function CleanVersion(version: string): (r: string)
    ensures '^' !in r && '~' !in r
    ensures forall c :: c != '^' && c != '~' ==> multiset(r)[c] == multiset(version)[c]
  {
    RemoveChars(version, {'^', '~'})
  }

  /** Cleaning a cleaned version changes nothing. */
  lemma CleanVersionIdempotent(version: string)
    ensures CleanVersion(CleanVersion(version)) == CleanVersion(version)
  {
    RemoveCharsIdempotent(version, {'^', '~'});
  }

  /** The URL `fetchRNDiff` requests: both versions cleaned first. */
  function FetchRNDiffURL(fromVersion: string, toVersion: string, packageName: Option<string>): string {
    GetDiffURL(packageName, CleanVersion(fromVersion), CleanVersion(toVersion))
  }

  /** Range operators on the versions do not change the URL. */
  lemma FetchRNDiffURLIgnoresRangeOperators(fromVersion: string, toVersion: string, packageName: Option<string>)
    ensures FetchRNDiffURL("^" + fromVersion, "~" + toVersion, packageName) == FetchRNDiffURL(fromVersion, toVersion, packageName)
  {
    assert "^" + fromVersion == ['^'] + fromVersion;
    RemoveCharsPrefix('^', fromVersion, {'^', '~'});
    RemoveCharsPrefix('~', toVersion, {'^', '~'});
  }

  lemma RemoveCharsPrefix(c: char, s: string, drop: set<char>)
    requires c in drop
    ensures RemoveChars([c] + s, drop) == RemoveChars(s, drop)
    decreases |s|
  {
    if s != [] {
      var t := [c] + s;
      assert t[..|t| - 1] == [c] + s[..|s| - 1];
      RemoveCharsPrefix(c, s[..|s| - 1], drop);
    } else {
      assert ([c] + s)[..0] == [];
    }
  }

  /** What `fetch` resolves to. */
  datatype HttpResponse = HttpResponse(ok: bool, status: nat, statusText: string, body: string)

  /** `fetchRNDiff`: `fetch` (absent when it rejects) and the diff parser are
      parameters. A non-ok answer, a blank body and a rejection abort; a good
      body is parsed and package.json moved to the top. */
  function FetchRNDiff(fromVersion: string, toVersion: string, packageName: Option<string>,
                       fetch: string -> Option<HttpResponse>, parseDiff: string -> seq<DiffFile>): (r: Result<seq<DiffFile>>)
    ensures var resp := fetch(FetchRNDiffURL(fromVersion, toVersion, packageName));
            && (resp.None? ==> r == Err(NetworkError))
            && (resp.Some? && !resp.value.ok ==> r == Err(DiffFetchFailed(resp.value.status, resp.value.statusText)))
            && (resp.Some? && resp.value.ok && IsBlank(resp.value.body) ==> r == Err(EmptyDiff))
            && (r.Ok? <==> resp.Some? && resp.value.ok && !IsBlank(resp.value.body))
            && (r.Ok? ==> r.value == MovePackageJsonToTop(parseDiff(resp.value.body)))
            && (r.Ok? ==> multiset(r.value) == multiset(parseDiff(resp.value.body)))
  {
    var response := fetch(FetchRNDiffURL(fromVersion, toVersion, packageName));
    if response.None? then Err(NetworkError)
    else if !response.value.ok then Err(DiffFetchFailed(response.value.status, response.value.statusText))
    else if IsBlank(response.value.body) then Err(EmptyDiff)
    else Ok(MovePackageJsonToTop(parseDiff(response.value.body)))
  }

  // ---------------------------------------------------------------------
  // package.json first

  /** `file.newPath || file.oldPath || ""`. */
  function FilePath(file: DiffFile): string {
    if file.newPath != "" then file.newPath else file.oldPath
  }

  predicate IsPackageJsonFile(file: DiffFile) {
    Contains(FilePath(file), "package.json")
  }

  /** The comparator of `movePackageJsonToTop`. */
  function PackageJsonFirst(a: DiffFile, b: DiffFile): int {
    if IsPackageJsonFile(a) then -1 else if IsPackageJsonFile(b) then 1 else 0
  }

  /** `movePackageJsonToTop`: a sorted copy. */
  function MovePackageJsonToTop(files: seq<DiffFile>): (r: seq<DiffFile>)
    ensures multiset(r) == multiset(files)
  {
    Sorting.Sort(files, PackageJsonFirst)
  }

  /** The model's sort is a stable partition: the package.json files first,
      then the rest, each group in input order. */
  lemma MoveIsStablePartition(files: seq<DiffFile>)
    ensures MovePackageJsonToTop(files)
            == Sorting.Filter(files, IsPackageJsonFile) + Sorting.FilterOut(files, IsPackageJsonFile)
  {
    assert Sorting.PutsFirst(PackageJsonFirst, IsPackageJsonFile);
    Sorting.SortIsStablePartition(files, PackageJsonFirst, IsPackageJsonFile);
  }

  /** With a single package.json file, it comes first and the others keep their order. */
  lemma PackageJsonMovesToTop(files: seq<DiffFile>, p: nat)
    requires p < |files| && IsPackageJsonFile(files[p])
    requires forall i :: 0 <= i < |files| && i != p ==> !IsPackageJsonFile(files[i])
    ensures MovePackageJsonToTop(files) == [files[p]] + files[..p] + files[p + 1..]
  {
    MoveIsStablePartition(files);
    Sorting.FilterOne(files, IsPackageJsonFile, p);
  }

  /** Without a package.json file the order is the input's. */
  lemma NoPackageJsonKeepsOrder(files: seq<DiffFile>)
    requires forall i :: 0 <= i < |files| ==> !IsPackageJsonFile(files[i])
    ensures MovePackageJsonToTop(files) == files
  {
    MoveIsStablePartition(files);
    Sorting.FilterNone(files, IsPackageJsonFile);
  }

  // ---------------------------------------------------------------------
  // Changelog URL

  /** `getChangelogURL`: none for a release candidate or a package without a
      changelog; react-native's anchor drops the dots, the others append `v<version>`. */
  function GetChangelogURL(version: string, packageName: Option<string>): (r: Option<string>)
    ensures r.None? <==> Contains(version, "-rc") || !Truthy(Get(RnChangelogUrls, PackageOrDefault(packageName)))
    ensures r.Some? ==> Get(RnChangelogUrls, PackageOrDefault(packageName)).value <= r.value
  {
    var name := PackageOrDefault(packageName);
    if Contains(version, "-rc") then None
    else
      var baseUrl := Get(RnChangelogUrls, name);
      if !Truthy(baseUrl) then None
      else if name == ReactNative then Some(baseUrl.value + "#v" + RemoveChars(version, {'.'}))
      else Some(baseUrl.value + "v" + version)
  }

  lemma ChangelogTable()
    ensures Get(RnChangelogUrls, ReactNative) == Some(ReactNativeChangelog)
    ensures Get(RnChangelogUrls, ReactNativeMacos) == Some(ReactNativeMacosReleases)
    ensures Get(RnChangelogUrls, ReactNativeWindows) == Some(ReactNativeWindowsReleases)
  {
    var table := RnChangelogUrls;
    assert table[1..] == [(ReactNativeMacos, ReactNativeMacosReleases), (ReactNativeWindows, ReactNativeWindowsReleases)];
    assert Get(table[1..], ReactNativeMacos) == Some(ReactNativeMacosReleases);
    assert table[1..][1..] == [(ReactNativeWindows, ReactNativeWindowsReleases)];
    assert Get(table[1..][1..], ReactNativeWindows) == Some(ReactNativeWindowsReleases);
  }

  /** react-native's link is its CHANGELOG.md with anchor `#v` and the version without dots. */
  lemma ReactNativeChangelogAnchor(version: string)
    requires !Contains(version, "-rc")
    ensures GetChangelogURL(version, None) == GetChangelogURL(version, Some(ReactNative))
    ensures var r := GetChangelogURL(version, None);
            && r.Some? && r.value == ReactNativeChangelog + "#v" + RemoveChars(version, {'.'})
            && '.' !in r.value[|r.value| - |RemoveChars(version, {'.'})|..]
  {
    ChangelogTable();
    var r := GetChangelogURL(version, None).value;
    var tail := RemoveChars(version, {'.'});
    assert r[|r| - |tail|..] == tail;
  }

  /** The macOS and Windows packages append `v<version>` to their release-tag base. */
  lemma OtherChangelogAnchors(version: string)
    requires !Contains(version, "-rc")
    ensures GetChangelogURL(version, Some(ReactNativeMacos)) == Some(ReactNativeMacosReleases + "v" + version)
    ensures GetChangelogURL(version, Some(ReactNativeWindows)) == Some(ReactNativeWindowsReleases + "v" + version)
  {
    ChangelogTable();
    assert ReactNativeMacos != ReactNative by {
      assert |ReactNativeMacos| != |ReactNative|;
    }
    assert ReactNativeWindows != ReactNative by {
      assert |ReactNativeWindows| != |ReactNative|;
    }
  }

  /** A release candidate never has a changelog link. */
  lemma ReleaseCandidateHasNoChangelog(prefix: string, suffix: string, packageName: Option<string>)
    ensures GetChangelogURL(prefix + "-rc" + suffix, packageName) == None
  {
    var v := prefix + "-rc" + suffix;
    assert v[|prefix|..|prefix| + 3] == "-rc";
    ContainsAt(v, "-rc", |prefix|);
  }

  // ---------------------------------------------------------------------
  // Extensions

  /** `path.split(".").pop()?.toLowerCase()`. */
  function Extension(path: string): (ext: string)
    ensures '.' !in ext
  {
    var e := LastPiece(path, '.');
    assert forall i :: 0 <= i < |e| ==> Lower(e)[i] != '.';
    Lower(e)
  }

  /** The extension is the lower-cased text after the last dot, or the whole
      lower-cased path when it has no dot. */
  lemma ExtensionIsAfterLastDot(path: string)
    ensures '.' !in path ==> Extension(path) == Lower(path)
    ensures '.' in path ==> exists front, last :: path == front + "." + last && '.' !in last && Extension(path) == Lower(last)
  {
    LastPieceFollowsLastSeparator(path, '.');
    if '.' in path {
      var front :| path == front + ['.'] + LastPiece(path, '.');
      assert path == front + "." + LastPiece(path, '.');
    }
  }

  const LanguageMap: seq<(string, string)> := [
    ("js", "javascript"), ("jsx", "jsx"), ("ts", "typescript"), ("tsx", "tsx"), ("json", "json"),
    ("java", "java"), ("kt", "kotlin"), ("swift", "swift"), ("m", "objectivec"), ("mm", "objectivec"),
    ("h", "objectivec"), ("xml", "xml"), ("gradle", "groovy"), ("rb", "ruby"), ("md", "markdown"),
    ("yml", "yaml"), ("yaml", "yaml"), ("sh", "bash"), ("podspec", "ruby"), ("properties", "properties")
  ]

  /** `getLanguageFromPath`: the mapped language, `"text"` for anything unmapped. */
  function GetLanguageFromPath(path: string): (language: string)
    ensures Extension(path) in Keys(LanguageMap) ==> language == Get(LanguageMap, Extension(path)).value
    ensures Extension(path) !in Keys(LanguageMap) ==> language == "text"
  {
    LanguagesAreNonEmpty();
    Or(Get(LanguageMap, Extension(path)), Some("text")).value
  }

  lemma LanguagesAreNonEmpty()
    ensures forall i :: 0 <= i < |LanguageMap| ==> LanguageMap[i].1 != ""
  {
  }

  const BinaryExtensions: seq<string> := [
    "png", "jpg", "jpeg", "gif", "ico", "ttf", "woff", "woff2", "eot", "otf", "zip", "jar", "so", "a", "dylib", "aar"
  ]

  /** `isBinaryFile`. */
  function IsBinaryFile(path: string): (b: bool)
    ensures b <==> exists i :: 0 <= i < |BinaryExtensions| && BinaryExtensions[i] == Extension(path)
  {
    Extension(path) in BinaryExtensions
  }

  /** No binary extension has a language: binary files highlight as plain text. */
  lemma BinaryFilesAreText(path: string)
    requires IsBinaryFile(path)
    ensures GetLanguageFromPath(path) == "text"
  {
    NoLanguageIsBinary();
    assert Extension(path) !in Keys(LanguageMap);
  }

  lemma NoLanguageIsBinary()
    ensures forall i :: 0 <= i < |LanguageMap| ==> LanguageMap[i].0 !in BinaryExtensions
  {
  }

  /** Upper-case extensions are lower-cased before the lookup. */
  lemma UpperCaseExtension()
    ensures GetLanguageFromPath("App.TSX") == "tsx"
  {
    UpperCaseTsx();
    TsxLanguage();
  }

  lemma UpperCaseTsx()
    ensures Extension("App.TSX") == "tsx"
  {
    LastPieceOf("App", "TSX", '.');
    assert "App.TSX" == "App" + ['.'] + "TSX";
    var l := Lower("TSX");
    assert l[0] == 't' && l[1] == 's' && l[2] == 'x';
    assert l == "tsx";
  }

  lemma TsxLanguage()
    ensures Get(LanguageMap, "tsx") == Some("tsx")
  {
    assert LanguageMap[3] == ("tsx", "tsx");
    assert forall i :: 0 <= i < 3 ==> |LanguageMap[i].0| != 3 || LanguageMap[i].0[0] != 't';
    GetAtFirstMatch(LanguageMap, 3, "tsx");
  }

  /** A path without a dot is its own extension. */
  lemma PathWithoutDot()
    ensures Extension("Podfile") == "podfile"
  {
    SplitWithoutSeparator("Podfile", '.');
    assert Lower("Podfile") == "podfile";
  }

  /** Only the text after the last dot counts. */
  lemma BinaryExample()
    ensures IsBinaryFile("gradle-wrapper.jar")
  {
    LastPieceOf("gradle-wrapper", "jar", '.');
    assert "gradle-wrapper.jar" == "gradle-wrapper" + ['.'] + "jar";
    assert Lower("jar") == "jar";
    assert BinaryExtensions[11] == "jar";
  }

  lemma LastPieceOf(front: string, last: string, sep: char)
    requires sep !in last
    ensures LastPiece(front + [sep] + last, sep) == last
    decreases |front|
  {
    var s := front + [sep] + last;
    if front == [] {
      assert s == [sep] + last;
      assert s[1..] == last;
      SplitWithoutSeparator(last, sep);
    } else {
      assert s[1..] == front[1..] + [sep] + last;
      LastPieceOf(front[1..], last, sep);
      JoinSplit(s[1..], sep);
      assert |Split(s[1..], sep)| >= 2;
    }
  }

  // ---------------------------------------------------------------------
  // Categories

  datatype Category = Android | Ios | JavaScript | Config | OtherCategory

  /** `categorizeFiles`' five lists. */
  datatype Categories = Categories(android: seq<DiffFile>, ios: seq<DiffFile>, javascript: seq<DiffFile>,
                                   config: seq<DiffFile>, other: seq<DiffFile>)

  predicate IsAndroidPath(path: string) {
    "android/" <= path || EndsWith(path, ".gradle") || EndsWith(path, ".java") || EndsWith(path, ".kt")
  }

  predicate IsIosPath(path: string) {
    "ios/" <= path || EndsWith(path, ".swift") || EndsWith(path, ".m") || EndsWith(path, ".h") || EndsWith(path, ".podspec")
  }

  /** `/\.(js|jsx|ts|tsx)$/`. */
  predicate IsScriptPath(path: string) {
    EndsWith(path, ".js") || EndsWith(path, ".jsx") || EndsWith(path, ".ts") || EndsWith(path, ".tsx")
  }

  /** `/\.(json|yaml|yml|properties|xml)$/`, "config" anywhere, four dotfiles, `.bundle`. */
  predicate IsConfigPath(path: string) {
    || EndsWith(path, ".json") || EndsWith(path, ".yaml") || EndsWith(path, ".yml")
    || EndsWith(path, ".properties") || EndsWith(path, ".xml")
    || Contains(path, "config")
    || path == ".gitignore" || path == ".watchmanconfig" || path == ".prettierrc" || path == ".eslintrc"
    || ".bundle" <= path
  }

  /** The first rule that matches the lower-cased path decides. */
  function CategoryOf(file: DiffFile): Category {
    var path := Lower(FilePath(file));
    if IsAndroidPath(path) then Android
    else if IsIosPath(path) then Ios
    else if IsScriptPath(path) then JavaScript
    else if IsConfigPath(path) then Config
    else OtherCategory
  }

  /** The files of category `c`, in input order. */
  function FilesIn(files: seq<DiffFile>, c: Category): (r: seq<DiffFile>)
    ensures |r| <= |files|
  {
    if files == [] then []
    else
      var front := FilesIn(files[..|files| - 1], c);
      if CategoryOf(files[|files| - 1]) == c then front + [files[|files| - 1]] else front
  }

  function CategoriesOf(files: seq<DiffFile>): Categories {
    Categories(FilesIn(files, Android), FilesIn(files, Ios), FilesIn(files, JavaScript),
               FilesIn(files, Config), FilesIn(files, OtherCategory))
  }

  lemma FilesInSnoc(files: seq<DiffFile>, f: DiffFile, c: Category)
    ensures FilesIn(files + [f], c) == if CategoryOf(f) == c then FilesIn(files, c) + [f] else FilesIn(files, c)
  {
    assert (files + [f])[..|files|] == files;
  }

  /** `categorizeFiles`: one pass pushing each file onto its list. */
  method CategorizeFiles(files: seq<DiffFile>) returns (categories: Categories)
    ensures categories == CategoriesOf(files)
  {
    categories := Categories([], [], [], [], []);
    for k := 0 to |files|
      invariant categories == CategoriesOf(files[..k])
    {
      var file := files[k];
      assert files[..k + 1] == files[..k] + [file];
      FilesInSnoc(files[..k], file, Android);
      FilesInSnoc(files[..k], file, Ios);
      FilesInSnoc(files[..k], file, JavaScript);
      FilesInSnoc(files[..k], file, Config);
      FilesInSnoc(files[..k], file, OtherCategory);
      var path := Lower(FilePath(file));
      if IsAndroidPath(path) {
        categories := categories.(android := categories.android + [file]);
      } else if IsIosPath(path) {
        categories := categories.(ios := categories.ios + [file]);
      } else if IsScriptPath(path) {
        categories := categories.(javascript := categories.javascript + [file]);
      } else if IsConfigPath(path) {
        categories := categories.(config := categories.config + [file]);
      } else {
        categories := categories.(other := categories.other + [file]);
      }
    }
    assert files[..|files|] == files;
  }

  lemma FilesInMembers(files: seq<DiffFile>, c: Category, f: DiffFile)
    ensures f in FilesIn(files, c) <==> f in files && CategoryOf(f) == c
  {
    FilesInIsFilter(files, c);
    Sorting.FilterMembers(files, g => CategoryOf(g) == c, f);
  }

  lemma {:induction false} FilesInCounts(files: seq<DiffFile>)
    ensures |FilesIn(files, Android)| + |FilesIn(files, Ios)| + |FilesIn(files, JavaScript)|
            + |FilesIn(files, Config)| + |FilesIn(files, OtherCategory)| == |files|
  {
    if files != [] {
      FilesInCounts(files[..|files| - 1]);
    }
  }

  /** A category's list is the generic order-keeping filter. */
  lemma {:induction false} FilesInIsFilter(files: seq<DiffFile>, c: Category)
    ensures FilesIn(files, c) == Sorting.Filter(files, f => CategoryOf(f) == c)
  {
    if files != [] {
      FilesInIsFilter(files[..|files| - 1], c);
    }
  }

  /** Filtering keeps input order: the lists of a concatenation are the
      concatenated lists. */
  lemma FilesInConcat(a: seq<DiffFile>, b: seq<DiffFile>, c: Category)
    ensures FilesIn(a + b, c) == FilesIn(a, c) + FilesIn(b, c)
  {
    FilesInIsFilter(a + b, c);
    FilesInIsFilter(a, c);
    FilesInIsFilter(b, c);
    Sorting.FilterConcat(a, b, f => CategoryOf(f) == c);
  }

  /** Every file lands in the list of its category and in no other, and the
      five lengths add up to the input's. */
  lemma CategoriesPartition(files: seq<DiffFile>, f: DiffFile)
    ensures var cs := CategoriesOf(files);
            && (f in cs.android <==> f in files && CategoryOf(f) == Android)
            && (f in cs.ios <==> f in files && CategoryOf(f) == Ios)
            && (f in cs.javascript <==> f in files && CategoryOf(f) == JavaScript)
            && (f in cs.config <==> f in files && CategoryOf(f) == Config)
            && (f in cs.other <==> f in files && CategoryOf(f) == OtherCategory)
            && |cs.android| + |cs.ios| + |cs.javascript| + |cs.config| + |cs.other| == |files|
  {
    FilesInMembers(files, Android, f);
    FilesInMembers(files, Ios, f);
    FilesInMembers(files, JavaScript, f);
    FilesInMembers(files, Config, f);
    FilesInMembers(files, OtherCategory, f);
    FilesInCounts(files);
  }

  /** First match wins: a Gradle file under ios/ is Android. */
  lemma GradleUnderIosIsAndroid(t: DiffType, h: seq<Json>)
    ensures CategoryOf(DiffFile("", "ios/build.gradle", t, h, None, None, None)) == Android
  {
    var path := "ios/build.gradle";
    LowerKeepsLowerCase(path);
    assert path == "ios/build" + ".gradle";
    assert EndsWith(path, ".gradle");
  }

  // ---------------------------------------------------------------------
  // App name and package

  /** `appName = DEFAULT_APP_NAME`. */
  function AppNameOrDefault(appName: Option<string>): string {
    if appName.Some? then appName.value else DefaultAppName
  }

  /** `path.replace(new RegExp("^" + appName + "/"), "")`, the name read literally. */
  function RemoveAppPathPrefix(path: string, appName: Option<string>): (r: string)
    ensures var prefix := AppNameOrDefault(appName) + "/";
            && (prefix <= path ==> path == prefix + r)
            && (!(prefix <= path) ==> r == path)
  {
    var prefix := AppNameOrDefault(appName) + "/";
    if prefix <= path then path[|prefix|..] else path
  }

  /** Only one leading `<app>/` is stripped. */
  lemma RemoveAppPathPrefixOnce(appName: Option<string>, rest: string)
    ensures RemoveAppPathPrefix(AppNameOrDefault(appName) + "/" + rest, appName) == rest
  {
  }

  /** A package name as a path: every dot turned into a slash. */
  function PackagePath(pkg: string): string {
    ReplaceAll(pkg, ".", "/")
  }

  /** The text holds one of the four identifiers of a template app called
      `name` with package `pkg`. */
  predicate MentionsApp(str: string, name: string, pkg: string)
    requires name != "" && pkg != ""
  {
    || Contains(str, pkg)
    || Contains(str, PackagePath(pkg))
    || Contains(str, name)
    || Contains(str, Lower(name))
  }

  /** The text holds one of the template app's four identifiers. */
  predicate MentionsTemplateApp(str: string) {
    MentionsApp(str, DefaultAppName, DefaultAppPackage)
  }

  /** The four replacements of `replaceAppDetails`, for a template app called
      `fromName` with package `fromPackage`: the package, the package path,
      the name and the lower-cased name, in that order. */
  function RenameApp(str: string, fromName: string, fromPackage: string, name: string, pkg: string): (r: string)
    requires fromName != "" && fromPackage != ""
    ensures !MentionsApp(str, fromName, fromPackage) ==> r == str
  {
    var s1 := ReplaceAll(str, fromPackage, pkg);
    var s2 := ReplaceAll(s1, PackagePath(fromPackage), PackagePath(pkg));
    var s3 := ReplaceAll(s2, fromName, name);
    ReplaceAll(s3, Lower(fromName), Lower(name))
  }

  /** `replaceAppDetails`: both defaults (and their slashed and lower-cased
      forms) replaced by the given values, falsy values meaning the defaults. */
  function ReplaceAppDetails(str: string, appName: Option<string>, appPackage: Option<string>): (r: string)
    ensures !MentionsTemplateApp(str) ==> r == str
  {
    var appNameOrFallback := if Truthy(appName) then appName.value else DefaultAppName;
    var appPackageOrFallback := if Truthy(appPackage) then appPackage.value else DefaultAppPackage;
    RenameApp(str, DefaultAppName, DefaultAppPackage, appNameOrFallback, appPackageOrFallback)
  }

  /** Renaming an app to its own name and package changes nothing. */
  lemma RenameAppToItself(str: string, name: string, pkg: string)
    requires name != "" && pkg != ""
    ensures RenameApp(str, name, pkg, name, pkg) == str
  {
    ReplaceAllBySelf(str, pkg);
    ReplaceAllBySelf(str, PackagePath(pkg));
    ReplaceAllBySelf(str, name);
    ReplaceAllBySelf(str, Lower(name));
  }

  /** With no app details given, every default is replaced by itself. */
  lemma ReplaceAppDetailsWithDefaults(str: string, appName: Option<string>, appPackage: Option<string>)
    requires !Truthy(appName) && !Truthy(appPackage)
    ensures ReplaceAppDetails(str, appName, appPackage) == str
  {
    RenameAppToItself(str, DefaultAppName, DefaultAppPackage);
  }

  /** Replacing the name at the front of `name/rest` leaves the rest alone
      when it does not hold the name. */
  lemma RenameDirectory(fromName: string, name: string, rest: string)
    requires fromName != "" && fromName[0] != '/'
    requires !Contains(rest, fromName)
    ensures ReplaceAll(fromName + "/" + rest, fromName, name) == name + "/" + rest
  {
    var tail := "/" + rest;
    assert !Contains(tail, fromName) by {
      assert tail[1..] == rest;
      assert fromName[0] != tail[0];
    }
    assert fromName + "/" + rest == fromName + tail;
    ReplaceAllAfterPattern(fromName, tail, name);
    assert name + tail == name + "/" + rest;
  }

  /** A path `fromName/rest` of an app keeping its package is moved under the
      new name, when neither the rest nor the new path holds the old name. */
  lemma RenameAppMovesPath(fromName: string, fromPackage: string, name: string, rest: string)
    requires fromName != "" && fromPackage != "" && fromName[0] != '/'
    requires !Contains(rest, fromName)
    requires !Contains(name + "/" + rest, Lower(fromName))
    ensures RenameApp(fromName + "/" + rest, fromName, fromPackage, name, fromPackage) == name + "/" + rest
  {
    var str := fromName + "/" + rest;
    ReplaceAllBySelf(str, fromPackage);
    ReplaceAllBySelf(str, PackagePath(fromPackage));
    RenameDirectory(fromName, name, rest);
  }

  /** A path under the template's app directory is moved under the given
      app name, when neither the rest of the path nor the new path holds a
      template identifier of its own. */
  lemma ReplaceAppDetailsRenamesApp(name: string, rest: string)
    requires name != ""
    requires !Contains(rest, DefaultAppName)
    requires !Contains(name + "/" + rest, Lower(DefaultAppName))
    ensures ReplaceAppDetails(DefaultAppName + "/" + rest, Some(name), None) == name + "/" + rest
  {
    RenameAppMovesPath(DefaultAppName, DefaultAppPackage, name, rest);
  }

  /** An app's package name is replaced by the new package, when the new
      package holds neither the old package path nor the app's name. */
  lemma RenameAppReplacesPackage(fromName: string, fromPackage: string, pkg: string)
    requires fromName != "" && fromPackage != "" && pkg != ""
    requires !Contains(pkg, PackagePath(fromPackage))
    ensures RenameApp(fromPackage, fromName, fromPackage, fromName, pkg) == pkg
  {
    assert fromPackage == fromPackage + "";
    ReplaceAllAfterPattern(fromPackage, "", pkg);
    assert pkg + "" == pkg;
    ReplaceAllBySelf(pkg, fromName);
    ReplaceAllBySelf(pkg, Lower(fromName));
  }

  /** The template's package name is replaced by the given package. */
  lemma ReplaceAppDetailsRenamesPackage(pkg: string)
    requires pkg != ""
    requires !Contains(pkg, PackagePath(DefaultAppPackage))
    ensures ReplaceAppDetails(DefaultAppPackage, None, Some(pkg)) == pkg
  {
    RenameAppReplacesPackage(DefaultAppName, DefaultAppPackage, pkg);
  }

  /** An app's package path becomes the new package's path, when the old
      package has a dot (so its path does not hold it). */
  lemma RenameAppReplacesPackagePath(fromName: string, fromPackage: string, pkg: string)
    requires fromName != "" && fromPackage != "" && pkg != ""
    requires '.' in fromPackage
    ensures RenameApp(PackagePath(fromPackage), fromName, fromPackage, fromName, pkg) == PackagePath(pkg)
  {
    var path := PackagePath(fromPackage);
    var newPath := PackagePath(pkg);
    ReplaceCharRemovesIt(fromPackage, '.', '/');
    if Contains(path, fromPackage) {
      ContainsKeepsChars(path, fromPackage, '.');
    }
    assert path == path + "";
    ReplaceAllAfterPattern(path, "", newPath);
    assert newPath + "" == newPath;
    ReplaceAllBySelf(newPath, fromName);
    ReplaceAllBySelf(newPath, Lower(fromName));
  }

  /** The template's package path (`com/rnsafeupgradeapp`) becomes the given
      package with its dots turned into slashes. */
  lemma ReplaceAppDetailsRenamesPackagePath(pkg: string)
    requires pkg != ""
    ensures ReplaceAppDetails(PackagePath(DefaultAppPackage), None, Some(pkg)) == PackagePath(pkg)
  {
    assert DefaultAppPackage[3] == '.';
    RenameAppReplacesPackagePath(DefaultAppName, DefaultAppPackage, pkg);
  }

  /** `getFilePathsToShow`: sanitise each present path, then strip the app prefix. */
  function GetFilePathsToShow(oldPath: Option<string>, newPath: Option<string>,
                              appName: Option<string>, appPackage: Option<string>): (r: (string, string))
    ensures !Truthy(oldPath) ==> r.0 == ""
    ensures !Truthy(newPath) ==> r.1 == ""
    ensures Truthy(oldPath) ==> r.0 == RemoveAppPathPrefix(ReplaceAppDetails(oldPath.value, appName, appPackage), appName)
    ensures Truthy(newPath) ==> r.1 == RemoveAppPathPrefix(ReplaceAppDetails(newPath.value, appName, appPackage), appName)
  {
    var oldPathSanitized := if Truthy(oldPath) then ReplaceAppDetails(oldPath.value, appName, appPackage) else "";
    var newPathSanitized := if Truthy(newPath) then ReplaceAppDetails(newPath.value, appName, appPackage) else "";
    (RemoveAppPathPrefix(oldPathSanitized, appName), RemoveAppPathPrefix(newPathSanitized, appName))
  }

  /** Without app details a template path only loses its `RnSafeUpgradeApp/` prefix. */
  lemma PathsToShowWithDefaults(path: string, rest: string)
    requires path == DefaultAppName + "/" + rest
    ensures GetFilePathsToShow(Some(path), None, None, None) == (rest, "")
    ensures GetFilePathsToShow(None, Some(path), None, None) == ("", rest)
  {
    ReplaceAppDetailsWithDefaults(path, None, None);
  }
}
