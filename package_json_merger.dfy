/** The manifest merger of src/lib/packageJsonMerger.ts: applying the
    resolver's verdicts to a copy of the user's package.json, the change
    summary between two manifests, and the annotated download text. */
module PackageJsonMerger {
  import opened Types
  import opened Strings
  import PackageJsonDiff

  /** What `mergePackageJsonWithAnalysis` returns. */
  datatype MergedPackageJson = MergedPackageJson(original: PackageJson, upgraded: PackageJson, diffText: string)

  // ---------------------------------------------------------------------
  // The analysis map

  /** `analysisMap.get(name)` after one `set` per analysis, in array order:
      the last analysis for that package. */
  function LastAnalysisFor(analyses: seq<DependencyAnalysis>, name: string): (r: Option<DependencyAnalysis>)
    ensures r.Some? ==> r.value in analyses && r.value.package == name
    ensures r.None? ==> forall i :: 0 <= i < |analyses| ==> analyses[i].package != name
  {
    if analyses == [] then None
    else if analyses[|analyses| - 1].package == name then Some(analyses[|analyses| - 1])
    else LastAnalysisFor(analyses[..|analyses| - 1], name)
  }

  /** When several analyses share a package name, the last one in the array wins. */
  lemma {:induction false} LastAnalysisWins(analyses: seq<DependencyAnalysis>, i: nat, name: string)
    requires i < |analyses| && analyses[i].package == name
    requires forall j :: i < j < |analyses| ==> analyses[j].package != name
    ensures LastAnalysisFor(analyses, name) == Some(analyses[i])
  {
    if i < |analyses| - 1 {
      LastAnalysisWins(analyses[..|analyses| - 1], i, name);
    }
  }

  /** `dependencyAnalysis.forEach((a) => analysisMap.set(a.package, a))`. */
  method BuildAnalysisMap(analyses: seq<DependencyAnalysis>) returns (m: map<string, DependencyAnalysis>)
    ensures MapsLastAnalyses(m, analyses)
  {
    m := map[];
    for k := 0 to |analyses|
      invariant forall name :: name in m <==> LastAnalysisFor(analyses[..k], name).Some?
      invariant forall name :: name in m ==> m[name] == LastAnalysisFor(analyses[..k], name).value
    {
      assert analyses[..k + 1][..k] == analyses[..k];
      m := m[analyses[k].package := analyses[k]];
    }
    assert analyses[..|analyses|] == analyses;
  }

  // ---------------------------------------------------------------------
  // Merging

  /** The value a key ends up with: in `dependencies` (`pinReactNative`)
      react-native takes the target verbatim; any other key becomes
      `^recommended` when its analysis says it needs an update. */
  function MergedVersion(analyses: seq<DependencyAnalysis>, name: string, version: string,
                         pinReactNative: bool, target: string): string
  {
    if pinReactNative && name == ReactNative then target
    else
      match LastAnalysisFor(analyses, name)
      case Some(a) => if a.needsUpdate then "^" + a.recommendedVersion else version
      case None => version
  }

  function MergedDeps(deps: Deps, analyses: seq<DependencyAnalysis>, pinReactNative: bool, target: string): (r: Deps)
    ensures |r| == |deps|
    ensures forall i :: 0 <= i < |deps| ==>
              r[i] == (deps[i].0, MergedVersion(analyses, deps[i].0, deps[i].1, pinReactNative, target))
  {
    seq(|deps|, i requires 0 <= i < |deps| => (deps[i].0, MergedVersion(analyses, deps[i].0, deps[i].1, pinReactNative, target)))
  }

  /** The upgraded manifest: only the values of the two dependency records change. */
  function Upgraded(user: PackageJson, analyses: seq<DependencyAnalysis>, target: string): PackageJson {
    user.(dependencies := if user.dependencies.Some? then Some(MergedDeps(user.dependencies.value, analyses, true, target)) else None,
          devDependencies := if user.devDependencies.Some? then Some(MergedDeps(user.devDependencies.value, analyses, false, target)) else None)
  }

  /** The `forEach` over one record's keys, assigning the new values in place. */
  method RewriteVersions(deps: Deps, analysisMap: map<string, DependencyAnalysis>, ghost analyses: seq<DependencyAnalysis>,
                         pinReactNative: bool, target: string) returns (out: Deps)
    requires MapsLastAnalyses(analysisMap, analyses)
    ensures out == MergedDeps(deps, analyses, pinReactNative, target)
  {
    out := deps;
    for i := 0 to |deps|
      invariant |out| == |deps|
      invariant forall j :: 0 <= j < i ==> out[j] == (deps[j].0, MergedVersion(analyses, deps[j].0, deps[j].1, pinReactNative, target))
      invariant forall j :: i <= j < |deps| ==> out[j] == deps[j]
    {
      var pkgName := out[i].0;
      if pinReactNative && pkgName == ReactNative {
        out := out[i := (pkgName, target)];
      } else if pkgName in analysisMap && analysisMap[pkgName].needsUpdate {
        out := out[i := (pkgName, "^" + analysisMap[pkgName].recommendedVersion)];
      }
    }
  }

  /** `mergePackageJsonWithAnalysis`; `stringify` is `JSON.stringify(_, null, 2)`. */
  method MergePackageJsonWithAnalysis(userPackageJson: PackageJson, dependencyAnalysis: seq<DependencyAnalysis>,
                                      targetRNVersion: string, stringify: PackageJson -> string)
    returns (merged: MergedPackageJson)
    ensures merged.original == userPackageJson
    ensures merged.upgraded == Upgraded(userPackageJson, dependencyAnalysis, targetRNVersion)
    ensures merged.diffText == PackageJsonDiff.DiffText(Split(stringify(userPackageJson), '\n'), Split(stringify(merged.upgraded), '\n'))
  {
    // The deep copy through JSON is a plain value copy here.
    var upgraded := userPackageJson;
    var analysisMap := BuildAnalysisMap(dependencyAnalysis);
    if upgraded.dependencies.Some? {
      var deps := RewriteVersions(upgraded.dependencies.value, analysisMap, dependencyAnalysis, true, targetRNVersion);
      upgraded := upgraded.(dependencies := Some(deps));
    }
    if upgraded.devDependencies.Some? {
      var devDeps := RewriteVersions(upgraded.devDependencies.value, analysisMap, dependencyAnalysis, false, targetRNVersion);
      upgraded := upgraded.(devDependencies := Some(devDeps));
    }
    var diffText := PackageJsonDiff.GeneratePackageJsonDiff(Split(stringify(userPackageJson), '\n'), Split(stringify(upgraded), '\n'));
    merged := MergedPackageJson(userPackageJson, upgraded, diffText);
  }

  /** Looking a key up in the merged record: present exactly when it was,
      with the merged value. */
  lemma {:induction false} MergedDepsLookup(deps: Deps, analyses: seq<DependencyAnalysis>, pinReactNative: bool,
                                           target: string, name: string)
    ensures Get(MergedDeps(deps, analyses, pinReactNative, target), name)
            == match Get(deps, name)
               case None => None
               case Some(v) => Some(MergedVersion(analyses, name, v, pinReactNative, target))
  {
    if deps != [] {
      var r := MergedDeps(deps, analyses, pinReactNative, target);
      assert r[1..] == MergedDeps(deps[1..], analyses, pinReactNative, target);
      MergedDepsLookup(deps[1..], analyses, pinReactNative, target, name);
    }
  }

  /** In `dependencies`, react-native gets the target verbatim whatever the
      analyses say; any other key of `dependencies`, and every key of
      `devDependencies` (react-native included), becomes `^recommended`
      when the last analysis for it needs an update, and keeps its value otherwise. */
  lemma MergeRewriteRule(user: PackageJson, analyses: seq<DependencyAnalysis>, target: string, name: string)
    ensures var up := Upgraded(user, analyses, target);
            var last := LastAnalysisFor(analyses, name);
            var bump := last.Some? && last.value.needsUpdate;
            && (user.dependencies.Some? && Get(user.dependencies.value, name).Some? ==>
                  Get(up.dependencies.value, name) ==
                    if name == ReactNative then Some(target)
                    else if bump then Some("^" + last.value.recommendedVersion)
                    else Get(user.dependencies.value, name))
            && (user.devDependencies.Some? && Get(user.devDependencies.value, name).Some? ==>
                  Get(up.devDependencies.value, name) ==
                    if bump then Some("^" + last.value.recommendedVersion)
                    else Get(user.devDependencies.value, name))
  {
    if user.dependencies.Some? {
      MergedDepsLookup(user.dependencies.value, analyses, true, target, name);
    }
    if user.devDependencies.Some? {
      MergedDepsLookup(user.devDependencies.value, analyses, false, target, name);
    }
  }

  /** Merging adds and removes no keys: both records keep their key
      sequences, and every other field is the input's. */
  lemma MergeAddsAndRemovesNoKeys(user: PackageJson, analyses: seq<DependencyAnalysis>, target: string)
    ensures var up := Upgraded(user, analyses, target);
            && up.name == user.name && up.version == user.version
            && up.peerDependencies == user.peerDependencies && up.otherFields == user.otherFields
            && up.dependencies.Some? == user.dependencies.Some?
            && up.devDependencies.Some? == user.devDependencies.Some?
            && (user.dependencies.Some? ==> Keys(up.dependencies.value) == Keys(user.dependencies.value))
            && (user.devDependencies.Some? ==> Keys(up.devDependencies.value) == Keys(user.devDependencies.value))
  {
  }

  /** Merging the merged manifest again with the same verdicts changes nothing. */
  lemma MergeIsIdempotent(user: PackageJson, analyses: seq<DependencyAnalysis>, target: string)
    ensures Upgraded(Upgraded(user, analyses, target), analyses, target) == Upgraded(user, analyses, target)
  {
    var up := Upgraded(user, analyses, target);
    if user.dependencies.Some? {
      var once := up.dependencies.value;
      assert MergedDeps(once, analyses, true, target) == once;
    }
    if user.devDependencies.Some? {
      var once := up.devDependencies.value;
      assert MergedDeps(once, analyses, false, target) == once;
    }
  }

  /** With no verdict asking for an update and react-native already at the
      target, the upgraded manifest is the input and the diff is the bare preamble. */
  lemma MergeWithoutUpdatesIsNoOp(user: PackageJson, analyses: seq<DependencyAnalysis>, target: string, stringify: PackageJson -> string)
    requires forall a :: a in analyses ==> !a.needsUpdate
    requires user.dependencies.Some? ==> forall i :: 0 <= i < |user.dependencies.value| && user.dependencies.value[i].0 == ReactNative ==>
               user.dependencies.value[i].1 == target
    ensures Upgraded(user, analyses, target) == user
    ensures PackageJsonDiff.DiffText(Split(stringify(user), '\n'), Split(stringify(Upgraded(user, analyses, target)), '\n'))
            == PackageJsonDiff.Preamble
  {
    if user.dependencies.Some? {
      assert MergedDeps(user.dependencies.value, analyses, true, target) == user.dependencies.value;
    }
    if user.devDependencies.Some? {
      assert MergedDeps(user.devDependencies.value, analyses, false, target) == user.devDependencies.value;
    }
    var lines := Split(stringify(user), '\n');
    PackageJsonDiff.DiffTextShape(lines, lines);
  }

  // ---------------------------------------------------------------------
  // Change summary

  /** The four lists of the summary; `same` is the source's `unchanged`. */
  datatype ChangeSummary = ChangeSummary(updated: seq<string>, added: seq<string>, removed: seq<string>, same: seq<string>)

  datatype Change = Updated | Added | Removed | Unchanged

  /** A `Set` built from a list: first occurrences, in order. */
  function Dedup(s: seq<string>): (r: seq<string>)
    ensures |r| <= |s|
  {
    if s == [] then []
    else
      var d := Dedup(s[..|s| - 1]);
      if s[|s| - 1] in d then d else d + [s[|s| - 1]]
  }

  /** The set keeps exactly the list's elements, each once. */
  lemma {:induction false} DedupIsSet(s: seq<string>)
    ensures forall x :: x in Dedup(s) <==> x in s
    ensures forall i, j :: 0 <= i < j < |Dedup(s)| ==> Dedup(s)[i] != Dedup(s)[j]
  {
    if s != [] {
      DedupIsSet(s[..|s| - 1]);
      assert s == s[..|s| - 1] + [s[|s| - 1]];
    }
  }

  /** The union of keys: original deps, original devDeps, upgraded deps, upgraded devDeps. */
  function AllDeps(original: PackageJson, upgraded: PackageJson): seq<string> {
    Dedup(Keys(OrEmpty(original.dependencies)) + Keys(OrEmpty(original.devDependencies))
          + Keys(OrEmpty(upgraded.dependencies)) + Keys(OrEmpty(upgraded.devDependencies)))
  }

  /** `record?.[name]`. */
  function Lookup(d: Option<Deps>, name: string): Option<string> {
    if d.Some? then Get(d.value, name) else None
  }

  /** `pj.dependencies?.[name] || pj.devDependencies?.[name]`. */
  function VersionOf(pj: PackageJson, name: string): Option<string> {
    Or(Lookup(pj.dependencies, name), Lookup(pj.devDependencies, name))
  }

  /** The four-way rule on the two looked-up versions, with JavaScript truthiness. */
  function Classify(orig: Option<string>, upg: Option<string>): Change {
    if !Truthy(orig) && Truthy(upg) then Added
    else if Truthy(orig) && !Truthy(upg) then Removed
    else if orig != upg then Updated
    else Unchanged
  }

  function ChangeOf(original: PackageJson, upgraded: PackageJson, name: string): Change {
    Classify(VersionOf(original, name), VersionOf(upgraded, name))
  }

  /** The names of `names` classified as `c`, in order. */
  function WithChange(names: seq<string>, original: PackageJson, upgraded: PackageJson, c: Change): (r: seq<string>)
    ensures |r| <= |names|
  {
    if names == [] then []
    else
      var rest := WithChange(names[..|names| - 1], original, upgraded, c);
      if ChangeOf(original, upgraded, names[|names| - 1]) == c then rest + [names[|names| - 1]] else rest
  }

  lemma WithChangeSnoc(names: seq<string>, x: string, original: PackageJson, upgraded: PackageJson, c: Change)
    ensures WithChange(names + [x], original, upgraded, c)
            == if ChangeOf(original, upgraded, x) == c then WithChange(names, original, upgraded, c) + [x]
               else WithChange(names, original, upgraded, c)
  {
    assert (names + [x])[..|names|] == names;
  }

  /** One more name of a prefix. */
  lemma WithChangeStep(names: seq<string>, k: nat, original: PackageJson, upgraded: PackageJson, c: Change)
    requires k < |names|
    ensures WithChange(names[..k + 1], original, upgraded, c)
            == if ChangeOf(original, upgraded, names[k]) == c then WithChange(names[..k], original, upgraded, c) + [names[k]]
               else WithChange(names[..k], original, upgraded, c)
  {
    assert names[..k + 1][..k] == names[..k];
  }

  /** A name is listed under `c` exactly when it is one of the names and is classified `c`. */
  lemma {:induction false} WithChangeMembers(names: seq<string>, original: PackageJson, upgraded: PackageJson, c: Change, x: string)
    ensures x in WithChange(names, original, upgraded, c) <==> x in names && ChangeOf(original, upgraded, x) == c
  {
    if names != [] {
      var front, last := names[..|names| - 1], names[|names| - 1];
      WithChangeMembers(front, original, upgraded, c, x);
      if x in names {
        var i :| 0 <= i < |names| && names[i] == x;
        assert i < |front| ==> front[i] == x;
      }
      assert x in front ==> x in names;
    }
  }

  function SummaryOf(original: PackageJson, upgraded: PackageJson): ChangeSummary {
    var all := AllDeps(original, upgraded);
    ChangeSummary(WithChange(all, original, upgraded, Updated), WithChange(all, original, upgraded, Added),
                  WithChange(all, original, upgraded, Removed), WithChange(all, original, upgraded, Unchanged))
  }

  /** `getPackageJsonChangeSummary`: four arrays filled in one pass over the union. */
  method GetPackageJsonChangeSummary(original: PackageJson, upgraded: PackageJson) returns (summary: ChangeSummary)
    ensures summary == SummaryOf(original, upgraded)
  {
    var allDeps := AllDeps(original, upgraded);
    var updated: seq<string> := [];
    var added: seq<string> := [];
    var removed: seq<string> := [];
    var same: seq<string> := [];
    for k := 0 to |allDeps|
      invariant updated == WithChange(allDeps[..k], original, upgraded, Updated)
      invariant added == WithChange(allDeps[..k], original, upgraded, Added)
      invariant removed == WithChange(allDeps[..k], original, upgraded, Removed)
      invariant same == WithChange(allDeps[..k], original, upgraded, Unchanged)
    {
      var pkgName := allDeps[k];
      WithChangeStep(allDeps, k, original, upgraded, Updated);
      WithChangeStep(allDeps, k, original, upgraded, Added);
      WithChangeStep(allDeps, k, original, upgraded, Removed);
      WithChangeStep(allDeps, k, original, upgraded, Unchanged);
      var origVersion := VersionOf(original, pkgName);
      var upgVersion := VersionOf(upgraded, pkgName);
      ghost var change := ChangeOf(original, upgraded, pkgName);
      if !Truthy(origVersion) && Truthy(upgVersion) {
        assert change == Added;
        added := added + [pkgName];
      } else if Truthy(origVersion) && !Truthy(upgVersion) {
        assert change == Removed;
        removed := removed + [pkgName];
      } else if origVersion != upgVersion {
        assert change == Updated;
        updated := updated + [pkgName];
      } else {
        assert change == Unchanged;
        same := same + [pkgName];
      }
    }
    assert allDeps[..|allDeps|] == allDeps;
    summary := ChangeSummary(updated, added, removed, same);
  }

  lemma {:induction false} WithChangeCounts(names: seq<string>, original: PackageJson, upgraded: PackageJson)
    ensures |WithChange(names, original, upgraded, Updated)| + |WithChange(names, original, upgraded, Added)|
            + |WithChange(names, original, upgraded, Removed)| + |WithChange(names, original, upgraded, Unchanged)| == |names|
  {
    if names != [] {
      WithChangeCounts(names[..|names| - 1], original, upgraded);
    }
  }

  /** The four lists partition the union of keys: every key of either
      manifest lands in exactly one list, and the lengths add up. */
  lemma SummaryPartitions(original: PackageJson, upgraded: PackageJson, name: string)
    ensures var s := SummaryOf(original, upgraded);
            var all := AllDeps(original, upgraded);
            && (name in all <==> name in Keys(OrEmpty(original.dependencies)) || name in Keys(OrEmpty(original.devDependencies))
                                 || name in Keys(OrEmpty(upgraded.dependencies)) || name in Keys(OrEmpty(upgraded.devDependencies)))
            && (name in all <==> name in s.updated || name in s.added || name in s.removed || name in s.same)
            && (name in s.added ==> name !in s.removed && name !in s.updated && name !in s.same)
            && (name in s.removed ==> name !in s.updated && name !in s.same)
            && (name in s.updated ==> name !in s.same)
            && |s.updated| + |s.added| + |s.removed| + |s.same| == |all|
  {
    var all := AllDeps(original, upgraded);
    WithChangeCounts(all, original, upgraded);
    DedupIsSet(Keys(OrEmpty(original.dependencies)) + Keys(OrEmpty(original.devDependencies))
               + Keys(OrEmpty(upgraded.dependencies)) + Keys(OrEmpty(upgraded.devDependencies)));
    WithChangeMembers(all, original, upgraded, Updated, name);
    WithChangeMembers(all, original, upgraded, Added, name);
    WithChangeMembers(all, original, upgraded, Removed, name);
    WithChangeMembers(all, original, upgraded, Unchanged, name);
  }

  /** The lookup prefers `dependencies`: a non-empty value there hides the `devDependencies` one. */
  lemma VersionPrefersDependencies(pj: PackageJson, name: string)
    ensures Truthy(Lookup(pj.dependencies, name)) ==> VersionOf(pj, name) == Lookup(pj.dependencies, name)
    ensures !Truthy(Lookup(pj.dependencies, name)) ==> VersionOf(pj, name) == Lookup(pj.devDependencies, name)
  {
  }

  const ExampleBefore := PackageJson("app", "1.0.0", Some([("a", "1.0.0"), ("b", "2.0.0")]), None, None, [])
  const ExampleAfter := PackageJson("app", "1.0.0", Some([("a", "1.0.0"), ("c", "3.0.0")]), None, None, [])

  lemma ExampleAllDeps()
    ensures AllDeps(ExampleBefore, ExampleAfter) == ["a", "b", "c"]
  {
    var keys := ["a", "b"] + [] + ["a", "c"] + [];
    assert Keys(OrEmpty(ExampleBefore.dependencies)) == ["a", "b"];
    assert Keys(OrEmpty(ExampleAfter.dependencies)) == ["a", "c"];
    assert keys[..3] == ["a", "b", "a"];
    assert keys[..3][..2] == ["a", "b"];
    assert keys[..3][..2][..1] == ["a"];
    assert Dedup(["a"]) == ["a"];
    assert Dedup(["a", "b"]) == ["a", "b"];
    assert Dedup(["a", "b", "a"]) == ["a", "b"];
  }

  lemma ExampleChanges()
    ensures ChangeOf(ExampleBefore, ExampleAfter, "a") == Unchanged
    ensures ChangeOf(ExampleBefore, ExampleAfter, "b") == Removed
    ensures ChangeOf(ExampleBefore, ExampleAfter, "c") == Added
  {
    assert VersionOf(ExampleBefore, "a") == Some("1.0.0") && VersionOf(ExampleAfter, "a") == Some("1.0.0");
    assert VersionOf(ExampleBefore, "b") == Some("2.0.0") && VersionOf(ExampleAfter, "b") == None;
    assert VersionOf(ExampleBefore, "c") == None && VersionOf(ExampleAfter, "c") == Some("3.0.0");
  }

  lemma ExampleWithChange(before: PackageJson, after: PackageJson, c: Change)
    requires ChangeOf(before, after, "a") == Unchanged
    requires ChangeOf(before, after, "b") == Removed
    requires ChangeOf(before, after, "c") == Added
    ensures WithChange(["a", "b", "c"], before, after, c)
            == (if c == Unchanged then ["a"] else []) + (if c == Removed then ["b"] else []) + (if c == Added then ["c"] else [])
  {
    WithChangeSnoc([], "a", before, after, c);
    assert [] + ["a"] == ["a"];
    WithChangeSnoc(["a"], "b", before, after, c);
    assert ["a"] + ["b"] == ["a", "b"];
    WithChangeSnoc(["a", "b"], "c", before, after, c);
    assert ["a", "b"] + ["c"] == ["a", "b", "c"];
  }

  /** `{a, b}` to `{a, c}`: `c` added, `b` removed, `a` unchanged, nothing updated. */
  lemma SummaryExample()
    ensures SummaryOf(ExampleBefore, ExampleAfter) == ChangeSummary([], ["c"], ["b"], ["a"])
  {
    ExampleAllDeps();
    ExampleChanges();
    ExampleWithChange(ExampleBefore, ExampleAfter, Updated);
    ExampleWithChange(ExampleBefore, ExampleAfter, Added);
    ExampleWithChange(ExampleBefore, ExampleAfter, Removed);
    ExampleWithChange(ExampleBefore, ExampleAfter, Unchanged);
  }

  /** A key with a non-empty value in either record has a non-empty version. */
  lemma VersionTruthy(pj: PackageJson, name: string)
    requires pj.dependencies.Some? ==> forall i :: 0 <= i < |pj.dependencies.value| ==> pj.dependencies.value[i].1 != ""
    requires pj.devDependencies.Some? ==> forall i :: 0 <= i < |pj.devDependencies.value| ==> pj.devDependencies.value[i].1 != ""
    ensures Truthy(VersionOf(pj, name)) <==> name in Keys(OrEmpty(pj.dependencies)) || name in Keys(OrEmpty(pj.devDependencies))
  {
  }

  /** Merging never adds or removes dependencies as the summary sees them,
      as long as every value and the target are non-empty. */
  lemma MergeSummaryHasNoAddedOrRemoved(user: PackageJson, analyses: seq<DependencyAnalysis>, target: string)
    requires target != ""
    requires user.dependencies.Some? ==> forall i :: 0 <= i < |user.dependencies.value| ==> user.dependencies.value[i].1 != ""
    requires user.devDependencies.Some? ==> forall i :: 0 <= i < |user.devDependencies.value| ==> user.devDependencies.value[i].1 != ""
    ensures SummaryOf(user, Upgraded(user, analyses, target)).added == []
    ensures SummaryOf(user, Upgraded(user, analyses, target)).removed == []
  {
    var up := Upgraded(user, analyses, target);
    MergeAddsAndRemovesNoKeys(user, analyses, target);
    forall name
      ensures Truthy(VersionOf(user, name)) <==> Truthy(VersionOf(up, name))
    {
      VersionTruthy(user, name);
      VersionTruthy(up, name);
    }
    var s := SummaryOf(user, up);
    if s.added != [] {
      WithChangeMembers(AllDeps(user, up), user, up, Added, s.added[0]);
      assert false;
    }
    if s.removed != [] {
      WithChangeMembers(AllDeps(user, up), user, up, Removed, s.removed[0]);
      assert false;
    }
  }

  // ---------------------------------------------------------------------
  // Annotated package.json

  const BasicFields: seq<string> := ["name", "version", "description", "main", "scripts"]

  const BreakingComment := " // \U{26A0}\U{FE0F} Breaking changes - review changelog"
  const UpdatedComment := " // \U{2705} Updated for compatibility"

  /** `upgraded[field]`. */
  function BasicFieldValue(pj: PackageJson, field: string): Option<Json> {
    if field == "name" then Some(JString(pj.name))
    else if field == "version" then Some(JString(pj.version))
    else Get(pj.otherFields, field)
  }

  /** One basic field, its serialisation re-indented by two spaces. */
  function FieldText(field: string, value: Json, stringify: Json -> string): string {
    "  \"" + field + "\": " + Join(Split(stringify(value), '\n'), "\n  ") + ",\n"
  }

  /** What one basic field contributes: nothing when it is absent or falsy. */
  function FieldPart(pj: PackageJson, field: string, stringify: Json -> string): string {
    match BasicFieldValue(pj, field)
    case Some(v) => if JsonTruthy(v) then FieldText(field, v, stringify) else ""
    case None => ""
  }

  /** The text of the first `k` basic fields. */
  function BasicFieldsText(pj: PackageJson, stringify: Json -> string, k: nat): string
    requires k <= |BasicFields|
  {
    if k == 0 then "" else BasicFieldsText(pj, stringify, k - 1) + FieldPart(pj, BasicFields[k - 1], stringify)
  }

  lemma BasicFieldsStep(pj: PackageJson, stringify: Json -> string, k: nat)
    requires k < |BasicFields|
    ensures "{\n" + BasicFieldsText(pj, stringify, k + 1) == "{\n" + BasicFieldsText(pj, stringify, k) + FieldPart(pj, BasicFields[k], stringify)
  {
  }

  /** The comment after an entry: breaking changes win over an update. */
  function CommentFor(analyses: seq<DependencyAnalysis>, name: string): string {
    match LastAnalysisFor(analyses, name)
    case Some(a) => if a.hasBreakingChanges then BreakingComment else if a.needsUpdate then UpdatedComment else ""
    case None => ""
  }

  /** The template literal of one entry line. */
  function EntryTemplate(pkgName: string, version: string, comma: string, comment: string): string {
    "    \"" + pkgName + "\": \"" + version + "\"" + comma + comment
  }

  /** Entry `i`: a comma on all but the last entry, then the comment. */
  function EntryLine(entries: Deps, i: nat, analyses: seq<DependencyAnalysis>): string
    requires i < |entries|
  {
    EntryTemplate(entries[i].0, entries[i].1, if i < |entries| - 1 then "," else "", CommentFor(analyses, entries[i].0))
  }

  function EntryLines(entries: Deps, analyses: seq<DependencyAnalysis>): (ls: seq<string>)
    ensures |ls| == |entries|
  {
    seq(|entries|, i requires 0 <= i < |entries| => EntryLine(entries, i, analyses))
  }

  /** The `dependencies` block: header, one line per entry, `  },`. */
  function DepsBlock(pj: PackageJson, analyses: seq<DependencyAnalysis>): string {
    if pj.dependencies.Some? then "  \"dependencies\": {\n" + Unlines(EntryLines(pj.dependencies.value, analyses)) + "  },\n" else ""
  }

  /** The `devDependencies` block, closed by `  }` without a comma. */
  function DevDepsBlock(pj: PackageJson, analyses: seq<DependencyAnalysis>): string {
    if pj.devDependencies.Some? then "  \"devDependencies\": {\n" + Unlines(EntryLines(pj.devDependencies.value, analyses)) + "  }\n" else ""
  }

  /** The whole text `createAnnotatedPackageJson` returns. */
  function AnnotatedText(pj: PackageJson, analyses: seq<DependencyAnalysis>, stringify: Json -> string): string {
    "{\n" + BasicFieldsText(pj, stringify, |BasicFields|) + DepsBlock(pj, analyses) + DevDepsBlock(pj, analyses) + "}"
  }

  /** `analysisMap` holds, per package, the last analysis for it. */
  ghost predicate MapsLastAnalyses(m: map<string, DependencyAnalysis>, analyses: seq<DependencyAnalysis>) {
    && (forall name :: name in m <==> LastAnalysisFor(analyses, name).Some?)
    && (forall name :: name in m ==> m[name] == LastAnalysisFor(analyses, name).value)
  }

  /** The `if`/`else if` choosing an entry's comment. */
  method EntryComment(pkgName: string, analysisMap: map<string, DependencyAnalysis>, ghost analyses: seq<DependencyAnalysis>)
    returns (comment: string)
    requires MapsLastAnalyses(analysisMap, analyses)
    ensures comment == CommentFor(analyses, pkgName)
  {
    comment := "";
    if pkgName in analysisMap && analysisMap[pkgName].hasBreakingChanges {
      comment := BreakingComment;
    } else if pkgName in analysisMap && analysisMap[pkgName].needsUpdate {
      comment := UpdatedComment;
    }
  }

  /** One record's `forEach`, appending an entry line per key. */
  method AppendEntries(output: string, entries: Deps, analysisMap: map<string, DependencyAnalysis>,
                       ghost analyses: seq<DependencyAnalysis>) returns (out: string)
    requires MapsLastAnalyses(analysisMap, analyses)
    ensures out == output + Unlines(EntryLines(entries, analyses))
  {
    ghost var ls := EntryLines(entries, analyses);
    out := output;
    for index := 0 to |entries|
      invariant out == output + Unlines(ls[..index])
    {
      var pkgName := entries[index].0;
      var version := entries[index].1;
      var comment := EntryComment(pkgName, analysisMap, analyses);
      var comma := if index < |entries| - 1 then "," else "";
      var line := EntryTemplate(pkgName, version, comma, comment);
      assert line == ls[index];
      UnlinesPrefixStep(output, ls, index);
      out := out + line + "\n";
    }
    assert ls[..|entries|] == ls;
  }

  /** The `forEach` over the basic fields. */
  method AppendBasicFields(upgraded: PackageJson, stringify: Json -> string) returns (output: string)
    ensures output == "{\n" + BasicFieldsText(upgraded, stringify, |BasicFields|)
  {
    output := "{\n";
    for k := 0 to |BasicFields|
      invariant output == "{\n" + BasicFieldsText(upgraded, stringify, k)
    {
      var field := BasicFields[k];
      var value := BasicFieldValue(upgraded, field);
      ghost var before := output;
      if value.Some? && JsonTruthy(value.value) {
        output := output + FieldText(field, value.value, stringify);
      }
      assert output == before + FieldPart(upgraded, field, stringify);
      BasicFieldsStep(upgraded, stringify, k);
    }
  }

  /** The `if (upgraded.dependencies)` block. */
  method AppendDepsBlock(output: string, upgraded: PackageJson, analysisMap: map<string, DependencyAnalysis>,
                         ghost analyses: seq<DependencyAnalysis>) returns (out: string)
    requires MapsLastAnalyses(analysisMap, analyses)
    ensures out == output + DepsBlock(upgraded, analyses)
  {
    out := output;
    if upgraded.dependencies.Some? {
      out := out + "  \"dependencies\": {\n";
      out := AppendEntries(out, upgraded.dependencies.value, analysisMap, analyses);
      out := out + "  },\n";
    }
  }

  /** The `if (upgraded.devDependencies)` block. */
  method AppendDevDepsBlock(output: string, upgraded: PackageJson, analysisMap: map<string, DependencyAnalysis>,
                            ghost analyses: seq<DependencyAnalysis>) returns (out: string)
    requires MapsLastAnalyses(analysisMap, analyses)
    ensures out == output + DevDepsBlock(upgraded, analyses)
  {
    out := output;
    if upgraded.devDependencies.Some? {
      out := out + "  \"devDependencies\": {\n";
      out := AppendEntries(out, upgraded.devDependencies.value, analysisMap, analyses);
      out := out + "  }\n";
    }
  }

  /** `createAnnotatedPackageJson`; `stringify` is `JSON.stringify(_, null, 2)`. */
  method CreateAnnotatedPackageJson(upgraded: PackageJson, dependencyAnalysis: seq<DependencyAnalysis>, stringify: Json -> string)
    returns (output: string)
    ensures output == AnnotatedText(upgraded, dependencyAnalysis, stringify)
  {
    var analysisMap := BuildAnalysisMap(dependencyAnalysis);
    output := AppendBasicFields(upgraded, stringify);
    output := AppendDepsBlock(output, upgraded, analysisMap, dependencyAnalysis);
    output := AppendDevDepsBlock(output, upgraded, analysisMap, dependencyAnalysis);
    output := output + "}";
  }

  /** The text opens with `{` and a newline and closes with `}`. */
  lemma AnnotatedStartsAndEnds(pj: PackageJson, analyses: seq<DependencyAnalysis>, stringify: Json -> string)
    ensures "{\n" <= AnnotatedText(pj, analyses, stringify)
    ensures EndsWith(AnnotatedText(pj, analyses, stringify), "}")
  {
    var t := AnnotatedText(pj, analyses, stringify);
    assert t[..2] == "{\n";
  }

  lemma CommentHasNoNewline(analyses: seq<DependencyAnalysis>, name: string)
    ensures '\n' !in CommentFor(analyses, name)
  {
  }

  /** A dependency block splits into exactly one line per entry, in entry
      order, each `    "name": "version"`, with a comma on all but the last
      (names and versions assumed free of newlines). */
  lemma AnnotatedEntryLines(entries: Deps, analyses: seq<DependencyAnalysis>)
    requires forall i :: 0 <= i < |entries| ==> '\n' !in entries[i].0 && '\n' !in entries[i].1
    ensures var lines := Split(Unlines(EntryLines(entries, analyses)), '\n');
            && |lines| == |entries| + 1 && lines[|entries|] == ""
            && forall i :: 0 <= i < |entries| ==>
                 lines[i] == "    \"" + entries[i].0 + "\": \"" + entries[i].1 + "\""
                             + (if i < |entries| - 1 then "," else "") + CommentFor(analyses, entries[i].0)
  {
    var ls := EntryLines(entries, analyses);
    forall i | 0 <= i < |ls| ensures '\n' !in ls[i] {
      CommentHasNoNewline(analyses, entries[i].0);
      var prefix := "    \"" + entries[i].0 + "\": \"" + entries[i].1 + "\"" + (if i < |entries| - 1 then "," else "");
      assert ls[i] == prefix + CommentFor(analyses, entries[i].0);
    }
    SplitUnlines(ls);
  }

  /** For verdicts where breaking changes imply an update (as the resolver
      produces them), an entry carries a comment exactly when its last verdict
      needs an update, and the breaking-changes comment exactly when it has them. */
  lemma CommentMarksUpdates(analyses: seq<DependencyAnalysis>, name: string)
    requires forall a :: a in analyses ==> a.hasBreakingChanges ==> a.needsUpdate
    ensures var last := LastAnalysisFor(analyses, name);
            && (CommentFor(analyses, name) != "" <==> last.Some? && last.value.needsUpdate)
            && (CommentFor(analyses, name) == BreakingComment <==> last.Some? && last.value.hasBreakingChanges)
  {
  }
}
