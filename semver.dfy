/** The part of the `semver` library the resolver calls. The library itself is
    not modelled: its four operations are a parameter, and what the proofs
    need of them is stated as predicates. */
module Semver {
  import opened Types
  import Sorting

  datatype Semver = Semver(
    rcompare: (string, string) -> int,    // semver.rcompare: negative when the first is the newer
    satisfies: (string, string) -> bool,  // semver.satisfies(version, range)
    coerce: string -> Option<string>,     // semver.coerce(s)?.version
    major: string -> Option<nat>)         // semver.major; None where it throws

  /** `rcompare` orders versions newest first, consistently. */
  ghost predicate OrderIsPreorder(sv: Semver) {
    Sorting.TotalPreorder(sv.rcompare)
  }

  /** What `coerce` returns is a version `major` accepts. */
  ghost predicate CoerceGivesVersions(sv: Semver) {
    forall s :: sv.coerce(s).Some? ==> sv.coerce(s).value != "" && sv.major(sv.coerce(s).value).Some?
  }

  /** `semver.coerce(s)?.version || s`: the canonical form, or the raw string. */
  function Coerced(sv: Semver, s: string): (r: string)
    ensures sv.coerce(s).None? ==> r == s
    ensures CoerceGivesVersions(sv) && sv.coerce(s).Some? ==> sv.major(r).Some?
  {
    match sv.coerce(s)
    case Some(v) => if v != "" then v else s
    case None => s
  }
}
