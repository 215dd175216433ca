/** The registry client (src/lib/npmApi.ts): a never-evicted memo in front of
    the registry's HTTP endpoint, and small readers of a registry record. */
module NpmApi {
  import opened Types
  import opened Semver
  import Sorting

  /** What the registry would answer for each package name: an absent name is
      a request that fails (timeout, error status, network error, bad body). */
  type Registry = map<string, NpmPackageInfo>

  /** The answer of `fetchPackageInfo` for `name`, given the cache it finds. */
  function Fetched(cache: map<string, NpmPackageInfo>, registry: Registry, name: string): (r: Option<NpmPackageInfo>)
    ensures name in cache ==> r == Some(cache[name])
    ensures name !in cache && name !in registry ==> r == None
    ensures name !in cache && name in registry ==> r == Some(registry[name])
  {
    if name in cache then Some(cache[name])
    else if name in registry then Some(registry[name])
    else None
  }

  /** The cache after `fetchPackageInfo(name)`: only a miss that succeeds adds. */
  function CacheAfterFetch(cache: map<string, NpmPackageInfo>, registry: Registry, name: string): (c: map<string, NpmPackageInfo>)
    ensures forall k :: k in cache ==> k in c && c[k] == cache[k]
    ensures c.Keys <= cache.Keys + {name}
    ensures Fetched(cache, registry, name).None? ==> c == cache
  {
    if name !in cache && name in registry then cache[name := registry[name]] else cache
  }

  /** Once a fetch has succeeded, later calls for that name are hits that
      return the same record, whatever the registry would answer by then. */
  lemma SecondFetchIsHit(cache: map<string, NpmPackageInfo>, registry: Registry, later: Registry, name: string)
    requires Fetched(cache, registry, name).Some?
    ensures name in CacheAfterFetch(cache, registry, name)
    ensures Fetched(CacheAfterFetch(cache, registry, name), later, name) == Fetched(cache, registry, name)
    ensures CacheAfterFetch(CacheAfterFetch(cache, registry, name), later, name) == CacheAfterFetch(cache, registry, name)
  {
  }

  /** The module-level `packageCache` Map, with a log of the HTTP requests made. */
  class PackageCache {
    var entries: map<string, NpmPackageInfo>
    ghost var requests: seq<string>

    /** Every cached record came from a request for its own name. */
    ghost predicate Valid()
      reads this
    {
      forall name :: name in entries ==> name in requests
    }

    constructor ()
      ensures Valid() && entries == map[] && requests == []
    {
      entries := map[];
      requests := [];
    }

    /** `fetchPackageInfo`: a hit answers from the cache without a request; a
        miss requests, and stores the record only when the request succeeds. */
    method FetchPackageInfo(name: string, registry: Registry) returns (info: Option<NpmPackageInfo>)
      requires Valid()
      modifies this
      ensures Valid()
      ensures info == Fetched(old(entries), registry, name)
      ensures entries == CacheAfterFetch(old(entries), registry, name)
      ensures requests == if name in old(entries) then old(requests) else old(requests) + [name]
    {
      if name in entries {
        return Some(entries[name]);
      }
      requests := requests + [name];
      if name in registry {
        var data := registry[name];
        entries := entries[name := data];
        return Some(data);
      }
      return None;
    }
  }

  /** `getAvailableVersions`: the version keys, newest first per `rcompare`. */
  function GetAvailableVersions(info: NpmPackageInfo, sv: Semver): (r: seq<string>)
    ensures multiset(r) == multiset(Keys(info.versions))
  {
    Sorting.Sort(Keys(info.versions), sv.rcompare)
  }

  lemma AvailableVersionsSorted(info: NpmPackageInfo, sv: Semver)
    requires OrderIsPreorder(sv)
    ensures Sorting.SortedBy(GetAvailableVersions(info, sv), sv.rcompare)
  {
    Sorting.SortSorted(Keys(info.versions), sv.rcompare);
  }

  /** `getLatestVersion`: the `latest` dist-tag. */
  function GetLatestVersion(info: NpmPackageInfo): string {
    info.distTags.latest
  }

  /** The answer is the `latest` dist-tag alone: the published versions play no
      part, so it need not be one of them nor the newest. */
  lemma LatestVersionIgnoresVersions(info: NpmPackageInfo, versions: seq<(string, VersionInfo)>)
    ensures GetLatestVersion(info.(versions := versions)) == GetLatestVersion(info)
  {
  }

  /** `hasPeerDependencies`: false without that version or without its
      `peerDependencies`; otherwise whether `peerPackage` is a key there. */
  function HasPeerDependencies(info: NpmPackageInfo, version: string, peerPackage: string): (r: bool)
    ensures r ==> version in Keys(info.versions)
    ensures r <==> exists vi :: Get(info.versions, version) == Some(vi) && vi.peerDependencies.Some?
                                 && Get(vi.peerDependencies.value, peerPackage).Some?
  {
    match Get(info.versions, version)
    case None => false
    case Some(vi) =>
      if vi.peerDependencies.None? then false
      else Get(vi.peerDependencies.value, peerPackage).Some?
  }
}
