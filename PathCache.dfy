/** The per-path resource cache (load_path_stack) behind `resources()`:
    the first call for a path asks the resource indexer and remembers the
    five file groups; every later call copies the remembered groups out. */
module PathCache {
  import opened Values

  /** What one `resources(path, ls)` call yields: whether it discovered
      the path (the returned bool), the caller's array afterwards, and the
      cache afterwards. */
  datatype Lookup = Lookup(discovered: bool, groups: FileGroups, cache: map<Path, FileGroups>)

  /** The five group names `resources()` fills in. */
  const GROUP_NAMES: set<string> := {"resources", "controllers", "models", "views", "php"}

  /** The caller's array `ls` with the five groups of `rm` written into it;
      any other key the caller had put in `ls` stays. */
  function Filled(ls: FileGroups, rm: ResourceMap): FileGroups
  {
    ls["resources" := rm.resources]["controllers" := rm.controllers]["models" := rm.models]
      ["views" := rm.views]["php" := rm.php]
  }

  /** `resources(path, ls)` on the cache `cache`. */
  function Resources(cache: map<Path, FileGroups>, w: World, path: Path, ls: FileGroups): (res: Lookup)
    ensures res.discovered <==> path !in cache
    ensures res.cache.Keys == cache.Keys + {path}
    ensures path in res.cache && res.groups == res.cache[path]
  {
    if path !in cache then
      var g := Filled(ls, w.discover(path));
      Lookup(true, g, cache[path := g])
    else Lookup(false, cache[path], cache)
  }

  /** A first call for a path returns true and records, under that path,
      the caller's array holding the five groups the indexer found. */
  lemma ResourcesFirstCall(cache: map<Path, FileGroups>, w: World, path: Path, ls: FileGroups)
    requires path !in cache
    ensures
      var res := Resources(cache, w, path, ls);
      var rm := w.discover(path);
      && res.discovered
      && res.groups["resources"] == rm.resources && res.groups["controllers"] == rm.controllers
      && res.groups["models"] == rm.models && res.groups["views"] == rm.views && res.groups["php"] == rm.php
      && res.groups.Keys == ls.Keys + GROUP_NAMES
      && (forall k :: k in ls && k !in GROUP_NAMES ==> res.groups[k] == ls[k])
      && res.cache == cache[path := res.groups]
  {
  }

  /** A later call for a cached path returns false, hands back exactly the
      cached groups whatever the caller passed in, leaves the cache as it
      was, and does not depend on the indexer at all. */
  lemma ResourcesLaterCall(cache: map<Path, FileGroups>, w: World, w2: World, path: Path, ls: FileGroups, ls2: FileGroups)
    requires path in cache
    ensures
      var res := Resources(cache, w, path, ls);
      && !res.discovered
      && res.groups == cache[path]
      && res.cache == cache
      && Resources(cache, w2, path, ls2) == res
  {
  }

  /** Discovery happens once per path: a second call right after the first
      reports a hit and returns what the first call stored. */
  lemma ResourcesHitAfterMiss(cache: map<Path, FileGroups>, w: World, path: Path, ls: FileGroups, ls2: FileGroups)
    requires path !in cache
    ensures
      var first := Resources(cache, w, path, ls);
      var second := Resources(first.cache, w, path, ls2);
      && first.discovered && !second.discovered
      && second.groups == first.groups
      && second.cache == first.cache
  {
  }

  /** The cache only grows: a call never drops or changes an entry. */
  lemma ResourcesKeepsEntries(cache: map<Path, FileGroups>, w: World, path: Path, ls: FileGroups)
    ensures
      var res := Resources(cache, w, path, ls);
      && res.cache.Keys == cache.Keys + {path}
      && forall p :: p in cache ==> res.cache[p] == cache[p]
  {
  }
}
