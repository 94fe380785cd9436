/**
 * The binary cache of pkg/download/download.go: a `Manager` keeps at most
 * `maxCache` interpreter binaries, a map from version to on-disk path and a
 * recency list with the most recently used version at the front.
 *
 * The value-level functions (`Touch`, `Insert`, `Resolve`) say what one call
 * does to a `Cache`; the lemmas below them state what the source promises of
 * those calls; the `Manager` class updates its fields in place and is proved
 * to follow the functions.
 */
module Download {
  import opened Wrappers
  import FilePath

  /** The release URL template (`urlFmt`), split around its one `%s`. */
  const UrlHead := "https://github.com/bpftrace/bpftrace/releases/"
  const UrlTail := "/download/bpftrace"

  /** `fmt.Sprintf(m.urlFmt, version)`. */
  function DownloadUrl(version: string): string
  {
    UrlHead + version + UrlTail
  }

  /** Where the binary of `version` lives: `filepath.Join(cacheDir, version, "bpftrace")`. */
  function CachePath(cacheDir: string, version: string): string
  {
    FilePath.Join([cacheDir, version, "bpftrace"])
  }

  /** The outcome of the HTTP download of one binary. */
  datatype Fetch = Fetched | FetchFailed(reason: string)

  /** The two fields the cache keeps in step: `cache` and `lru`. */
  datatype Cache = Cache(entries: map<string, string>, lru: seq<string>)

  function Max(a: int, b: int): int
  {
    if a < b then b else a
  }

  predicate NoDuplicates(s: seq<string>)
  {
    forall i, j :: 0 <= i < j < |s| ==> s[i] != s[j]
  }

  /** The cache invariant: the map's keys are exactly the list's elements,
    * the list has no repeats and at most max(maxCache, 1) elements, and each
    * entry points at its version's binary under `cacheDir`. */
  ghost predicate Inv(c: Cache, cacheDir: string, maxCache: int)
  {
    && (forall v :: v in c.entries <==> v in c.lru)
    && NoDuplicates(c.lru)
    && |c.lru| <= Max(maxCache, 1)
    && (forall v :: v in c.entries ==> c.entries[v] == CachePath(cacheDir, v))
  }

  /** The list without the first occurrence of `x`. */
  function RemoveFirst(s: seq<string>, x: string): (r: seq<string>)
    ensures x in s ==> |r| == |s| - 1
    ensures x !in s ==> r == s
  {
    if s == [] then []
    else if s[0] == x then s[1..]
    else [s[0]] + RemoveFirst(s[1..], x)
  }

  /** `list.MoveToFront` applied to the element holding `x`, if there is one. */
  function MoveToFront(s: seq<string>, x: string): seq<string>
  {
    if x in s then [x] + RemoveFirst(s, x) else s
  }

  /** `m[k]` in Go: the zero value "" for a missing key. */
  function Lookup(m: map<string, string>, k: string): string
  {
    if k in m then m[k] else ""
  }

  /** `add` evicts when the list is full and has a back element. */
  predicate Evicts(c: Cache, maxCache: int)
  {
    |c.lru| >= maxCache && |c.lru| > 0
  }

  function Back(c: Cache): string
    requires |c.lru| > 0
  {
    c.lru[|c.lru| - 1]
  }

  /** A cache hit: the version moves to the front; nothing else changes. */
  function Touch(c: Cache, version: string): (r: Cache)
    ensures r.entries == c.entries
    ensures version in c.lru ==> |r.lru| == |c.lru| && r.lru[0] == version
    ensures version !in c.lru ==> r == c
  {
    c.(lru := MoveToFront(c.lru, version))
  }

  /** What `add(version, path)` does to the two fields. */
  function Insert(c: Cache, maxCache: int, version: string, path: string): (r: Cache)
    ensures |r.lru| > 0 && r.lru[0] == version && version in r.entries && r.entries[version] == path
    ensures Evicts(c, maxCache) ==> |r.lru| == |c.lru|
    ensures !Evicts(c, maxCache) ==> |r.lru| == |c.lru| + 1
  {
    var kept := if Evicts(c, maxCache) then Cache(c.entries - {Back(c)}, c.lru[..|c.lru| - 1]) else c;
    Cache(kept.entries[version := path], [version] + kept.lru)
  }

  /** The directories `add` hands to `os.RemoveAll`: when it evicts, the
    * directory of the evicted version's path, read after its entry was
    * deleted from the map, as the source does. */
  function InsertRemovals(c: Cache, maxCache: int): (r: seq<string>)
    ensures |r| <= 1
    ensures |r| == 1 <==> Evicts(c, maxCache)
  {
    if Evicts(c, maxCache) then [FilePath.Dir(Lookup(c.entries - {Back(c)}, Back(c)))] else []
  }

  /** The same removal with the path read before the delete: the evidently
    * intended target. */
  function IntendedRemovals(c: Cache, maxCache: int): seq<string>
  {
    if Evicts(c, maxCache) then [FilePath.Dir(Lookup(c.entries, Back(c)))] else []
  }

  /** Everything one `Get` produces: the new fields, its return value, the
    * URLs it downloaded and the directories it removed. */
  datatype Resolution = Resolution(cache: Cache, result: Result<string, string>,
                                   fetches: seq<string>, removals: seq<string>)

  /** `Get(version)`, given the paths that exist on disk and what the
    * download would do. */
  function Resolve(c: Cache, cacheDir: string, maxCache: int, version: string,
                   existing: set<string>, fetch: Fetch): (r: Resolution)
    ensures version in c.entries ==> r.fetches == [] && r.removals == [] && r.result == Success(c.entries[version])
    ensures version !in c.entries ==> r.fetches == (if CachePath(cacheDir, version) in existing then [] else [DownloadUrl(version)])
    ensures r.result.Failure? <==> version !in c.entries && CachePath(cacheDir, version) !in existing && fetch.FetchFailed?
    ensures r.result.Failure? ==> r.cache == c && r.removals == []
    ensures r.result.Success? ==> version in r.cache.entries && r.cache.entries[version] == r.result.value
    ensures |r.removals| <= 1
  {
    if version in c.entries then
      Resolution(Touch(c, version), Success(c.entries[version]), [], [])
    else
      var path := CachePath(cacheDir, version);
      if path in existing then
        Resolution(Insert(c, maxCache, version, path), Success(path), [], InsertRemovals(c, maxCache))
      else if fetch.FetchFailed? then
        Resolution(c, Failure(fetch.reason), [DownloadUrl(version)], [])
      else
        Resolution(Insert(c, maxCache, version, path), Success(path), [DownloadUrl(version)], InsertRemovals(c, maxCache))
  }

  // ---------------------------------------------------------------------
  // The recency list

  /** The front-to-back scan of `Get` for the list element holding `x`:
    * the first index holding it, or |s| when there is none. */
  method IndexOf(s: seq<string>, x: string) returns (i: nat)
    ensures i <= |s|
    ensures i < |s| ==> s[i] == x
    ensures x !in s[..i]
    ensures i == |s| <==> x !in s
  {
    i := 0;
    while i < |s| && s[i] != x
      invariant i <= |s|
      invariant x !in s[..i]
    {
      i := i + 1;
    }
    assert i < |s| ==> x in s;
  }

  /** Removing the first occurrence is cutting the list at its index. */
  lemma {:induction false} RemoveFirstAt(s: seq<string>, x: string, k: nat)
    requires k < |s| && s[k] == x && x !in s[..k]
    ensures RemoveFirst(s, x) == s[..k] + s[k + 1..]
  {
    if k > 0 {
      assert s[0] != x by {
        assert s[0] == s[..k][0];
      }
      assert s[1..][..k - 1] == s[1..k];
      RemoveFirstAt(s[1..], x, k - 1);
      assert s[..k] == [s[0]] + s[1..k];
      assert s[1..][k..] == s[k + 1..];
    }
  }

  /** Moving the element found at index k to the front is `Touch`, and keeps the invariant. */
  lemma MoveToFrontAt(c: Cache, cacheDir: string, maxCache: int, version: string, k: nat)
    requires Inv(c, cacheDir, maxCache) && version in c.entries
    requires k <= |c.lru| && (k < |c.lru| ==> c.lru[k] == version) && version !in c.lru[..k]
    requires k == |c.lru| <==> version !in c.lru
    ensures k < |c.lru|
    ensures Touch(c, version) == Cache(c.entries, [version] + (c.lru[..k] + c.lru[k + 1..]))
    ensures Inv(Touch(c, version), cacheDir, maxCache)
  {
    TouchPreservesInv(c, cacheDir, maxCache, version);
    RemoveFirstAt(c.lru, version, k);
  }

  /** On a list without repeats, removing `x` leaves every other element,
    * one fewer element, and still no repeats. */
  lemma {:induction false} RemoveFirstContents(s: seq<string>, x: string)
    requires x in s && NoDuplicates(s)
    ensures forall y :: y in RemoveFirst(s, x) <==> y in s && y != x
    ensures |RemoveFirst(s, x)| == |s| - 1
    ensures NoDuplicates(RemoveFirst(s, x))
  {
    if s[0] == x {
      assert s == [s[0]] + s[1..];
      assert forall j :: 0 < j < |s| ==> s[j] != x;
    } else {
      assert NoDuplicates(s[1..]) by {
        assert forall i :: 0 <= i < |s| - 1 ==> s[1..][i] == s[i + 1];
      }
      RemoveFirstContents(s[1..], x);
      assert s == [s[0]] + s[1..];
      assert s[0] !in s[1..];
    }
  }

  // ---------------------------------------------------------------------
  // The cache operations and what they keep

  /** A hit keeps the invariant: the list is reordered, not changed. */
  lemma TouchPreservesInv(c: Cache, cacheDir: string, maxCache: int, version: string)
    requires Inv(c, cacheDir, maxCache) && version in c.entries
    ensures Inv(Touch(c, version), cacheDir, maxCache)
    ensures Touch(c, version).entries == c.entries
    ensures Touch(c, version).lru[0] == version
    ensures |Touch(c, version).lru| == |c.lru|
  {
    RemoveFirstContents(c.lru, version);
    var l := MoveToFront(c.lru, version);
    assert l == [version] + RemoveFirst(c.lru, version);
    assert forall j :: 0 < j < |l| ==> l[j] in RemoveFirst(c.lru, version);
  }

  /** The list part of `add`: keys and elements stay equal and unrepeated. */
  lemma InsertKeepsListInSync(c: Cache, maxCache: int, version: string, path: string)
    requires forall v :: v in c.entries <==> v in c.lru
    requires NoDuplicates(c.lru) && version !in c.entries
    ensures var r := Insert(c, maxCache, version, path);
            (forall v :: v in r.entries <==> v in r.lru) && NoDuplicates(r.lru)
  {
    var n := |c.lru|;
    var kept := if Evicts(c, maxCache) then c.lru[..n - 1] else c.lru;
    assert forall v :: v in kept ==> v in c.lru;
    if Evicts(c, maxCache) {
      assert forall v :: v in c.lru && v != Back(c) ==> v in kept by {
        forall v | v in c.lru && v != Back(c) ensures v in kept {
          var i :| 0 <= i < n && c.lru[i] == v;
          assert i < n - 1 && kept[i] == v;
        }
      }
      assert Back(c) !in kept by {
        assert forall i :: 0 <= i < n - 1 ==> kept[i] == c.lru[i] != c.lru[n - 1];
      }
    }
    var l := [version] + kept;
    assert forall i :: 0 < i < |l| ==> l[i] == kept[i - 1];
  }

  /** `add` on a miss keeps the invariant, including the size bound. */
  lemma InsertPreservesInv(c: Cache, cacheDir: string, maxCache: int, version: string)
    requires Inv(c, cacheDir, maxCache) && version !in c.entries
    ensures Inv(Insert(c, maxCache, version, CachePath(cacheDir, version)), cacheDir, maxCache)
  {
    var path := CachePath(cacheDir, version);
    InsertKeepsListInSync(c, maxCache, version, path);
    var r := Insert(c, maxCache, version, path);
    assert forall v :: v in r.entries ==> r.entries[v] == CachePath(cacheDir, v) by {
      forall v | v in r.entries ensures r.entries[v] == CachePath(cacheDir, v) {
        if v != version {
          assert v in c.entries && r.entries[v] == c.entries[v];
        }
      }
    }
  }

  /** When the list is full, exactly its back element leaves both fields and
    * the new version goes to the front; otherwise nothing leaves. */
  lemma InsertEvictsBack(c: Cache, cacheDir: string, maxCache: int, version: string, path: string)
    requires Inv(c, cacheDir, maxCache) && version !in c.entries
    ensures var r := Insert(c, maxCache, version, path);
            && r.lru[0] == version
            && r.entries[version] == path
            && (Evicts(c, maxCache) ==>
                  && r.lru == [version] + c.lru[..|c.lru| - 1]
                  && r.entries.Keys == c.entries.Keys - {Back(c)} + {version}
                  && |r.lru| == |c.lru|)
            && (!Evicts(c, maxCache) ==>
                  && r.lru == [version] + c.lru
                  && r.entries.Keys == c.entries.Keys + {version}
                  && |r.lru| == |c.lru| + 1)
  {
  }

  /** The size bound stated on its own: after `add`, the list holds at most
    * max(maxCache, 1) versions. */
  lemma InsertBounded(c: Cache, cacheDir: string, maxCache: int, version: string)
    requires Inv(c, cacheDir, maxCache) && version !in c.entries
    ensures |Insert(c, maxCache, version, CachePath(cacheDir, version)).lru| <= Max(maxCache, 1)
  {
  }

  /** A hit returns the stored path, never downloads or removes anything,
    * keeps the map and puts the version at the front. */
  lemma ResolveHit(c: Cache, cacheDir: string, maxCache: int, version: string,
                   existing: set<string>, fetch: Fetch)
    requires Inv(c, cacheDir, maxCache) && version in c.entries
    ensures var s := Resolve(c, cacheDir, maxCache, version, existing, fetch);
            && s.result == Success(c.entries[version])
            && s.cache.entries == c.entries
            && s.cache.lru == [version] + RemoveFirst(c.lru, version)
            && s.fetches == [] && s.removals == []
  {
  }

  /** A miss whose binary is already on disk registers it without a download. */
  lemma ResolveExistingMiss(c: Cache, cacheDir: string, maxCache: int, version: string,
                            existing: set<string>, fetch: Fetch)
    requires version !in c.entries && CachePath(cacheDir, version) in existing
    ensures var s := Resolve(c, cacheDir, maxCache, version, existing, fetch);
            && s.result == Success(CachePath(cacheDir, version))
            && s.cache == Insert(c, maxCache, version, CachePath(cacheDir, version))
            && s.fetches == []
  {
  }

  /** A failed download is reported and leaves both fields exactly as they were. */
  lemma ResolveFetchFailure(c: Cache, cacheDir: string, maxCache: int, version: string,
                            existing: set<string>, reason: string)
    requires version !in c.entries && CachePath(cacheDir, version) !in existing
    ensures var s := Resolve(c, cacheDir, maxCache, version, existing, FetchFailed(reason));
            && s.result == Failure(reason)
            && s.cache == c
            && s.fetches == [DownloadUrl(version)]
            && s.removals == []
  {
  }

  /** Every `Get` keeps the invariant, and every path it returns is the
    * version's binary under `cacheDir`. */
  lemma ResolvePreservesInv(c: Cache, cacheDir: string, maxCache: int, version: string,
                            existing: set<string>, fetch: Fetch)
    requires Inv(c, cacheDir, maxCache)
    ensures var s := Resolve(c, cacheDir, maxCache, version, existing, fetch);
            && Inv(s.cache, cacheDir, maxCache)
            && (s.result.Success? ==> s.result.value == CachePath(cacheDir, version))
            && (s.result.Failure? ==> s.cache == c)
  {
    if version in c.entries {
      TouchPreservesInv(c, cacheDir, maxCache, version);
    } else {
      InsertPreservesInv(c, cacheDir, maxCache, version);
    }
  }

  // ---------------------------------------------------------------------
  // The eviction's removal target

  /** The path of a binary sits in the directory `cacheDir/version`. */
  lemma DirOfCachePath(cacheDir: string, version: string)
    requires cacheDir != ""
    ensures FilePath.Dir(CachePath(cacheDir, version)) == FilePath.Join([cacheDir, version])
  {
    var x := cacheDir + "/" + version;
    assert FilePath.JoinSegs([cacheDir, version]) == x by {
      assert [cacheDir, version][..1] == [cacheDir];
    }
    assert FilePath.JoinSegs([cacheDir, version, "bpftrace"]) == x + "/" + "bpftrace" by {
      assert [cacheDir, version, "bpftrace"][..2] == [cacheDir, version];
    }
    FilePath.DirOfChild(x, "bpftrace");
  }

  /** As written, the path is read after the entry is gone, so the removal
    * target is `filepath.Dir("")`, which is ".". */
  lemma EvictionRemovesDot(c: Cache, maxCache: int)
    requires Evicts(c, maxCache)
    ensures InsertRemovals(c, maxCache) == ["."]
  {
    assert FilePath.LastSlash("") == -1;
  }

  /** With an absolute cache directory (the default is /tmp/cache), that
    * target is never the evicted version's directory, so its binary stays on disk. */
  lemma EvictionMissesEvictedDir(c: Cache, cacheDir: string, maxCache: int)
    requires Inv(c, cacheDir, maxCache) && Evicts(c, maxCache)
    requires cacheDir != "" && cacheDir[0] == '/'
    ensures InsertRemovals(c, maxCache)[0] != FilePath.Join([cacheDir, Back(c)])
  {
    EvictionRemovesDot(c, maxCache);
    var x := cacheDir + "/" + Back(c);
    assert FilePath.JoinSegs([cacheDir, Back(c)]) == x by {
      assert [cacheDir, Back(c)][..1] == [cacheDir];
    }
    assert x[0] == '/';
    FilePath.CleanRooted(x);
  }

  /** Read before the delete, the target is the evicted version's directory. */
  lemma IntendedRemovalIsVersionDir(c: Cache, cacheDir: string, maxCache: int)
    requires Inv(c, cacheDir, maxCache) && Evicts(c, maxCache) && cacheDir != ""
    ensures IntendedRemovals(c, maxCache) == [FilePath.Join([cacheDir, Back(c)])]
  {
    assert Back(c) in c.lru;
    DirOfCachePath(cacheDir, Back(c));
  }

  // ---------------------------------------------------------------------
  // The Manager

  /** `download.Manager`: the cache with its directory and capacity. */
  class Manager {
    const cacheDir: string
    const maxCache: int
    var cache: map<string, string>
    var lru: seq<string>
    /** The URLs handed to `download`, in order. */
    ghost var fetches: seq<string>
    /** The directories handed to `os.RemoveAll`, in order. */
    ghost var removals: seq<string>

    function State(): Cache
      reads this
    {
      Cache(cache, lru)
    }

    ghost predicate Valid()
      reads this
    {
      cacheDir != "" && Inv(State(), cacheDir, maxCache)
    }

    /** `NewManager`, once `MkdirAll(cacheDir)` has succeeded (so the
      * directory name is not empty). */
    constructor (cacheDir: string, maxCache: int)
      requires cacheDir != ""
      ensures Valid()
      ensures this.cacheDir == cacheDir && this.maxCache == maxCache
      ensures cache == map[] && lru == [] && fetches == [] && removals == []
    {
      this.cacheDir := cacheDir;
      this.maxCache := maxCache;
      cache := map[];
      lru := [];
      fetches := [];
      removals := [];
    }

    /** `Get(version)`: the path of the version's binary, or the download's error. */
    method Get(version: string, existing: set<string>, fetch: Fetch) returns (r: Result<string, string>)
      requires Valid()
      modifies this
      ensures Valid()
      ensures var s := Resolve(old(State()), cacheDir, maxCache, version, existing, fetch);
              && State() == s.cache && r == s.result
              && fetches == old(fetches) + s.fetches
              && removals == old(removals) + s.removals
    {
      ResolvePreservesInv(State(), cacheDir, maxCache, version, existing, fetch);
      if version in cache {
        var path := cache[version];
        MoveVersionToFront(version);
        return Success(path);
      }

      var path := CachePath(cacheDir, version);
      if path in existing {
        Add(version, path);
        return Success(path);
      }

      fetches := fetches + [DownloadUrl(version)];
      if fetch.FetchFailed? {
        return Failure(fetch.reason);
      }

      Add(version, path);
      return Success(path);
    }

    /** The scan of lines 46-51: find the list element holding `version`
      * and move it to the front. */
    method MoveVersionToFront(version: string)
      requires Valid() && version in cache
      modifies this`lru
      ensures Valid()
      ensures State() == Touch(old(State()), version)
    {
      var i := IndexOf(lru, version);
      MoveToFrontAt(State(), cacheDir, maxCache, version, i);
      lru := [version] + (lru[..i] + lru[i + 1..]);
    }

    /** `add(version, path)`, which `Get` calls only on a miss. */
    method Add(version: string, path: string)
      requires Valid() && version !in cache && path == CachePath(cacheDir, version)
      modifies this
      ensures Valid()
      ensures State() == Insert(old(State()), maxCache, version, path)
      ensures removals == old(removals) + InsertRemovals(old(State()), maxCache)
      ensures fetches == old(fetches)
    {
      ghost var after := Insert(State(), maxCache, version, path);
      ghost var removed := InsertRemovals(State(), maxCache);
      InsertPreservesInv(State(), cacheDir, maxCache, version);
      if |lru| >= maxCache {
        if |lru| > 0 {
          var oldVersion := lru[|lru| - 1];
          lru := lru[..|lru| - 1];
          cache := cache - {oldVersion};
          removals := removals + [FilePath.Dir(Lookup(cache, oldVersion))];
        }
      }
      lru := [version] + lru;
      cache := cache[version := path];
      assert lru == after.lru && cache == after.entries;
    }
  }
}
