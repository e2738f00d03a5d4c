/** The response cache: a map in memory over files on disk. */
module ResponseCache {
  import opened Wrappers
  import opened CacheSpec

  class LLMResponseCache {
    const enabled: bool
    const ttlSeconds: int
    const maxEntries: int

    var memoryCache: map<string, Entry>
    /** The files llm_*.json of the cache directory, by stem. */
    var disk: map<string, File>
    var hits: nat
    var misses: nat
    /** The latest reading of the clock. */
    var now: int

    function Value(): Cache
      reads this
    {
      Cache(enabled, ttlSeconds, maxEntries, memoryCache, disk, hits, misses, now)
    }

    constructor (enabled: bool, ttlSeconds: int, maxEntries: int, found: map<string, File>, now: int)
      ensures Value() == Cache(enabled, ttlSeconds, maxEntries, map[], found, 0, 0, now)
    {
      this.enabled, this.ttlSeconds, this.maxEntries := enabled, ttlSeconds, maxEntries;
      memoryCache, disk, hits, misses, this.now := map[], found, 0, 0, now;
    }

    /** Reads the clock: some time, at least one tick, has passed. */
    method Time() returns (t: int)
      modifies `now
      ensures t == now > old(now)
    {
      var elapsed: nat :| elapsed >= 0;
      now := now + 1 + elapsed;
      t := now;
    }

    method SaveToDisk(e: Entry, at: int)
      modifies `disk
      ensures disk == Save(old(disk), e, at)
    {
      if IsValidKey(e.key) {
        disk := disk[e.key := File(at, Some(e))];
      }
    }

    method DeleteDiskFile(key: string)
      modifies `disk
      ensures disk == if IsValidKey(key) then old(disk) - {key} else old(disk)
    {
      if IsValidKey(key) {
        disk := disk - {key};
      }
    }

    /** The entry in the file of key. A file for another key is dropped. */
    method LoadFromDisk(key: string) returns (e: Option<Entry>)
      requires IsValidKey(key)
      modifies `disk
      ensures e == if Readable(old(disk), key) then old(disk)[key].stored else None
      ensures disk == if Misfiled(old(disk), key) then old(disk) - {key} else old(disk)
    {
      if key !in disk || disk[key].stored.None? {
        return None;
      }
      e := disk[key].stored;
      if e.value.key != key {
        DeleteDiskFile(key);
        return None;
      }
    }

    /** The cached entry for key, touched, or None. r are the clock readings that were made. */
    method Get(key: string) returns (reply: Option<Entry>, ghost r: Readings)
      modifies this
      ensures After(old(now), r)
      ensures (Value(), reply) == CacheSpec.Get(old(Value()), key, r)
    {
      hide IsValidKey;
      var checked := Time();
      var touched := Time();
      var written := Time();
      r := Readings(checked, touched, written);
      if !enabled || !IsValidKey(key) {
        return None, r;
      }
      if key in memoryCache {
        var cached := memoryCache[key];
        if cached.key != key || Expired(cached, ttlSeconds, checked) {
          memoryCache := memoryCache - {key};
          DeleteDiskFile(key);
          misses := misses + 1;
          return None, r;
        }
        cached := Touch(cached, touched);
        memoryCache := memoryCache[key := cached];
        hits := hits + 1;
        SaveToDisk(cached, written);
        return Some(cached), r;
      }
      assert memoryCache - {key} == memoryCache;
      var loaded := LoadFromDisk(key);
      if loaded.Some? {
        var entry := loaded.value;
        if Expired(entry, ttlSeconds, checked) {
          DeleteDiskFile(key);
          misses := misses + 1;
          return None, r;
        }
        entry := Touch(entry, touched);
        memoryCache := memoryCache[key := entry];
        hits := hits + 1;
        SaveToDisk(entry, written);
        return Some(entry), r;
      }
      misses := misses + 1;
      return None, r;
    }

    method Delete(key: string)
      modifies this
      ensures Value() == CacheSpec.Delete(old(Value()), key)
    {
      if !IsValidKey(key) {
        return;
      }
      memoryCache := memoryCache - {key};
      DeleteDiskFile(key);
    }

    method Set(key: string, data: Data) returns (entry: Entry, ghost r: Readings)
      modifies this
      ensures After(old(now), r)
      ensures entry == Fresh(key, data, r) && SetStep(old(Value()), key, data, r, Value())
    {
      hide IsValidKey;
      var created := Time();
      var accessed := Time();
      var written := Time();
      r := Readings(created, accessed, written);
      entry := Entry(key, data, created, accessed, 0);
      if !enabled || !IsValidKey(key) {
        return;
      }
      memoryCache := memoryCache[key := entry];
      SaveToDisk(entry, written);
      EnforceCapacity();
    }

    /** Drops the oldest files when there are more than maxEntries. */
    method EvictExcessDiskFiles()
      requires maxEntries > 0
      modifies `disk
      ensures Newest(FileTimes(old(disk)), disk.Keys, maxEntries)
      ensures forall k :: k in disk ==> k in old(disk) && disk[k] == old(disk)[k]
    {
      hide Newest, SortedKeys, Front, FileTimes;
      TimesKeys(memoryCache, disk);
      AllAreNewest(FileTimes(disk), maxEntries);
      var diskFiles := Sorted(FileTimes(disk));
      var excess := |diskFiles| - maxEntries;
      if excess <= 0 {
        return;
      }
      DroppingFrontKeepsNewest(FileTimes(disk), diskFiles, maxEntries);
      disk := DropFirst(disk, diskFiles, excess);
    }

    /** Drops the least recently accessed entries when memory holds more than maxEntries. */
    method EvictExcessMemory()
      requires maxEntries > 0
      modifies `memoryCache
      ensures Newest(AccessTimes(old(memoryCache)), memoryCache.Keys, maxEntries)
      ensures forall k :: k in memoryCache ==> k in old(memoryCache) && memoryCache[k] == old(memoryCache)[k]
    {
      hide Newest, SortedKeys, Front, AccessTimes;
      TimesKeys(memoryCache, disk);
      AllAreNewest(AccessTimes(memoryCache), maxEntries);
      var sortedItems := Sorted(AccessTimes(memoryCache));
      var excess := |sortedItems| - maxEntries;
      if excess <= 0 {
        return;
      }
      DroppingFrontKeepsNewest(AccessTimes(memoryCache), sortedItems, maxEntries);
      memoryCache := DropFirst(memoryCache, sortedItems, excess);
    }

    method EnforceCapacity()
      modifies `memoryCache, `disk
      ensures Evicted(maxEntries, old(memoryCache), old(disk), memoryCache, disk)
    {
      if maxEntries <= 0 {
        return;
      }
      EvictExcessMemory();
      EvictExcessDiskFiles();
    }

    method Clear() returns (count: nat)
      modifies this
      ensures (Value(), count) == CacheSpec.Clear(old(Value()))
      ensures memoryCache == map[] && disk == map[] && hits == misses == 0
      ensures count == |old(memoryCache)| + |old(disk)|
    {
      count := |memoryCache|;
      memoryCache := map[];
      hits, misses := 0, 0;
      count := count + |disk|;
      disk := map[];
    }

    /** All entries on disk that are valid and have not expired, by key. Files for another key are
        dropped. */
    method LoadAllValidDiskEntries(at: int) returns (entries: map<string, Entry>)
      modifies `disk
      ensures disk == Purged(old(disk)) && entries == Unexpired(old(disk), ttlSeconds, at)
    {
      hide IsValidKey, Expired;
      var before := disk;
      var todo := disk.Keys;
      entries := map[];
      while todo != {}
        invariant todo <= before.Keys && disk.Keys <= before.Keys
        invariant forall k :: k in disk ==> disk[k] == before[k]
        invariant forall k :: k in before ==> (k in disk <==> k in todo || k in Purged(before))
        invariant entries.Keys <= before.Keys - todo
        invariant forall k :: k in before && k !in todo ==>
                    (k in entries <==> IsUnexpired(before, k, ttlSeconds, at))
                    && (k in entries ==> Some(entries[k]) == before[k].stored)
        decreases |todo|
      {
        var stem :| stem in todo;
        todo := todo - {stem};
        if !IsValidKey(stem) || disk[stem].stored.None? {
          continue;
        }
        var item := disk[stem].stored.value;
        if item.key != stem {
          disk := disk - {stem};
          continue;
        }
        if !Expired(item, ttlSeconds, at) {
          entries := entries[stem := item];
        }
      }
    }

    /** The content of the most recently accessed match, from memory if it has one. */
    method GetStartingPoint(tag: Option<string>, prefix: Option<string>)
      returns (content: Option<string>, ghost at: int)
      modifies this
      ensures Step(old(Value()), StartingPointOp(tag, prefix, at), Value(), Suggested(content))
    {
      hide IsValidKey, Selection, Expired, Candidates, MostRecent, Purged, Unexpired;
      var t := Time();
      at := t;
      if !enabled {
        return None, at;
      }
      ghost var c := old(Value());
      var entries := LoadAllValidDiskEntries(t);
      var candidates := FindStartingPointCandidates(memoryCache, entries, ttlSeconds, tag, prefix, t);
      CandidatesAreFound(c, tag, prefix, t);
      content := ContentOfLatest(candidates);
    }
  }

  // ----- starting points

  predicate IsUnexpired(disk: map<string, File>, k: string, ttl: int, at: int) {
    k in disk && IsValidKey(k) && Readable(disk, k) && !Expired(disk[k].stored.value, ttl, at)
  }

  function Unexpired(disk: map<string, File>, ttl: int, at: int): map<string, Entry> {
    map k | k in disk && IsUnexpired(disk, k, ttl, at) :: disk[k].stored.value
  }

  /** The matches among the entries; when `aged`, only those that have not expired. */
  function Selection(entries: map<string, Entry>, aged: bool, ttl: int,
                    tag: Option<string>, prefix: Option<string>, at: int): map<string, Entry>
  {
    map k | k in entries && !(aged && Expired(entries[k], ttl, at)) && Matches(entries[k], tag, prefix) :: entries[k]
  }

  method SelectMatching(entries: map<string, Entry>, aged: bool, ttl: int,
                        tag: Option<string>, prefix: Option<string>, at: int)
    returns (selected: map<string, Entry>)
    ensures selected == Selection(entries, aged, ttl, tag, prefix, at)
  {
    hide Matches, Expired;
    selected := map[];
    var todo := entries.Keys;
    while todo != {}
      invariant todo <= entries.Keys && selected.Keys <= entries.Keys - todo
      invariant forall k :: k in entries && k !in todo ==>
                  (k in selected <==> !(aged && Expired(entries[k], ttl, at)) && Matches(entries[k], tag, prefix))
      invariant forall k :: k in selected ==> k in entries && selected[k] == entries[k]
      decreases |todo|
    {
      var k :| k in todo;
      todo := todo - {k};
      if !(aged && Expired(entries[k], ttl, at)) && Matches(entries[k], tag, prefix) {
        selected := selected[k := entries[k]];
      }
    }
  }

  /** The matches in memory that have not expired, or, if there are none, those among the disk entries. */
  method FindStartingPointCandidates(memory: map<string, Entry>, diskEntries: map<string, Entry>, ttl: int,
                                     tag: Option<string>, prefix: Option<string>, at: int)
    returns (candidates: map<string, Entry>)
    ensures var m := Selection(memory, true, ttl, tag, prefix, at);
            candidates == if m != map[] then m else Selection(diskEntries, false, ttl, tag, prefix, at)
  {
    candidates := SelectMatching(memory, true, ttl, tag, prefix, at);
    if candidates == map[] {
      candidates := SelectMatching(diskEntries, false, ttl, tag, prefix, at);
    }
  }

  lemma CandidatesAreFound(c: Cache, tag: Option<string>, prefix: Option<string>, at: int)
    ensures var m := Selection(c.memory, true, c.ttl, tag, prefix, at);
            Candidates(c, tag, prefix, at)
            == if m != map[] then m else Selection(Unexpired(c.disk, c.ttl, at), false, c.ttl, tag, prefix, at)
  {
    hide IsValidKey, Matches, Expired;
    assert MemoryCandidates(c, tag, prefix, at) == Selection(c.memory, true, c.ttl, tag, prefix, at);
    assert DiskCandidates(c, tag, prefix, at) == Selection(Unexpired(c.disk, c.ttl, at), false, c.ttl, tag, prefix, at);
  }

  /** The content of the last entry when the entries are sorted by access. */
  method ContentOfLatest(candidates: map<string, Entry>) returns (content: Option<string>)
    ensures MostRecent(candidates, content)
  {
    var times := AccessTimes(candidates);
    var order := Sorted(times);
    if order == [] {
      assert candidates.Keys == times.Keys == {};
      return None;
    }
    var latest := order[|order| - 1];
    LastIsLatest(times, order);
    hide SortedKeys;
    assert forall k :: k in candidates ==> k in times && times[k] <= times[latest];
    return Some(candidates[latest].data.content);
  }

  lemma TimesKeys(memory: map<string, Entry>, disk: map<string, File>)
    ensures AccessTimes(memory).Keys == memory.Keys && FileTimes(disk).Keys == disk.Keys
  {
  }

  // ----- sorted()

  /** ks lists the keys of times once each, oldest first. */
  ghost predicate SortedKeys(times: map<string, int>, ks: seq<string>) {
    && (forall k :: k in times <==> k in ks)
    && (forall i, j :: 0 <= i < j < |ks| ==> ks[i] != ks[j] && times[ks[i]] <= times[ks[j]])
  }

  function Front(ks: seq<string>, n: nat): set<string>
    requires n <= |ks|
  {
    set i | 0 <= i < n :: ks[i]
  }

  /** The built-in sort of keys by time. */
  method Sorted(times: map<string, int>) returns (ks: seq<string>)
    ensures SortedKeys(times, ks) && |ks| == |times|
  {
    ks := [];
    var rest := times.Keys;
    while rest != {}
      invariant rest <= times.Keys && |ks| + |rest| == |times.Keys|
      invariant forall k :: k in times <==> k in ks || k in rest
      invariant forall k :: k in ks ==> k !in rest
      invariant forall i, j :: 0 <= i < j < |ks| ==> ks[i] != ks[j] && times[ks[i]] <= times[ks[j]]
      invariant forall a, b :: a in ks && b in rest ==> times[a] <= times[b]
      decreases |rest|
    {
      var k := Oldest(times, rest);
      ks, rest := ks + [k], rest - {k};
    }
  }

  method Oldest(times: map<string, int>, among: set<string>) returns (k: string)
    requires among != {} && among <= times.Keys
    ensures k in among && forall j :: j in among ==> times[k] <= times[j]
  {
    k :| k in among;
    var rest := among - {k};
    while rest != {}
      invariant rest <= among && k in among
      invariant forall j :: j in among && j !in rest ==> times[k] <= times[j]
      decreases |rest|
    {
      var j :| j in rest;
      if times[j] < times[k] {
        k := j;
      }
      rest := rest - {j};
    }
  }

  lemma {:induction false} FrontSize(ks: seq<string>, n: nat)
    requires n <= |ks| && forall i, j :: 0 <= i < j < |ks| ==> ks[i] != ks[j]
    ensures |Front(ks, n)| == n
  {
    if n > 0 {
      FrontSize(ks, n - 1);
      assert Front(ks, n) == Front(ks, n - 1) + {ks[n - 1]};
    }
  }

  /** m without its n first keys. */
  function Without<V>(m: map<string, V>, ks: seq<string>, n: nat): (r: map<string, V>)
    requires n <= |ks|
    ensures r.Keys == m.Keys - Front(ks, n)
    ensures forall k :: k in r ==> k in m && r[k] == m[k]
  {
    m - Front(ks, n)
  }

  lemma DropNone<V>(m: map<string, V>, ks: seq<string>)
    ensures Without(m, ks, 0) == m
  {
    assert Front(ks, 0) == {};
  }

  lemma DropNext<V>(m: map<string, V>, ks: seq<string>, i: nat)
    requires i < |ks|
    ensures Without(m, ks, i) - {ks[i]} == Without(m, ks, i + 1)
  {
    assert Front(ks, i + 1) == Front(ks, i) + {ks[i]};
  }

  /** Deletes the n first keys one by one. */
  method DropFirst<V>(m: map<string, V>, ks: seq<string>, n: nat) returns (r: map<string, V>)
    requires n <= |ks|
    ensures r == Without(m, ks, n)
  {
    r := m;
    DropNone(m, ks);
    for i := 0 to n
      invariant r == Without(m, ks, i)
    {
      DropNext(m, ks, i);
      r := r - {ks[i]};
    }
  }

  lemma AllAreNewest(times: map<string, int>, n: nat)
    ensures |times| <= n ==> Newest(times, times.Keys, n)
  {
    assert |times.Keys| == |times|;
  }

  /** Dropping the front of the sorted keys keeps the newest n. */
  lemma DroppingFrontKeepsNewest(times: map<string, int>, ks: seq<string>, n: nat)
    requires SortedKeys(times, ks) && |ks| == |times| && n < |ks|
    ensures Newest(times, times.Keys - Front(ks, |ks| - n), n)
  {
    hide SortedKeys, Front;
    var front := Front(ks, |ks| - n);
    RemainderSize(times, ks, |ks| - n);
    forall a, b | a in times && a in front && b in times && b !in front
      ensures times[a] <= times[b]
    {
      FrontIsOlder(times, ks, |ks| - n, a, b);
    }
    assert |times.Keys| == |times|;
  }

  lemma RemainderSize(times: map<string, int>, ks: seq<string>, n: nat)
    requires SortedKeys(times, ks) && |ks| == |times| && n <= |ks|
    ensures |times.Keys - Front(ks, n)| == |ks| - n
  {
    FrontSize(ks, n);
    assert Front(ks, n) <= times.Keys;
    assert |times.Keys - Front(ks, n)| == |times.Keys| - |Front(ks, n)|;
  }

  lemma FrontIsOlder(times: map<string, int>, ks: seq<string>, n: nat, a: string, b: string)
    requires SortedKeys(times, ks) && n <= |ks|
    requires a in Front(ks, n) && b in times && b !in Front(ks, n)
    ensures times[a] <= times[b]
  {
    var i :| 0 <= i < n && ks[i] == a;
    var j :| 0 <= j < |ks| && ks[j] == b;
    assert n <= j;
  }

  lemma LastIsLatest(times: map<string, int>, ks: seq<string>)
    requires SortedKeys(times, ks) && ks != []
    ensures var last := ks[|ks| - 1]; last in times && forall k :: k in times ==> times[k] <= times[last]
  {
    var last := ks[|ks| - 1];
    forall k | k in times
      ensures times[k] <= times[last]
    {
      var i :| 0 <= i < |ks| && ks[i] == k;
    }
  }
}
