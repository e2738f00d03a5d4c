/** What every run of the two-tier cache keeps, and why the memory tier cannot be noticed. */
module CacheTheorems {
  import opened Wrappers
  import opened CacheSpec

  // ----- the invariant

  /** The clock has passed every file, no two files are equally old, and a readable entry was created,
      then accessed, then written, with no other file written in between. */
  ghost predicate Timed(disk: map<string, File>, now: int) {
    && (forall k :: k in disk ==> disk[k].mtime <= now)
    && (forall j, k :: j in disk && k in disk && j != k ==> disk[j].mtime != disk[k].mtime)
    && (forall k :: Readable(disk, k) ==>
          disk[k].stored.value.createdAt <= disk[k].stored.value.lastAccessed < disk[k].mtime)
    && (forall j, k :: j in disk && Readable(disk, k) && disk[j].mtime < disk[k].mtime ==>
          disk[j].mtime < disk[k].stored.value.lastAccessed)
  }

  /** Inclusion: what memory holds is on disk, equal and under its own valid key. */
  ghost predicate Included(c: Cache) {
    forall k :: k in c.memory ==> IsValidKey(k) && Readable(c.disk, k) && c.disk[k].stored == Some(c.memory[k])
  }

  /** Recency: what only the disk holds is older than everything memory holds. */
  ghost predicate Recent(c: Cache) {
    forall d, m :: d in c.disk && d !in c.memory && m in c.memory ==> c.disk[d].mtime < c.memory[m].lastAccessed
  }

  ghost predicate Inv(c: Cache) {
    Timed(c.disk, c.now) && Included(c) && Recent(c)
  }

  /** A new process starts with an empty memory over whatever well-timed files it finds. */
  lemma StartsInvariant(c: Cache)
    ensures c.memory == map[] && Timed(c.disk, c.now) ==> Inv(c)
  {
  }

  // ----- writing

  /** Writing an entry that was touched after every file keeps the times in order. */
  lemma SaveTimed(disk: map<string, File>, now: int, e: Entry, at: int)
    requires Timed(disk, now) && now < e.lastAccessed < at && e.createdAt <= e.lastAccessed
    ensures Timed(Save(disk, e, at), at)
  {
    if IsValidKey(e.key) {
      var d := Save(disk, e, at);
      forall k | Readable(d, k) && k != e.key
        ensures Readable(disk, k) && disk[k] == d[k]
      {
      }
    }
  }

  lemma HitKeepsInv(c: Cache, key: string, e: Entry, r: Readings)
    requires Inv(c) && After(c.now, r) && IsValidKey(key) && Readable(c.disk, key) && c.disk[key].stored == Some(e)
    ensures Inv(Hit(c, key, e, r).0)
  {
    SaveTimed(c.disk, c.now, Touch(e, r.touched), r.written);
  }

  lemma DropKeepsInv(c: Cache, key: string, r: Readings)
    requires Inv(c) && After(c.now, r)
    ensures Inv(Drop(c, key, r).0)
  {
    DropKeepsTimed(c.disk, c.now, key, r.written);
  }

  lemma DropKeepsTimed(disk: map<string, File>, now: int, key: string, now': int)
    requires Timed(disk, now) && now <= now'
    ensures Timed(disk - {key}, now')
  {
    forall k | Readable(disk - {key}, k)
      ensures Readable(disk, k)
    {
    }
  }

  /** Lookup when the memory tier is ignored. */
  function DiskGet(c: Cache, key: string, r: Readings): (Cache, Option<Entry>) {
    if !c.enabled || !IsValidKey(key) then (c.(now := r.written), None)
    else if Readable(c.disk, key) then
      var e := c.disk[key].stored.value;
      if Expired(e, c.ttl, r.checked) then Drop(c, key, r) else Hit(c, key, e, r)
    else if Misfiled(c.disk, key) then Drop(c, key, r)
    else (c.(misses := c.misses + 1, now := r.written), None)
  }

  lemma GetIsDiskGet(c: Cache, key: string, r: Readings)
    requires Inv(c)
    ensures Get(c, key, r) == DiskGet(c, key, r)
  {
    hide Hit, Drop, IsValidKey;
  }

  lemma TickKeepsInv(c: Cache, at: int)
    requires Inv(c) && c.now <= at
    ensures Inv(c.(now := at))
  {
  }

  lemma DiskGetKeepsInv(c: Cache, key: string, r: Readings)
    requires Inv(c) && After(c.now, r)
    ensures Inv(DiskGet(c, key, r).0)
  {
    hide Inv, Hit, Drop, IsValidKey, Expired, Misfiled;
    if !c.enabled || !IsValidKey(key) {
      TickKeepsInv(c, r.written);
    } else if Readable(c.disk, key) {
      HitKeepsInv(c, key, c.disk[key].stored.value, r);
      DropKeepsInv(c, key, r);
    } else {
      MissKeepsInv(c, r.written);
      DropKeepsInv(c, key, r);
    }
  }

  lemma GetKeepsInv(c: Cache, key: string, r: Readings)
    requires Inv(c) && After(c.now, r)
    ensures Inv(Get(c, key, r).0)
  {
    GetIsDiskGet(c, key, r);
    hide Inv, Get, DiskGet;
    DiskGetKeepsInv(c, key, r);
  }

  /** A lookup adds no file. */
  lemma GetAddsNoFile(c: Cache, key: string, r: Readings)
    requires Inv(c)
    ensures Get(c, key, r).0.disk.Keys <= c.disk.Keys
  {
    GetIsDiskGet(c, key, r);
    hide Inv, Get, IsValidKey, Expired;
  }

  lemma MissKeepsInv(c: Cache, at: int)
    requires Inv(c) && c.now <= at
    ensures Inv(c.(misses := c.misses + 1, now := at))
  {
  }

  // ----- eviction

  /** With distinct times there is one way to keep the newest. */
  lemma NewestIsUnique(times: map<string, int>, a: set<string>, b: set<string>, n: nat)
    requires forall j, k :: j in times && k in times && j != k ==> times[j] != times[k]
    requires Newest(times, a, n) && Newest(times, b, n)
    ensures a == b
  {
    if x :| x in a && x !in b {
      assert b <= a - {x} by {
        forall y | y in b
          ensures y in a
        {
          assert times[x] != times[y];
        }
      }
      CardinalityLess(b, a, x);
    } else if y :| y in b && y !in a {
      assert a <= b;
      CardinalityLess(a, b, y);
    }
  }

  lemma CardinalityLess(small: set<string>, big: set<string>, x: string)
    requires small <= big && x in big && x !in small
    ensures |small| < |big|
  {
    SubsetCardinality(small, big - {x});
  }

  lemma {:induction false} SubsetCardinality(small: set<string>, big: set<string>)
    requires small <= big
    ensures |small| <= |big|
    decreases |small|
  {
    if x :| x in small {
      SubsetCardinality(small - {x}, big - {x});
    }
  }

  /** In an invariant state, before eviction, memory is ordered as its files are. */
  lemma EvictionKeepsInclusion(c: Cache, memory': map<string, Entry>, disk': map<string, File>)
    requires Inv(c) && c.limit > 0 && Evicted(c.limit, c.memory, c.disk, memory', disk')
    ensures memory'.Keys <= disk'.Keys
  {
    var kept, files := memory'.Keys, disk'.Keys;
    if m :| m in kept && m !in files {
      forall b | b in files
        ensures b in kept && b != m
      {
        KeptFileIsKept(c, memory', disk', m, b);
      }
      CardinalityLess(files, FileTimes(c.disk).Keys, m);
      CardinalityLess(files, kept, m);
    }
  }

  /** If memory keeps m although the disk drops it, then memory keeps every file the disk keeps. */
  lemma KeptFileIsKept(c: Cache, memory': map<string, Entry>, disk': map<string, File>, m: string, b: string)
    requires Inv(c) && c.limit > 0 && Evicted(c.limit, c.memory, c.disk, memory', disk')
    requires m in memory' && m !in disk' && b in disk'
    ensures b in memory'
  {
    var files := FileTimes(c.disk);
    assert files[m] <= files[b];
    assert c.disk[m].mtime < c.disk[b].mtime;
    assert c.memory[m].lastAccessed < c.disk[m].mtime;
    assert b in c.memory;
    assert c.disk[m].mtime < c.memory[b].lastAccessed;
    assert AccessTimes(c.memory)[m] < AccessTimes(c.memory)[b];
  }

  lemma EvictionKeepsInv(c: Cache, memory': map<string, Entry>, disk': map<string, File>)
    requires Inv(c) && Evicted(c.limit, c.memory, c.disk, memory', disk')
    ensures Inv(c.(memory := memory', disk := disk'))
  {
    if c.limit > 0 {
      EvictionKeepsInclusion(c, memory', disk');
      var c' := c.(memory := memory', disk := disk');
      forall k | Readable(disk', k)
        ensures Readable(c.disk, k) && c.disk[k] == disk'[k]
      {
      }
      assert Timed(disk', c.now);
      forall d, m | d in disk' && d !in memory' && m in memory'
        ensures disk'[d].mtime < memory'[m].lastAccessed
      {
        EvictedIsOlder(c, memory', disk', d, m);
      }
    }
  }

  lemma EvictedIsOlder(c: Cache, memory': map<string, Entry>, disk': map<string, File>, d: string, m: string)
    requires Inv(c) && c.limit > 0 && Evicted(c.limit, c.memory, c.disk, memory', disk')
    requires d in disk' && d !in memory' && m in memory'
    ensures disk'[d].mtime < memory'[m].lastAccessed
  {
    if d in c.memory {
      var access := AccessTimes(c.memory);
      assert access[d] <= access[m];
      assert !(c.disk[m].mtime < c.disk[d].mtime);
      assert c.disk[d].mtime < c.disk[m].mtime;
    }
  }

  // ----- every operation

  /** The state between storing an entry and evicting. */
  function Written(c: Cache, key: string, e: Entry, r: Readings): Cache {
    c.(memory := c.memory[key := e], disk := Save(c.disk, e, r.written), now := r.written)
  }

  lemma WrittenKeepsInv(c: Cache, key: string, data: Data, r: Readings)
    requires Inv(c) && After(c.now, r) && IsValidKey(key)
    ensures Inv(Written(c, key, Fresh(key, data, r), r))
  {
    hide IsValidKey;
    SaveTimed(c.disk, c.now, Fresh(key, data, r), r.written);
  }

  lemma SetEvictsWritten(c: Cache, key: string, data: Data, r: Readings, c': Cache)
    requires SetStep(c, key, data, r, c') && c.enabled && IsValidKey(key)
    ensures var w := Written(c, key, Fresh(key, data, r), r);
            && Evicted(w.limit, w.memory, w.disk, c'.memory, c'.disk)
            && c' == w.(memory := c'.memory, disk := c'.disk)
  {
    hide Evicted, IsValidKey, Save;
  }

  lemma SetKeepsInv(c: Cache, key: string, data: Data, r: Readings, c': Cache)
    requires Inv(c) && After(c.now, r) && SetStep(c, key, data, r, c')
    ensures Inv(c')
  {
    hide Inv, Evicted, IsValidKey, Written;
    if c.enabled && IsValidKey(key) {
      SetEvictsWritten(c, key, data, r, c');
      hide SetStep;
      WrittenKeepsInv(c, key, data, r);
      EvictionKeepsInv(Written(c, key, Fresh(key, data, r), r), c'.memory, c'.disk);
    } else {
      TickKeepsInv(c, r.written);
    }
  }

  lemma DeleteKeepsInv(c: Cache, key: string)
    requires Inv(c)
    ensures Inv(Delete(c, key))
  {
    DropKeepsTimed(c.disk, c.now, key, c.now);
  }

  lemma PurgeKeepsInv(c: Cache, at: int)
    requires Inv(c) && c.now < at
    ensures Inv(c.(disk := Purged(c.disk), now := at))
  {
    var c' := c.(disk := Purged(c.disk), now := at);
    forall k | Readable(c'.disk, k)
      ensures Readable(c.disk, k) && c.disk[k] == c'.disk[k]
    {
    }
    forall k | k in c.memory
      ensures Readable(c'.disk, k) && c'.disk[k] == c.disk[k]
    {
    }
  }

  /** Inclusion and recency survive every operation: hit, promotion, expiry, storing with eviction in
      both tiers, delete, clear and the search for a starting point. */
  lemma StepKeepsInv(c: Cache, op: Op, c': Cache, reply: Reply)
    requires Inv(c) && Step(c, op, c', reply)
    ensures Inv(c')
  {
    hide Inv, Get, SetStep, Delete, Purged, Candidates;
    match op
    case GetOp(key, r) => GetKeepsInv(c, key, r);
    case SetOp(key, data, r) => SetKeepsInv(c, key, data, r, c');
    case DeleteOp(key) => DeleteKeepsInv(c, key);
    case ClearOp => StartsInvariant(c');
    case StartingPointOp(_, _, at) =>
      if c.enabled { PurgeKeepsInv(c, at); } else { TickKeepsInv(c, at); }
  }

  // ----- the memory tier cannot be noticed

  /** The cache with its memory forgotten. */
  function Forget(c: Cache): Cache {
    c.(memory := map[])
  }

  lemma ForgetKeepsInv(c: Cache)
    requires Inv(c)
    ensures Inv(Forget(c))
  {
  }

  lemma GetTransparent(c: Cache, key: string, r: Readings)
    requires Inv(c)
    ensures Get(c, key, r).1 == Get(Forget(c), key, r).1
    ensures Forget(Get(c, key, r).0) == Forget(Get(Forget(c), key, r).0)
  {
    ForgetKeepsInv(c);
    GetIsDiskGet(c, key, r);
    GetIsDiskGet(Forget(c), key, r);
    hide Inv, Get, IsValidKey;
  }

  lemma SurvivingFilesAreUnique(limit: int, disk: map<string, File>, now: int,
                                m: map<string, Entry>, m1: map<string, Entry>, d1: map<string, File>,
                                n: map<string, Entry>, n2: map<string, Entry>, d2: map<string, File>)
    requires Timed(disk, now) && Evicted(limit, m, disk, m1, d1) && Evicted(limit, n, disk, n2, d2)
    ensures d1 == d2
  {
    if limit > 0 {
      NewestIsUnique(FileTimes(disk), d1.Keys, d2.Keys, limit);
    }
  }

  lemma SetTransparent(c: Cache, key: string, data: Data, r: Readings, c1: Cache, c2: Cache)
    requires Inv(c) && After(c.now, r)
    requires SetStep(c, key, data, r, c1) && SetStep(Forget(c), key, data, r, c2)
    ensures Forget(c1) == Forget(c2)
  {
    if c.enabled && IsValidKey(key) {
      WrittenKeepsInv(c, key, data, r);
      hide Evicted, Timed, Save, Included, Recent;
      var e := Fresh(key, data, r);
      SurvivingFilesAreUnique(c.limit, Save(c.disk, e, r.written), r.written,
                              c.memory[key := e], c1.memory, c1.disk, map[key := e], c2.memory, c2.disk);
    }
  }

  /** Among readable files the latest access is unique. */
  lemma AccessIsDistinct(disk: map<string, File>, now: int, j: string, k: string)
    requires Timed(disk, now) && Readable(disk, j) && Readable(disk, k) && j != k
    ensures disk[j].stored.value.lastAccessed != disk[k].stored.value.lastAccessed
  {
    assert disk[j].mtime < disk[k].mtime || disk[k].mtime < disk[j].mtime;
  }

  /** A memory candidate is the same candidate on disk; any other disk candidate is older. */
  lemma MemoryCandidatesComeFirst(c: Cache, tag: Option<string>, prefix: Option<string>, at: int)
    requires Inv(c)
    ensures var m, d := MemoryCandidates(c, tag, prefix, at), DiskCandidates(c, tag, prefix, at);
            && (forall k :: k in m ==> k in d && d[k] == m[k])
            && (forall j, k :: k in m && j in d && j !in m ==> d[j].lastAccessed < m[k].lastAccessed)
            && (forall j, k :: j in d && k in d && j != k ==> d[j].lastAccessed != d[k].lastAccessed)
  {
    hide IsValidKey, Matches, Expired;
    var d := DiskCandidates(c, tag, prefix, at);
    forall j, k | j in d && k in d && j != k
      ensures d[j].lastAccessed != d[k].lastAccessed
    {
      AccessIsDistinct(c.disk, c.now, j, k);
    }
  }

  lemma MostRecentIsUnique(cands: map<string, Entry>, a: Option<string>, b: Option<string>)
    requires forall j, k :: j in cands && k in cands && j != k ==> cands[j].lastAccessed != cands[k].lastAccessed
    requires MostRecent(cands, a) && MostRecent(cands, b)
    ensures a == b
  {
  }

  lemma SubsetHoldsMostRecent(m: map<string, Entry>, d: map<string, Entry>, reply: Option<string>)
    requires m != map[]
    requires forall k :: k in m ==> k in d && d[k] == m[k]
    requires forall j, k :: k in m && j in d && j !in m ==> d[j].lastAccessed < m[k].lastAccessed
    ensures MostRecent(m, reply) <==> MostRecent(d, reply)
  {
    var x :| x in m;
    assert x in d;
    if MostRecent(m, reply) {
      var k :| k in m && reply == Some(m[k].data.content)
               && forall j :: j in m ==> m[j].lastAccessed <= m[k].lastAccessed;
      assert forall j :: j in d ==> d[j].lastAccessed <= d[k].lastAccessed;
    }
    if MostRecent(d, reply) {
      var k :| k in d && reply == Some(d[k].data.content)
               && forall j :: j in d ==> d[j].lastAccessed <= d[k].lastAccessed;
      assert k in m;
    }
  }

  /** Looking in memory first, and on disk only when memory has no candidate, finds the most recently
      accessed candidate of both tiers together. */
  lemma MemoryFirstIsMostRecent(c: Cache, tag: Option<string>, prefix: Option<string>, at: int, reply: Option<string>)
    requires Inv(c)
    ensures MostRecent(Candidates(c, tag, prefix, at), reply)
       <==> MostRecent(MemoryCandidates(c, tag, prefix, at) + DiskCandidates(c, tag, prefix, at), reply)
  {
    var m, d := MemoryCandidates(c, tag, prefix, at), DiskCandidates(c, tag, prefix, at);
    MemoryCandidatesComeFirst(c, tag, prefix, at);
    hide Inv, MemoryCandidates, DiskCandidates, MostRecent;
    assert m + d == d;
    if m != map[] {
      SubsetHoldsMostRecent(m, d, reply);
    }
  }

  lemma ForgottenCandidates(c: Cache, tag: Option<string>, prefix: Option<string>, at: int)
    ensures Candidates(Forget(c), tag, prefix, at) == DiskCandidates(c, tag, prefix, at)
  {
    hide IsValidKey, Matches, Expired, Readable;
    assert MemoryCandidates(Forget(c), tag, prefix, at) == map[];
  }

  lemma SuggestionTransparent(c: Cache, tag: Option<string>, prefix: Option<string>, at: int,
                              a: Option<string>, b: Option<string>)
    requires Inv(c)
    requires MostRecent(Candidates(c, tag, prefix, at), a) && MostRecent(Candidates(Forget(c), tag, prefix, at), b)
    ensures a == b
  {
    ForgottenCandidates(c, tag, prefix, at);
    MemoryFirstIsMostRecent(c, tag, prefix, at, a);
    UnionIsDisk(c, tag, prefix, at);
    hide Inv, MemoryCandidates, DiskCandidates, MostRecent, Candidates;
    MostRecentIsUnique(DiskCandidates(c, tag, prefix, at), a, b);
  }

  lemma UnionIsDisk(c: Cache, tag: Option<string>, prefix: Option<string>, at: int)
    requires Inv(c)
    ensures var m, d := MemoryCandidates(c, tag, prefix, at), DiskCandidates(c, tag, prefix, at);
            && m + d == d
            && (forall j, k :: j in d && k in d && j != k ==> d[j].lastAccessed != d[k].lastAccessed)
  {
    MemoryCandidatesComeFirst(c, tag, prefix, at);
    hide Inv, MemoryCandidates, DiskCandidates;
  }

  /** Whatever the operation, a cache that has lost its memory tier answers the same and leaves the
      same files, counters and clock. Only the count that clear returns can tell. */
  lemma MemoryIsTransparent(c: Cache, op: Op, c1: Cache, a: Reply, c2: Cache, b: Reply)
    requires Inv(c) && Step(c, op, c1, a) && Step(Forget(c), op, c2, b)
    ensures Forget(c1) == Forget(c2)
    ensures op != ClearOp ==> a == b
  {
    hide Inv, Get, SetStep, Candidates, Purged, MostRecent, IsValidKey;
    match op
    case GetOp(key, r) => GetTransparent(c, key, r);
    case SetOp(key, data, r) => SetTransparent(c, key, data, r, c1, c2);
    case DeleteOp(key) =>
    case ClearOp =>
    case StartingPointOp(tag, prefix, at) =>
      if c.enabled {
        SuggestionTransparent(c, tag, prefix, at, a.content, b.content);
      }
  }

  // ----- runs

  ghost predicate Run(c: Cache, ops: seq<Op>, c': Cache, replies: seq<Reply>)
    decreases |ops|
  {
    if ops == [] then c' == c && replies == []
    else |replies| == |ops|
         && exists m: Cache :: Step(c, ops[0], m, replies[0]) && Run(m, ops[1..], c', replies[1..])
  }

  lemma RunCons(c: Cache, op: Op, m: Cache, reply: Reply, ops: seq<Op>, c': Cache, replies: seq<Reply>)
    requires Step(c, op, m, reply) && Run(m, ops, c', replies)
    ensures Run(c, [op] + ops, c', [reply] + replies)
  {
    assert ([op] + ops)[1..] == ops && ([reply] + replies)[1..] == replies;
    hide Step;
  }

  /** The same operations by a cache that forgets its memory before each of them. */
  ghost predicate ForgetfulRun(c: Cache, ops: seq<Op>, c': Cache, replies: seq<Reply>)
    decreases |ops|
  {
    if ops == [] then c' == c && replies == []
    else |replies| == |ops|
         && exists m: Cache :: Step(Forget(c), ops[0], m, replies[0]) && ForgetfulRun(m, ops[1..], c', replies[1..])
  }

  /** The invariant holds in every state that is reachable from an invariant state, or from a new process
      with an empty memory over well-timed files. */
  lemma {:induction false} RunKeepsInv(c: Cache, ops: seq<Op>, c': Cache, replies: seq<Reply>)
    requires Inv(c) || (c.memory == map[] && Timed(c.disk, c.now))
    requires Run(c, ops, c', replies)
    ensures Inv(c')
    decreases |ops|
  {
    StartsInvariant(c);
    if ops != [] {
      hide Inv, Step;
      var m: Cache :| Step(c, ops[0], m, replies[0]) && Run(m, ops[1..], c', replies[1..]);
      StepKeepsInv(c, ops[0], m, replies[0]);
      RunKeepsInv(m, ops[1..], c', replies[1..]);
    }
  }

  lemma ForgetfulSet(c: Cache, key: string, data: Data, r: Readings, c1: Cache) returns (c2: Cache)
    requires SetStep(c, key, data, r, c1)
    ensures SetStep(Forget(c), key, data, r, c2)
  {
    var d := Forget(c);
    if c.enabled && IsValidKey(key) {
      var e := Fresh(key, data, r);
      var memory := d.memory[key := e];
      c2 := d.(memory := memory, disk := c1.disk, now := r.written);
      assert AccessTimes(memory).Keys == memory.Keys == {key};
      assert |AccessTimes(memory)| == |AccessTimes(memory).Keys| == 1;
    } else {
      c2 := d.(now := r.written);
    }
  }

  /** Whatever the cache can do, a cache that has lost its memory can do. */
  lemma ForgetfulStep(c: Cache, op: Op, c1: Cache, a: Reply) returns (c2: Cache, b: Reply)
    requires Inv(c) && Step(c, op, c1, a)
    ensures Step(Forget(c), op, c2, b)
  {
    hide Inv, Get, SetStep, Candidates, Purged, MostRecent, IsValidKey;
    var d := Forget(c);
    match op
    case GetOp(key, r) => c2, b := Get(d, key, r).0, Got(Get(d, key, r).1);
    case SetOp(key, data, r) =>
      c2 := ForgetfulSet(c, key, data, r, c1);
      b := a;
    case DeleteOp(key) => c2, b := Delete(d, key), Done;
    case ClearOp => c2, b := Clear(d).0, Cleared(Clear(d).1);
    case StartingPointOp(tag, prefix, at) =>
      c2, b := d.(disk := c1.disk, now := at), a;
      if c.enabled {
        SuggestionIsForgetful(c, tag, prefix, at, a.content);
      }
  }

  lemma SuggestionIsForgetful(c: Cache, tag: Option<string>, prefix: Option<string>, at: int, a: Option<string>)
    requires Inv(c) && MostRecent(Candidates(c, tag, prefix, at), a)
    ensures MostRecent(Candidates(Forget(c), tag, prefix, at), a)
  {
    ForgottenCandidates(c, tag, prefix, at);
    MemoryFirstIsMostRecent(c, tag, prefix, at, a);
    UnionIsDisk(c, tag, prefix, at);
    hide Inv, MemoryCandidates, DiskCandidates, MostRecent, Candidates;
  }

  lemma {:induction false} ForgetfulRunExists(c: Cache, d: Cache, ops: seq<Op>, c': Cache, a: seq<Reply>)
    returns (d': Cache, b: seq<Reply>)
    requires Inv(c) && Forget(c) == Forget(d) && Run(c, ops, c', a)
    ensures ForgetfulRun(d, ops, d', b)
    decreases |ops|
  {
    d', b := d, [];
    if ops != [] {
      hide Inv, Step;
      var m: Cache :| Step(c, ops[0], m, a[0]) && Run(m, ops[1..], c', a[1..]);
      var n, reply := ForgetfulStep(c, ops[0], m, a[0]);
      MemoryIsTransparent(c, ops[0], m, a[0], n, reply);
      StepKeepsInv(c, ops[0], m, a[0]);
      d', b := ForgetfulRunExists(m, n, ops[1..], c', a[1..]);
      ForgetfulCons(d, ops, n, reply, d', b);
      b := [reply] + b;
    }
  }

  lemma ForgetfulCons(c: Cache, ops: seq<Op>, m: Cache, reply: Reply, c': Cache, replies: seq<Reply>)
    requires ops != [] && Step(Forget(c), ops[0], m, reply) && ForgetfulRun(m, ops[1..], c', replies)
    ensures ForgetfulRun(c, ops, c', [reply] + replies)
  {
    assert ([reply] + replies)[1..] == replies;
    hide Step;
  }

  lemma {:induction false} ForgetfulRunsAgree(c: Cache, d: Cache, ops: seq<Op>,
                                              c': Cache, a: seq<Reply>, d': Cache, b: seq<Reply>)
    requires Inv(c) && Forget(c) == Forget(d)
    requires Run(c, ops, c', a) && ForgetfulRun(d, ops, d', b)
    ensures Forget(c') == Forget(d') && |a| == |b| == |ops|
    ensures forall i :: 0 <= i < |ops| && ops[i] != ClearOp ==> a[i] == b[i]
    decreases |ops|
  {
    if ops != [] {
      hide Inv, Step;
      var m: Cache :| Step(c, ops[0], m, a[0]) && Run(m, ops[1..], c', a[1..]);
      var n: Cache :| Step(Forget(d), ops[0], n, b[0]) && ForgetfulRun(n, ops[1..], d', b[1..]);
      MemoryIsTransparent(c, ops[0], m, a[0], n, b[0]);
      StepKeepsInv(c, ops[0], m, a[0]);
      ForgetfulRunsAgree(m, n, ops[1..], c', a[1..], d', b[1..]);
      forall i | 0 <= i < |ops| && ops[i] != ClearOp
        ensures a[i] == b[i]
      {
        if i > 0 {
          assert ops[1..][i - 1] == ops[i] && a[1..][i - 1] == a[i] && b[1..][i - 1] == b[i];
        }
      }
    }
  }

  /** Over every run the two-tier cache is observationally the one-tier cache: a cache that forgets its
      memory before each operation can do the same run, and whenever it does, it gives the same replies
      and ends with the same files, counters and clock. */
  lemma RunsAlike(c: Cache, ops: seq<Op>, c': Cache, a: seq<Reply>)
    requires Inv(c) && Run(c, ops, c', a)
    ensures exists d': Cache, b: seq<Reply> :: ForgetfulRun(c, ops, d', b)
    ensures forall d': Cache, b: seq<Reply> :: ForgetfulRun(c, ops, d', b) ==>
              && Forget(c') == Forget(d') && |a| == |b| == |ops|
              && forall i :: 0 <= i < |ops| && ops[i] != ClearOp ==> a[i] == b[i]
  {
    hide Inv, Run, ForgetfulRun;
    var d, b := ForgetfulRunExists(c, c, ops, c', a);
    forall d': Cache, b: seq<Reply> | ForgetfulRun(c, ops, d', b)
      ensures Forget(c') == Forget(d') && |a| == |b| == |ops|
      ensures forall i :: 0 <= i < |ops| && ops[i] != ClearOp ==> a[i] == b[i]
    {
      ForgetfulRunsAgree(c, c, ops, c', a, d', b);
    }
  }

  // ----- what a hit returns

  datatype Stamp = Stamp(data: Data, createdAt: int)

  /** What callers did: the latest set of each key since it was last deleted or cleared, and the
      lookups that counted since the last clear. */
  datatype Past = Past(latest: map<string, Stamp>, lookups: nat)

  function Remember(enabled: bool, p: Past, op: Op): Past {
    match op
    case GetOp(key, _) => if enabled && IsValidKey(key) then p.(lookups := p.lookups + 1) else p
    case SetOp(key, data, r) =>
      if enabled && IsValidKey(key) then p.(latest := p.latest[key := Stamp(data, r.checked)]) else p
    case DeleteOp(key) => if IsValidKey(key) then p.(latest := p.latest - {key}) else p
    case ClearOp => Past(map[], 0)
    case StartingPointOp(_, _, _) => p
  }

  /** The cache agrees with what callers did. */
  ghost predicate Faithful(c: Cache, p: Past) {
    && c.hits + c.misses == p.lookups
    && forall k :: Readable(c.disk, k) ==>
         var e := c.disk[k].stored.value; k in p.latest && p.latest[k] == Stamp(e.data, e.createdAt)
  }

  lemma GetStaysFaithful(c: Cache, p: Past, key: string, r: Readings)
    requires Inv(c) && Faithful(c, p)
    ensures Faithful(Get(c, key, r).0, Remember(c.enabled, p, GetOp(key, r)))
  {
    GetIsDiskGet(c, key, r);
    hide Inv, Get, IsValidKey, Expired;
    var c' := DiskGet(c, key, r).0;
    forall k | Readable(c'.disk, k)
      ensures var e := c'.disk[k].stored.value; k in p.latest && p.latest[k] == Stamp(e.data, e.createdAt)
    {
      assert Readable(c.disk, k);
    }
  }

  lemma SetStaysFaithful(c: Cache, p: Past, key: string, data: Data, r: Readings, c': Cache)
    requires Faithful(c, p) && SetStep(c, key, data, r, c')
    ensures Faithful(c', Remember(c.enabled, p, SetOp(key, data, r)))
  {
    if c.enabled && IsValidKey(key) {
      var d := Save(c.disk, Fresh(key, data, r), r.written);
      forall k | Readable(c'.disk, k)
        ensures k == key || Readable(c.disk, k)
        ensures c'.disk[k] == d[k]
      {
      }
    }
  }

  lemma FewerFilesStayFaithful(c: Cache, p: Past, c': Cache)
    requires Faithful(c, p) && c'.hits == c.hits && c'.misses == c.misses
    requires forall k :: k in c'.disk ==> k in c.disk && c'.disk[k] == c.disk[k]
    ensures Faithful(c', p)
  {
    forall k | Readable(c'.disk, k)
      ensures Readable(c.disk, k)
    {
    }
  }

  /** Every operation keeps the cache in agreement with what callers did. */
  lemma StepStaysFaithful(c: Cache, p: Past, op: Op, c': Cache, reply: Reply)
    requires Inv(c) && Faithful(c, p) && Step(c, op, c', reply)
    ensures Faithful(c', Remember(c.enabled, p, op))
  {
    hide Inv, Get, SetStep, IsValidKey, MostRecent, Candidates;
    match op
    case GetOp(key, r) => GetStaysFaithful(c, p, key, r);
    case SetOp(key, data, r) => SetStaysFaithful(c, p, key, data, r, c');
    case DeleteOp(key) => FewerFilesStayFaithful(c, p, c');
    case ClearOp =>
    case StartingPointOp(_, _, _) => FewerFilesStayFaithful(c, p, c');
  }

  /** A hit returns the content of the latest set of that key since it was last deleted or cleared,
      with the creation time of that set, so no older than the time to live allows; hits never renew
      it. */
  lemma HitIsLatest(c: Cache, p: Past, key: string, r: Readings)
    requires Inv(c) && Faithful(c, p)
    ensures var reply := Get(c, key, r).1;
            reply.Some? ==>
              var e := reply.value;
              && e.key == key && key in p.latest && p.latest[key] == Stamp(e.data, e.createdAt)
              && (c.ttl > 0 ==> r.checked - e.createdAt <= c.ttl)
  {
    GetIsDiskGet(c, key, r);
    hide Inv, Get, IsValidKey;
  }

  /** And it hits exactly when the key has a readable file that has not expired. */
  lemma HitIffLive(c: Cache, key: string, r: Readings)
    requires Inv(c)
    ensures Get(c, key, r).1.Some?
       <==> c.enabled && IsValidKey(key) && Readable(c.disk, key)
            && !Expired(c.disk[key].stored.value, c.ttl, r.checked)
  {
    GetIsDiskGet(c, key, r);
    hide Inv, Get, IsValidKey;
  }

  // ----- capacity

  /** Storing with a positive limit leaves at most that many entries in either tier, and the entry
      just stored is among them. */
  lemma SetWithinLimit(c: Cache, key: string, data: Data, r: Readings, c': Cache)
    requires Inv(c) && After(c.now, r) && SetStep(c, key, data, r, c')
    requires c.enabled && IsValidKey(key) && c.limit > 0
    ensures |c'.memory| <= c.limit && |c'.disk| <= c.limit
    ensures key in c'.memory && key in c'.disk && c'.memory[key] == Fresh(key, data, r)
  {
    FreshIsLatest(c, key, Fresh(key, data, r), r);
    hide Inv, IsValidKey, AccessTimes, FileTimes, Save, Newest;
    var w := Written(c, key, Fresh(key, data, r), r);
    NewestSize(AccessTimes(w.memory), c'.memory.Keys, c.limit);
    NewestSize(FileTimes(w.disk), c'.disk.Keys, c.limit);
    assert |c'.memory.Keys| == |c'.memory| && |c'.disk.Keys| == |c'.disk|;
    NewestKeepsLatest(AccessTimes(w.memory), c'.memory.Keys, c.limit, key);
    NewestKeepsLatest(FileTimes(w.disk), c'.disk.Keys, c.limit, key);
  }

  lemma NewestSize(times: map<string, int>, kept: set<string>, n: nat)
    requires Newest(times, kept, n)
    ensures |kept| <= n
  {
  }

  lemma FreshIsLatest(c: Cache, key: string, e: Entry, r: Readings)
    requires Inv(c) && After(c.now, r) && IsValidKey(key) && e.key == key && e.lastAccessed == r.touched
    ensures var w := Written(c, key, e, r);
            var access, files := AccessTimes(w.memory), FileTimes(w.disk);
            && key in access && (forall k :: k in access && k != key ==> access[k] < access[key])
            && key in files && (forall k :: k in files && k != key ==> files[k] < files[key])
  {
  }

  /** The strictly latest key is always kept. */
  lemma NewestKeepsLatest(times: map<string, int>, kept: set<string>, n: nat, latest: string)
    requires Newest(times, kept, n) && n > 0 && latest in times
    requires forall k :: k in times && k != latest ==> times[k] < times[latest]
    ensures latest in kept
  {
    assert latest in times.Keys;
  }

  /** If the disk is within a positive limit it stays so, and memory, which the disk includes, is too:
      in every reachable state, although promotion on a hit enforces nothing. */
  lemma StaysWithinLimit(c: Cache, op: Op, c': Cache, reply: Reply)
    requires Inv(c) && Step(c, op, c', reply) && c.limit > 0 && |c.disk| <= c.limit
    ensures |c'.disk| <= c.limit && |c'.memory| <= |c'.disk|
  {
    StepKeepsInv(c, op, c', reply);
    MemoryIsSmaller(c');
    if op.SetOp? && c.enabled && IsValidKey(op.key) {
      SetWithinLimit(c, op.key, op.data, op.r, c');
    } else {
      StepAddsNoFile(c, op, c', reply);
      FilesWithinLimit(c, c');
    }
    hide Inv, Get, SetStep, MostRecent, Candidates;
  }

  lemma StepAddsNoFile(c: Cache, op: Op, c': Cache, reply: Reply)
    requires Inv(c) && Step(c, op, c', reply)
    requires !(op.SetOp? && c.enabled && IsValidKey(op.key))
    ensures c'.disk.Keys <= c.disk.Keys
  {
    hide Inv, IsValidKey, MostRecent, Candidates;
    if op.GetOp? {
      GetAddsNoFile(c, op.key, op.r);
      hide Get;
    }
  }

  lemma MemoryIsSmaller(c: Cache)
    requires Inv(c)
    ensures |c.memory| <= |c.disk|
  {
    assert c.memory.Keys <= c.disk.Keys;
    SubsetCardinality(c.memory.Keys, c.disk.Keys);
    assert |c.memory.Keys| == |c.memory| && |c.disk.Keys| == |c.disk|;
  }

  lemma FilesWithinLimit(c: Cache, c': Cache)
    requires c'.disk.Keys <= c.disk.Keys
    ensures |c'.disk| <= |c.disk|
  {
    SubsetCardinality(c'.disk.Keys, c.disk.Keys);
    assert |c'.disk.Keys| == |c'.disk| && |c.disk.Keys| == |c.disk|;
  }

  // ----- whole runs

  function RememberAll(enabled: bool, p: Past, ops: seq<Op>): Past
    decreases |ops|
  {
    if ops == [] then p else RememberAll(enabled, Remember(enabled, p, ops[0]), ops[1..])
  }

  lemma StepKeepsSettings(c: Cache, op: Op, c': Cache, reply: Reply)
    requires Step(c, op, c', reply)
    ensures c'.enabled == c.enabled && c'.ttl == c.ttl && c'.limit == c.limit
  {
    hide IsValidKey, MostRecent, Candidates;
  }

  /** In every reachable state the counters add up to the lookups since the last clear, every entry on
      disk is the latest set of its key, and both tiers stay within a limit that the disk starts in. */
  lemma {:induction false} RunStaysFaithful(c: Cache, p: Past, ops: seq<Op>, c': Cache, replies: seq<Reply>)
    requires Inv(c) && Faithful(c, p) && Run(c, ops, c', replies)
    ensures Faithful(c', RememberAll(c.enabled, p, ops))
    ensures c.limit > 0 && |c.disk| <= c.limit ==> |c'.memory| <= |c'.disk| <= c.limit
    decreases |ops|
  {
    if ops == [] {
      MemoryIsSmaller(c);
    } else {
      hide Inv, Step, Faithful, Remember;
      var m: Cache :| Step(c, ops[0], m, replies[0]) && Run(m, ops[1..], c', replies[1..]);
      StepKeepsInv(c, ops[0], m, replies[0]);
      StepStaysFaithful(c, p, ops[0], m, replies[0]);
      StepKeepsSettings(c, ops[0], m, replies[0]);
      if c.limit > 0 && |c.disk| <= c.limit {
        StaysWithinLimit(c, ops[0], m, replies[0]);
      }
      RunStaysFaithful(m, Remember(c.enabled, p, ops[0]), ops[1..], c', replies[1..]);
    }
  }
}
