/** What a lookup may rely on over whole runs: the least recently used entries go first, and none goes
    before as many other keys as the limit have been used since. */
module CacheLru {
  import opened Wrappers
  import opened CacheSpec
  import opened CacheTheorems

  // ----- uses of a key

  /** The key that an operation uses: stores, or finds. */
  function UsedBy(enabled: bool, op: Op, reply: Reply): Option<string> {
    match op
    case GetOp(key, _) => if reply.Got? && reply.entry.Some? then Some(key) else None
    case SetOp(key, _, _) => if enabled && IsValidKey(key) then Some(key) else None
    case _ => None
  }

  function UsedKeys(enabled: bool, ops: seq<Op>, replies: seq<Reply>): set<string>
    requires |ops| == |replies|
  {
    if ops == [] then {}
    else
      var x := UsedBy(enabled, ops[0], replies[0]);
      (if x.Some? then {x.value} else {}) + UsedKeys(enabled, ops[1..], replies[1..])
  }

  /** For each stored key, the keys that were used since it was last used itself. */
  type Since = map<string, set<string>>

  function Use(since: Since, x: string): Since {
    map k | k in since.Keys + {x} :: if k == x then {} else since[k] + {x}
  }

  function Track(enabled: bool, since: Since, op: Op, reply: Reply): Since {
    var x := UsedBy(enabled, op, reply);
    if x.Some? then Use(since, x.value)
    else match op
      case DeleteOp(key) => if IsValidKey(key) then since - {key} else since
      case ClearOp => map[]
      case _ => since
  }

  function TrackAll(enabled: bool, since: Since, ops: seq<Op>, replies: seq<Reply>): Since
    requires |ops| == |replies|
    decreases |ops|
  {
    if ops == [] then since
    else TrackAll(enabled, Track(enabled, since, ops[0], replies[0]), ops[1..], replies[1..])
  }

  /** Said without the recursion: the keys used after the last use of k, or, if k was not used, added to
      those from before. */
  lemma {:induction false} TrackMeans(enabled: bool, since: Since, ops: seq<Op>, replies: seq<Reply>, k: string)
    requires |ops| == |replies| && k in TrackAll(enabled, since, ops, replies)
    ensures var now := TrackAll(enabled, since, ops, replies)[k];
            || (k in since && k !in UsedKeys(enabled, ops, replies)
                && now == since[k] + UsedKeys(enabled, ops, replies))
            || (exists l ::
                  && 0 <= l < |ops| && UsedBy(enabled, ops[l], replies[l]) == Some(k)
                  && k !in UsedKeys(enabled, ops[l + 1..], replies[l + 1..])
                  && now == UsedKeys(enabled, ops[l + 1..], replies[l + 1..]))
    decreases |ops|
  {
    if ops != [] {
      var op, reply := ops[0], replies[0];
      var x := UsedBy(enabled, op, reply);
      var used := UsedKeys(enabled, ops[1..], replies[1..]);
      var next := Track(enabled, since, op, reply);
      TrackMeans(enabled, next, ops[1..], replies[1..], k);
      var now := TrackAll(enabled, since, ops, replies)[k];
      if k in next && k !in used && now == next[k] + used {
        if x == Some(k) {
          assert UsedBy(enabled, ops[0], replies[0]) == Some(k) && now == used;
        } else {
          assert k in since;
        }
      } else {
        var l :| 0 <= l < |ops| - 1 && UsedBy(enabled, ops[1..][l], replies[1..][l]) == Some(k)
                 && k !in UsedKeys(enabled, ops[1..][l + 1..], replies[1..][l + 1..])
                 && now == UsedKeys(enabled, ops[1..][l + 1..], replies[1..][l + 1..]);
        assert ops[1..][l + 1..] == ops[l + 2..] && replies[1..][l + 1..] == replies[l + 2..];
        assert UsedBy(enabled, ops[l + 1], replies[l + 1]) == Some(k);
      }
    }
  }

  // ----- what is kept

  predicate Outlived(s: Stamp, ttl: int, at: int) {
    ttl > 0 && at - s.createdAt > ttl
  }

  /** The key is readable, and only keys used since its own last use have newer files. */
  ghost predicate Retained(c: Cache, key: string, used: set<string>) {
    Readable(c.disk, key) && forall j :: j in c.disk && c.disk[j].mtime > c.disk[key].mtime ==> j in used
  }

  /** As many other keys as a positive limit have been used. */
  predicate Crowded(limit: int, used: set<string>) {
    limit > 0 && |used| >= limit
  }

  ghost predicate KeptOrGone(c: Cache, p: Past, since: Since, k: string)
    requires k in p.latest && k in since
  {
    Retained(c, k, since[k]) || Outlived(p.latest[k], c.ttl, c.now) || Crowded(c.limit, since[k])
  }

  /** Everything callers have stored is still there, has outlived its time, or was crowded out. */
  ghost predicate Complete(c: Cache, p: Past, since: Since) {
    forall k :: k in p.latest ==> IsValidKey(k) && k in since && KeptOrGone(c, p, since, k)
  }

  lemma UsedGrows(limit: int, used: set<string>, x: string)
    requires Crowded(limit, used)
    ensures Crowded(limit, used + {x})
  {
    SubsetCardinality(used, used + {x});
  }

  /** After a use of x, whose file is then the newest, whatever was kept or gone is so. */
  lemma UseKeeps(c: Cache, p: Past, since: Since, k: string, x: string, c': Cache, p': Past)
    requires k in p.latest && k in since && k != x && k in p'.latest && p'.latest[k] == p.latest[k]
    requires KeptOrGone(c, p, since, k) && c'.ttl == c.ttl && c'.limit == c.limit && c'.now >= c.now
    requires forall j :: j in c.disk && j != x ==> j in c'.disk && c'.disk[j] == c.disk[j]
    requires forall j :: j in c'.disk && j != x ==> j in c.disk
    ensures KeptOrGone(c', p', Use(since, x), k)
  {
    if Crowded(c.limit, since[k]) {
      UsedGrows(c.limit, since[k], x);
    }
  }

  /** A use of key writes its file anew. */
  ghost predicate Rewrites(c: Cache, p: Past, key: string, c': Cache, p': Past) {
    && IsValidKey(key) && Readable(c'.disk, key)
    && c'.disk == c.disk[key := c'.disk[key]] && c'.disk[key].mtime > c.now
    && c'.ttl == c.ttl && c'.limit == c.limit && c'.now >= c.now
    && key in p'.latest && p'.latest == p.latest[key := p'.latest[key]]
  }

  lemma UseStaysComplete(c: Cache, p: Past, since: Since, key: string, c': Cache, p': Past)
    requires Timed(c.disk, c.now) && Complete(c, p, since) && Rewrites(c, p, key, c', p')
    ensures Complete(c', p', Use(since, key))
  {
    hide IsValidKey;
    forall k | k in p'.latest
      ensures IsValidKey(k) && k in Use(since, key) && KeptOrGone(c', p', Use(since, key), k)
    {
      if k == key {
        assert Retained(c', k, {});
      } else {
        assert k in p.latest && KeptOrGone(c, p, since, k);
        UseKeeps(c, p, since, k, key, c', p');
      }
    }
  }

  lemma HitStaysComplete(c: Cache, p: Past, since: Since, key: string, r: Readings)
    requires Inv(c) && Faithful(c, p) && Complete(c, p, since) && After(c.now, r)
    requires IsValidKey(key) && Readable(c.disk, key)
    ensures Complete(Hit(c, key, c.disk[key].stored.value, r).0, p, Use(since, key))
  {
    var c' := Hit(c, key, c.disk[key].stored.value, r).0;
    assert Rewrites(c, p, key, c', p) by {
      hide IsValidKey;
      assert p.latest == p.latest[key := p.latest[key]];
    }
    hide Complete, Rewrites, IsValidKey, Timed;
    UseStaysComplete(c, p, since, key, c', p);
  }

  /** Dropping files other than k, or k itself once it has outlived its time, keeps it so. */
  lemma FewerFilesStayComplete(c: Cache, p: Past, since: Since, c': Cache)
    requires Complete(c, p, since) && c'.ttl == c.ttl && c'.limit == c.limit && c'.now >= c.now
    requires forall j :: j in c'.disk ==> j in c.disk && c'.disk[j] == c.disk[j]
    requires forall k :: k in p.latest && Readable(c.disk, k) ==> k in c'.disk || Outlived(p.latest[k], c.ttl, c'.now)
    ensures Complete(c', p, since)
  {
    hide IsValidKey;
    forall k | k in p.latest
      ensures KeptOrGone(c', p, since, k)
    {
      assert KeptOrGone(c, p, since, k);
    }
  }

  lemma GetStaysComplete(c: Cache, p: Past, since: Since, key: string, r: Readings)
    requires Inv(c) && Faithful(c, p) && Complete(c, p, since) && After(c.now, r)
    ensures var (c', entry) := Get(c, key, r);
            Complete(c', p, if entry.Some? then Use(since, key) else since)
  {
    GetIsDiskGet(c, key, r);
    hide Inv, Get, IsValidKey, Complete;
    var c' := DiskGet(c, key, r).0;
    if c.enabled && IsValidKey(key) && Readable(c.disk, key) && !Expired(c.disk[key].stored.value, c.ttl, r.checked) {
      HitStaysComplete(c, p, since, key, r);
    } else {
      FewerFilesStayComplete(c, p, since, c');
    }
  }

  // ----- storing

  /** Eviction drops a file only when as many newer ones as the limit are kept. */
  lemma EvictedIsCrowded(limit: int, disk: map<string, File>, disk': map<string, File>, k: string, used: set<string>)
    requires limit > 0 && Newest(FileTimes(disk), disk'.Keys, limit) && k in disk && k !in disk'
    requires forall i, j :: i in disk && j in disk && i != j ==> disk[i].mtime != disk[j].mtime
    requires forall j :: j in disk && disk[j].mtime > disk[k].mtime ==> j in used
    ensures Crowded(limit, used)
  {
    var times, kept := FileTimes(disk), disk'.Keys;
    forall j | j in kept
      ensures j in used
    {
      assert times[k] <= times[j];
      assert disk[j].mtime != disk[k].mtime;
    }
    SubsetCardinality(kept, used);
    if |kept| < limit {
      assert |times.Keys| == |times|;
      CardinalityLess(kept, times.Keys, k);
    }
  }

  lemma EvictionStaysComplete(w: Cache, p: Past, since: Since, c': Cache)
    requires Inv(w) && Complete(w, p, since) && Evicted(w.limit, w.memory, w.disk, c'.memory, c'.disk)
    requires c' == w.(memory := c'.memory, disk := c'.disk)
    ensures Complete(c', p, since)
  {
    hide IsValidKey;
    forall k | k in p.latest
      ensures KeptOrGone(c', p, since, k)
    {
      assert KeptOrGone(w, p, since, k);
      if Retained(w, k, since[k]) && w.limit > 0 && k !in c'.disk {
        EvictedIsCrowded(w.limit, w.disk, c'.disk, k, since[k]);
      }
    }
  }

  lemma WrittenStaysComplete(c: Cache, p: Past, since: Since, key: string, data: Data, r: Readings)
    requires Inv(c) && Complete(c, p, since) && After(c.now, r) && IsValidKey(key)
    ensures Complete(Written(c, key, Fresh(key, data, r), r),
                     p.(latest := p.latest[key := Stamp(data, r.checked)]), Use(since, key))
  {
    hide IsValidKey, Complete, Timed;
    var w, p' := Written(c, key, Fresh(key, data, r), r), p.(latest := p.latest[key := Stamp(data, r.checked)]);
    assert Rewrites(c, p, key, w, p');
    UseStaysComplete(c, p, since, key, w, p');
  }

  lemma SetStaysComplete(c: Cache, p: Past, since: Since, key: string, data: Data, r: Readings, c': Cache)
    requires Inv(c) && Complete(c, p, since) && After(c.now, r) && SetStep(c, key, data, r, c')
    requires c.enabled && IsValidKey(key)
    ensures Complete(c', p.(latest := p.latest[key := Stamp(data, r.checked)]), Use(since, key))
  {
    WrittenKeepsInv(c, key, data, r);
    WrittenStaysComplete(c, p, since, key, data, r);
    SetEvictsWritten(c, key, data, r, c');
    hide Inv, Complete, SetStep, Evicted, IsValidKey;
    var w := Written(c, key, Fresh(key, data, r), r);
    EvictionStaysComplete(w, p.(latest := p.latest[key := Stamp(data, r.checked)]), Use(since, key), c');
  }

  // ----- every operation

  lemma DeleteStaysComplete(c: Cache, p: Past, since: Since, key: string)
    requires Complete(c, p, since) && IsValidKey(key)
    ensures Complete(Delete(c, key), p.(latest := p.latest - {key}), since - {key})
  {
    hide IsValidKey;
    var c' := Delete(c, key);
    forall k | k in p.latest && k != key
      ensures KeptOrGone(c', p.(latest := p.latest - {key}), since - {key}, k)
    {
      assert KeptOrGone(c, p, since, k);
    }
  }

  lemma PurgeStaysComplete(c: Cache, p: Past, since: Since, at: int)
    requires Complete(c, p, since) && c.now < at
    ensures Complete(c.(disk := Purged(c.disk), now := at), p, since)
  {
    FewerFilesStayComplete(c, p, since, c.(disk := Purged(c.disk), now := at));
  }

  /** Nothing that was stored gets lost before it has outlived its time or as many other keys as the limit
      have been used since its own last use. */
  lemma StepStaysComplete(c: Cache, p: Past, since: Since, op: Op, c': Cache, reply: Reply)
    requires Inv(c) && Faithful(c, p) && Complete(c, p, since) && Step(c, op, c', reply)
    ensures Complete(c', Remember(c.enabled, p, op), Track(c.enabled, since, op, reply))
  {
    hide Inv, Get, SetStep, IsValidKey, MostRecent, Candidates, Purged, Complete, Faithful;
    match op
    case GetOp(key, r) =>
      GetStaysComplete(c, p, since, key, r);
      LookupsAside(c', p, Track(c.enabled, since, op, reply), Remember(c.enabled, p, op));
    case SetOp(key, data, r) =>
      if c.enabled && IsValidKey(key) {
        SetStaysComplete(c, p, since, key, data, r, c');
      } else {
        DisabledSetStaysComplete(c, p, since, key, data, r, c');
      }
    case DeleteOp(key) =>
      if IsValidKey(key) {
        DeleteStaysComplete(c, p, since, key);
      }
    case ClearOp => NothingIsComplete(c');
    case StartingPointOp(_, _, at) =>
      PurgeStaysComplete(c, p, since, at);
      FewerFilesStayComplete(c, p, since, c.(now := at));
  }

  lemma DisabledSetStaysComplete(c: Cache, p: Past, since: Since, key: string, data: Data, r: Readings, c': Cache)
    requires Complete(c, p, since) && After(c.now, r) && SetStep(c, key, data, r, c')
    requires !(c.enabled && IsValidKey(key))
    ensures Complete(c', p, since)
  {
    FewerFilesStayComplete(c, p, since, c');
  }

  lemma LookupsAside(c: Cache, p: Past, since: Since, p': Past)
    requires p'.latest == p.latest
    ensures Complete(c, p, since) <==> Complete(c, p', since)
  {
    assert p' == p.(lookups := p'.lookups);
    assert forall k :: k in p.latest && k in since ==> KeptOrGone(c, p, since, k) == KeptOrGone(c, p', since, k);
    hide IsValidKey, KeptOrGone;
  }

  lemma NothingIsComplete(c: Cache)
    ensures Complete(c, Past(map[], 0), map[])
  {
  }

  // ----- lookups over whole runs

  /** Reply i of a run, a lookup: a hit on the latest set of its key that has not outlived its time. Or a
      miss: the cache is off, the key was not set since its last delete or clear, its set has outlived its
      time, or at least as many other keys as a positive limit were used since its own last use. */
  ghost predicate Answers(c: Cache, p: Past, since: Since, ops: seq<Op>, replies: seq<Reply>, i: nat)
    requires |replies| == |ops| && i < |ops| && ops[i].GetOp?
  {
    var key, r := ops[i].key, ops[i].r;
    var past := RememberAll(c.enabled, p, ops[..i]);
    var used := TrackAll(c.enabled, since, ops[..i], replies[..i]);
    && replies[i].Got?
    && match replies[i].entry
       case Some(e) =>
         && c.enabled && e.key == key && key in past.latest && past.latest[key] == Stamp(e.data, e.createdAt)
         && !Outlived(past.latest[key], c.ttl, r.checked)
       case None =>
         || !c.enabled || key !in past.latest || Outlived(past.latest[key], c.ttl, r.checked)
         || (key in used && Crowded(c.limit, used[key]))
  }

  lemma FirstAnswer(c: Cache, p: Past, since: Since, ops: seq<Op>, m: Cache, replies: seq<Reply>)
    requires Inv(c) && Faithful(c, p) && Complete(c, p, since) && |replies| == |ops|
    requires ops != [] && ops[0].GetOp? && Step(c, ops[0], m, replies[0])
    ensures Answers(c, p, since, ops, replies, 0)
  {
    var key, r := ops[0].key, ops[0].r;
    HitIsLatest(c, p, key, r);
    HitIffLive(c, key, r);
    assert ops[..0] == [] && replies[..0] == [];
    hide Inv, IsValidKey, Get;
    if key in p.latest && Readable(c.disk, key) {
      assert p.latest[key] == Stamp(c.disk[key].stored.value.data, c.disk[key].stored.value.createdAt);
    }
    assert key in p.latest ==> KeptOrGone(c, p, since, key);
  }

  /** Over every run every lookup answers like that: the cache is a map whose entries end with their time to
      live, or by eviction, and that no sooner than the limit promises. */
  lemma {:induction false} EveryLookupAnswers(c: Cache, p: Past, since: Since, ops: seq<Op>, c': Cache,
                                              replies: seq<Reply>, i: nat)
    requires Inv(c) && Faithful(c, p) && Complete(c, p, since)
    requires Run(c, ops, c', replies) && i < |ops| && ops[i].GetOp?
    ensures |replies| == |ops| && Answers(c, p, since, ops, replies, i)
    decreases |ops|
  {
    hide Inv, Step, Faithful, Remember, Complete, Track;
    var m: Cache :| Step(c, ops[0], m, replies[0]) && Run(m, ops[1..], c', replies[1..]);
    if i == 0 {
      FirstAnswer(c, p, since, ops, m, replies);
    } else {
      StepKeepsInv(c, ops[0], m, replies[0]);
      StepStaysFaithful(c, p, ops[0], m, replies[0]);
      StepKeepsSettings(c, ops[0], m, replies[0]);
      StepStaysComplete(c, p, since, ops[0], m, replies[0]);
      EveryLookupAnswers(m, Remember(c.enabled, p, ops[0]), Track(c.enabled, since, ops[0], replies[0]),
                         ops[1..], c', replies[1..], i - 1);
      assert ops[..i][1..] == ops[1..][..i - 1] && ops[..i][0] == ops[0];
      assert replies[..i][1..] == replies[1..][..i - 1] && replies[..i][0] == replies[0];
    }
  }

  /** A new cache over an empty directory satisfies all of these. */
  lemma EmptyStart(c: Cache)
    requires c.memory == map[] && c.disk == map[] && c.hits == 0 && c.misses == 0
    ensures Inv(c) && Faithful(c, Past(map[], 0)) && Complete(c, Past(map[], 0), map[])
  {
  }
}
