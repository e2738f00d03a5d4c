/** The cache as it is meant: one list of keys, least recently used first, cut to a limit from the front,
    with a time to live. It has no tiers, no clock of its own and no file times. */
module CacheIdeal {
  import opened Wrappers
  import opened CacheSpec
  import opened CacheTheorems
  import opened CacheLru
  import opened ResponseCache

  // ----- the list

  /** What is known of a key: what was set, or that its file is no entry of this key. */
  datatype Kind = Good(stamp: Stamp) | Misplaced | Broken

  datatype Ideal = Ideal(order: seq<string>, files: map<string, Kind>)

  /** The keys of ks that are in s. */
  function Only(ks: seq<string>, s: set<string>): seq<string> {
    if ks == [] then [] else (if ks[0] in s then [ks[0]] else []) + Only(ks[1..], s)
  }

  function Removed(a: Ideal, key: string): Ideal {
    Ideal(Only(a.order, a.files.Keys - {key}), a.files - {key})
  }

  /** A use puts the key at the end. */
  function Used(a: Ideal, key: string, kind: Kind): Ideal {
    Ideal(Only(a.order, a.files.Keys - {key}) + [key], a.files[key := kind])
  }

  function Last(ks: seq<string>, n: nat): seq<string>
    requires n <= |ks|
  {
    ks[|ks| - n..]
  }

  /** The last keys, as many as a positive limit. */
  function Cut(a: Ideal, limit: int): Ideal {
    if limit <= 0 || |a.order| <= limit then a
    else
      var order := Last(a.order, limit);
      Ideal(order, map k | k in a.files && k in order :: a.files[k])
  }

  predicate IsHit(enabled: bool, ttl: int, a: Ideal, key: string, at: int) {
    enabled && IsValidKey(key) && key in a.files && a.files[key].Good? && !Outlived(a.files[key].stamp, ttl, at)
  }

  function Lookup(enabled: bool, ttl: int, a: Ideal, key: string, at: int): Ideal {
    if IsHit(enabled, ttl, a, key, at) then Used(a, key, a.files[key])
    else if enabled && IsValidKey(key) && key in a.files && !a.files[key].Broken? then Removed(a, key)
    else a
  }

  function Purge(a: Ideal): Ideal {
    var files := map k | k in a.files && !(IsValidKey(k) && a.files[k].Misplaced?) :: a.files[k];
    Ideal(Only(a.order, files.Keys), files)
  }

  function Next(enabled: bool, ttl: int, limit: int, a: Ideal, op: Op): Ideal {
    match op
    case GetOp(key, r) => Lookup(enabled, ttl, a, key, r.checked)
    case SetOp(key, data, r) =>
      if enabled && IsValidKey(key) then Cut(Used(a, key, Good(Stamp(data, r.checked))), limit) else a
    case DeleteOp(key) => if IsValidKey(key) then Removed(a, key) else a
    case ClearOp => Ideal([], map[])
    case StartingPointOp(_, _, _) => if enabled then Purge(a) else a
  }

  function AfterAll(enabled: bool, ttl: int, limit: int, a: Ideal, ops: seq<Op>): Ideal
    decreases |ops|
  {
    if ops == [] then a else AfterAll(enabled, ttl, limit, Next(enabled, ttl, limit, a, ops[0]), ops[1..])
  }

  // ----- its replies

  predicate IsMatch(files: map<string, Kind>, ttl: int, tag: Option<string>, prefix: Option<string>, at: int,
                    k: string)
  {
    && IsValidKey(k) && k in files && files[k].Good? && !Outlived(files[k].stamp, ttl, at)
    && Matches(Entry(k, files[k].stamp.data, files[k].stamp.createdAt, 0, 0), tag, prefix)
  }

  /** The content of the last match. */
  function Suggestion(order: seq<string>, files: map<string, Kind>, ttl: int,
                      tag: Option<string>, prefix: Option<string>, at: int): Option<string>
  {
    if order == [] then None
    else
      var k := order[|order| - 1];
      if IsMatch(files, ttl, tag, prefix, at, k) then Some(files[k].stamp.data.content)
      else Suggestion(order[..|order| - 1], files, ttl, tag, prefix, at)
  }

  /** The reply is the one of the list. */
  ghost predicate RepliesAs(enabled: bool, ttl: int, a: Ideal, op: Op, reply: Reply) {
    match op
    case GetOp(key, r) =>
      && reply.Got?
      && (reply.entry.Some? <==> IsHit(enabled, ttl, a, key, r.checked))
      && (reply.entry.Some? ==>
            var e := reply.entry.value;
            e.key == key && key in a.files && a.files[key] == Good(Stamp(e.data, e.createdAt)))
    case SetOp(key, data, r) => reply == Stored(Fresh(key, data, r))
    case DeleteOp(_) => reply == Done
    case ClearOp => reply.Cleared?
    case StartingPointOp(tag, prefix, at) =>
      reply == Suggested(if enabled then Suggestion(a.order, a.files, ttl, tag, prefix, at) else None)
  }

  // ----- the cache and the list

  function KindOf(key: string, f: File): Kind {
    match f.stored
    case None => Broken
    case Some(e) => if e.key == key then Good(Stamp(e.data, e.createdAt)) else Misplaced
  }

  /** ks lists the files, oldest first. */
  ghost predicate Orders(disk: map<string, File>, ks: seq<string>) {
    && (forall k :: k in ks <==> k in disk)
    && (forall i, j :: 0 <= i < j < |ks| ==> disk[ks[i]].mtime < disk[ks[j]].mtime)
  }

  ghost predicate Kinds(disk: map<string, File>, files: map<string, Kind>) {
    files.Keys == disk.Keys && forall k :: k in disk ==> files[k] == KindOf(k, disk[k])
  }

  ghost predicate Refines(c: Cache, a: Ideal) {
    Orders(c.disk, a.order) && Kinds(c.disk, a.files)
  }

  lemma {:induction false} OnlyMeans(ks: seq<string>, s: set<string>)
    ensures forall k :: k in Only(ks, s) <==> k in ks && k in s
  {
    if ks != [] {
      OnlyMeans(ks[1..], s);
    }
  }

  ghost predicate Ascending(disk: map<string, File>, ks: seq<string>)
    requires forall k :: k in ks ==> k in disk
  {
    forall i, j :: 0 <= i < j < |ks| ==> disk[ks[i]].mtime < disk[ks[j]].mtime
  }

  lemma HeadIsOldest(disk: map<string, File>, ks: seq<string>, k: string)
    requires ks != [] && (forall x :: x in ks ==> x in disk) && Ascending(disk, ks) && k in ks[1..]
    ensures disk[ks[0]].mtime < disk[k].mtime
  {
    var i :| 0 <= i < |ks| - 1 && ks[1..][i] == k;
    assert ks[i + 1] == k;
  }

  lemma AscendingCons(disk: map<string, File>, k: string, ks: seq<string>)
    requires k in disk && (forall x :: x in ks ==> x in disk && disk[k].mtime < disk[x].mtime) && Ascending(disk, ks)
    ensures (forall x :: x in [k] + ks ==> x in disk) && Ascending(disk, [k] + ks)
  {
    var all := [k] + ks;
    forall i, j | 0 <= i < j < |all|
      ensures disk[all[i]].mtime < disk[all[j]].mtime
    {
      assert all[j] == ks[j - 1] && ks[j - 1] in ks;
      if i > 0 {
        assert all[i] == ks[i - 1];
      }
    }
  }

  lemma {:induction false} OnlyKeepsOrder(disk: map<string, File>, ks: seq<string>, s: set<string>)
    requires (forall k :: k in ks ==> k in disk) && Ascending(disk, ks)
    ensures (forall k :: k in Only(ks, s) ==> k in disk) && Ascending(disk, Only(ks, s))
  {
    OnlyMeans(ks, s);
    if ks != [] {
      var rest := Only(ks[1..], s);
      OnlyMeans(ks[1..], s);
      OnlyKeepsOrder(disk, ks[1..], s);
      forall x | x in rest
        ensures disk[ks[0]].mtime < disk[x].mtime
      {
        HeadIsOldest(disk, ks, x);
      }
      hide Ascending;
      if ks[0] in s {
        AscendingCons(disk, ks[0], rest);
      } else {
        assert [] + rest == rest;
      }
    }
  }

  ghost predicate PartOf(disk': map<string, File>, disk: map<string, File>) {
    forall k :: k in disk' ==> k in disk && disk'[k] == disk[k]
  }

  /** Fewer files: the list loses their keys. */
  lemma FewerFilesOrdered(disk: map<string, File>, ks: seq<string>, disk': map<string, File>)
    requires Orders(disk, ks) && PartOf(disk', disk)
    ensures Orders(disk', Only(ks, disk'.Keys))
  {
    OnlyMeans(ks, disk'.Keys);
    OnlyKeepsOrder(disk, ks, disk'.Keys);
  }

  lemma AppendOrdered(disk: map<string, File>, ks: seq<string>, key: string, f: File)
    requires Orders(disk, ks) && key !in disk && forall k :: k in disk ==> disk[k].mtime < f.mtime
    ensures Orders(disk[key := f], ks + [key])
  {
    var all, d := ks + [key], disk[key := f];
    assert all[|ks|] == key;
    forall i, j | 0 <= i < j < |all|
      ensures all[i] in d && all[j] in d && d[all[i]].mtime < d[all[j]].mtime
    {
      assert all[i] == ks[i] && ks[i] in ks;
      assert j < |ks| ==> all[j] == ks[j] && ks[j] in ks;
    }
    assert forall k :: k in all <==> k in ks || k == key;
  }

  /** A file written last: its key moves to the end. */
  lemma WriteOrdered(disk: map<string, File>, ks: seq<string>, key: string, f: File)
    requires Orders(disk, ks) && forall k :: k in disk ==> disk[k].mtime < f.mtime
    ensures Orders(disk[key := f], Only(ks, disk.Keys - {key}) + [key])
  {
    var before := disk - {key};
    assert before.Keys == disk.Keys - {key};
    FewerFilesOrdered(disk, ks, before);
    assert before[key := f] == disk[key := f];
    hide Only, Orders;
    AppendOrdered(before, Only(ks, disk.Keys - {key}), key, f);
  }

  lemma RemovedRefines(c: Cache, a: Ideal, key: string, c': Cache)
    requires Refines(c, a) && c'.disk == c.disk - {key}
    ensures Refines(c', Removed(a, key))
  {
    FewerFilesOrdered(c.disk, a.order, c'.disk);
    assert c'.disk.Keys == a.files.Keys - {key};
  }

  lemma UsedRefines(c: Cache, a: Ideal, key: string, f: File, c': Cache)
    requires Refines(c, a) && Timed(c.disk, c.now) && f.mtime > c.now && c'.disk == c.disk[key := f]
    ensures Refines(c', Used(a, key, KindOf(key, f)))
  {
    WriteOrdered(c.disk, a.order, key, f);
  }

  lemma OutlivedIffExpired(c: Cache, a: Ideal, key: string, at: int)
    requires Refines(c, a) && Readable(c.disk, key)
    ensures a.files[key].Good? && (Outlived(a.files[key].stamp, c.ttl, at) <==> Expired(c.disk[key].stored.value, c.ttl, at))
  {
  }

  lemma DiskGetRefines(c: Cache, a: Ideal, key: string, r: Readings)
    requires Timed(c.disk, c.now) && Refines(c, a) && After(c.now, r)
    requires c.enabled && IsValidKey(key) && key in c.disk
    ensures Refines(DiskGet(c, key, r).0, Lookup(c.enabled, c.ttl, a, key, r.checked))
  {
    hide IsValidKey, Timed, Orders, Used, Removed;
    var c' := DiskGet(c, key, r).0;
    if Readable(c.disk, key) {
      OutlivedIffExpired(c, a, key, r.checked);
      var e := c.disk[key].stored.value;
      if Expired(e, c.ttl, r.checked) {
        RemovedRefines(c, a, key, c');
      } else {
        UsedRefines(c, a, key, File(r.written, Some(Touch(e, r.touched))), c');
      }
    } else if Misfiled(c.disk, key) {
      RemovedRefines(c, a, key, c');
    }
  }

  lemma DiskGetReplies(c: Cache, a: Ideal, key: string, r: Readings)
    requires Refines(c, a)
    ensures RepliesAs(c.enabled, c.ttl, a, GetOp(key, r), Got(DiskGet(c, key, r).1))
  {
    hide IsValidKey, Orders;
    if Readable(c.disk, key) {
      OutlivedIffExpired(c, a, key, r.checked);
    }
  }

  lemma GetRefines(c: Cache, a: Ideal, key: string, r: Readings)
    requires Inv(c) && Refines(c, a) && After(c.now, r)
    ensures Refines(Get(c, key, r).0, Lookup(c.enabled, c.ttl, a, key, r.checked))
    ensures RepliesAs(c.enabled, c.ttl, a, GetOp(key, r), Got(Get(c, key, r).1))
  {
    GetIsDiskGet(c, key, r);
    DiskGetReplies(c, a, key, r);
    hide Get, IsValidKey, Timed, Included, Recent, RepliesAs, Orders;
    if c.enabled && IsValidKey(key) && key in c.disk {
      DiskGetRefines(c, a, key, r);
    }
  }

  // ----- eviction

  lemma OrderSize(disk: map<string, File>, ks: seq<string>)
    requires Orders(disk, ks)
    ensures SortedKeys(FileTimes(disk), ks) && |ks| == |FileTimes(disk)|
  {
    FrontSize(ks, |ks|);
    assert Front(ks, |ks|) == FileTimes(disk).Keys;
    assert |FileTimes(disk).Keys| == |FileTimes(disk)|;
  }

  lemma TailIsRest(disk: map<string, File>, ks: seq<string>, n: nat)
    requires Orders(disk, ks) && n <= |ks|
    ensures forall k :: k in ks[n..] <==> k in disk && k !in Front(ks, n)
  {
    forall k
      ensures k in ks[n..] <==> k in ks && k !in Front(ks, n)
    {
      if k in ks {
        var i :| 0 <= i < |ks| && ks[i] == k;
        assert i >= n ==> ks[n..][i - n] == k;
        assert i < n ==> k in Front(ks, n);
      }
    }
  }

  ghost predicate DistinctTimes(disk: map<string, File>) {
    forall i, j :: i in disk && j in disk && i != j ==> disk[i].mtime != disk[j].mtime
  }

  lemma KeptIsTail(disk: map<string, File>, ks: seq<string>, limit: nat, kept: set<string>)
    requires Orders(disk, ks) && limit < |ks| && Newest(FileTimes(disk), kept, limit) && DistinctTimes(disk)
    ensures forall k :: k in Last(ks, limit) <==> k in kept
  {
    var times, n := FileTimes(disk), |ks| - limit;
    OrderSize(disk, ks);
    TailIsRest(disk, ks, n);
    assert forall i, j :: i in times && j in times && i != j ==> times[i] != times[j];
    assert times.Keys == disk.Keys;
    hide Newest, SortedKeys, Front, FileTimes, Orders;
    DroppingFrontKeepsNewest(times, ks, limit);
    NewestIsUnique(times, kept, times.Keys - Front(ks, n), limit);
  }

  lemma TailOrdered(disk: map<string, File>, ks: seq<string>, n: nat, disk': map<string, File>)
    requires Orders(disk, ks) && n <= |ks| && forall k :: k in Last(ks, n) <==> k in disk'
    requires PartOf(disk', disk)
    ensures Orders(disk', Last(ks, n))
  {
    var tail, d := Last(ks, n), |ks| - n;
    forall i, j | 0 <= i < j < |tail|
      ensures tail[i] in disk' && tail[j] in disk' && disk'[tail[i]].mtime < disk'[tail[j]].mtime
    {
      assert tail[i] in tail && tail[j] in tail;
      assert tail[i] == ks[d + i] && tail[j] == ks[d + j];
    }
  }

  lemma EvictionCuts(disk: map<string, File>, ks: seq<string>, limit: nat, disk': map<string, File>)
    requires Orders(disk, ks) && limit < |ks| && Newest(FileTimes(disk), disk'.Keys, limit) && DistinctTimes(disk)
    requires PartOf(disk', disk)
    ensures Orders(disk', Last(ks, limit))
  {
    hide *;
    KeptIsTail(disk, ks, limit, disk'.Keys);
    TailOrdered(disk, ks, limit, disk');
  }

  lemma AllFilesStay(disk: map<string, File>, limit: nat, disk': map<string, File>)
    requires Newest(FileTimes(disk), disk'.Keys, limit) && |FileTimes(disk)| <= limit
    requires PartOf(disk', disk)
    ensures disk' == disk
  {
    assert |FileTimes(disk).Keys| == |FileTimes(disk)|;
    if k :| k in disk && k !in disk' {
      CardinalityLess(disk'.Keys, FileTimes(disk).Keys, k);
    }
  }

  lemma CutKinds(disk: map<string, File>, a: Ideal, limit: nat, disk': map<string, File>)
    requires Kinds(disk, a.files) && 0 < limit < |a.order| && Orders(disk', Cut(a, limit).order)
    requires PartOf(disk', disk)
    ensures Kinds(disk', Cut(a, limit).files)
  {
    var files := Cut(a, limit).files;
    assert forall k :: k in files <==> k in a.files && k in Cut(a, limit).order;
    assert files.Keys == disk'.Keys;
  }

  lemma CutOrder(a: Ideal, limit: nat)
    requires limit > 0
    ensures |a.order| <= limit ==> Cut(a, limit) == a
    ensures |a.order| > limit ==> Cut(a, limit).order == Last(a.order, limit)
  {
  }

  lemma NothingCut(disk: map<string, File>, a: Ideal, limit: nat, disk': map<string, File>)
    requires Orders(disk, a.order) && Kinds(disk, a.files) && DistinctTimes(disk)
    requires limit > 0 && Newest(FileTimes(disk), disk'.Keys, limit)
    requires PartOf(disk', disk)
    requires |a.order| <= limit
    ensures disk' == disk
  {
    OrderSize(disk, a.order);
    hide *;
    AllFilesStay(disk, limit, disk');
  }

  lemma SomeCut(disk: map<string, File>, a: Ideal, limit: nat, disk': map<string, File>)
    requires Orders(disk, a.order) && Kinds(disk, a.files) && DistinctTimes(disk)
    requires limit > 0 && Newest(FileTimes(disk), disk'.Keys, limit)
    requires PartOf(disk', disk)
    requires |a.order| > limit
    ensures Orders(disk', Cut(a, limit).order) && Kinds(disk', Cut(a, limit).files)
  {
    CutOrder(a, limit);
    hide *;
    EvictionCuts(disk, a.order, limit, disk');
    CutKinds(disk, a, limit, disk');
  }

  lemma CutRefines(disk: map<string, File>, a: Ideal, limit: nat, disk': map<string, File>)
    requires Orders(disk, a.order) && Kinds(disk, a.files) && DistinctTimes(disk)
    requires limit > 0 && Newest(FileTimes(disk), disk'.Keys, limit)
    requires PartOf(disk', disk)
    ensures Orders(disk', Cut(a, limit).order) && Kinds(disk', Cut(a, limit).files)
  {
    hide *;
    if |a.order| <= limit {
      NothingCut(disk, a, limit, disk');
      CutOrder(a, limit);
    } else {
      SomeCut(disk, a, limit, disk');
    }
  }

  lemma EvictionRefines(w: Cache, a: Ideal, c': Cache)
    requires Timed(w.disk, w.now) && Refines(w, a) && Evicted(w.limit, w.memory, w.disk, c'.memory, c'.disk)
    ensures Refines(c', Cut(a, w.limit))
  {
    assert DistinctTimes(w.disk);
    hide Newest, Timed, Orders, Kinds, FileTimes, DistinctTimes;
    if w.limit > 0 {
      CutRefines(w.disk, a, w.limit, c'.disk);
    }
  }

  lemma SetRefines(c: Cache, a: Ideal, key: string, data: Data, r: Readings, c': Cache)
    requires Inv(c) && Refines(c, a) && After(c.now, r) && SetStep(c, key, data, r, c')
    requires c.enabled && IsValidKey(key)
    ensures Refines(c', Cut(Used(a, key, Good(Stamp(data, r.checked))), c.limit))
  {
    WrittenKeepsInv(c, key, data, r);
    SetEvictsWritten(c, key, data, r, c');
    var e := Fresh(key, data, r);
    var w := Written(c, key, e, r);
    hide IsValidKey, SetStep, Evicted, Refines, Included, Recent;
    UsedRefines(c, a, key, File(r.written, Some(e)), w);
    EvictionRefines(w, Used(a, key, Good(Stamp(data, r.checked))), c');
  }

  // ----- starting points

  lemma PurgeRefines(c: Cache, a: Ideal, c': Cache)
    requires Refines(c, a) && c'.disk == Purged(c.disk)
    ensures Refines(c', Purge(a))
  {
    FewerFilesOrdered(c.disk, a.order, c'.disk);
    assert Purge(a).files.Keys == c'.disk.Keys by {
      hide IsValidKey;
    }
  }

  /** The candidates are the matches of the list. */
  lemma CandidatesMatch(c: Cache, a: Ideal, tag: Option<string>, prefix: Option<string>, at: int)
    requires Refines(c, a)
    ensures forall k :: k in DiskCandidates(c, tag, prefix, at) <==> IsMatch(a.files, c.ttl, tag, prefix, at, k)
    ensures forall k :: k in DiskCandidates(c, tag, prefix, at) ==>
              DiskCandidates(c, tag, prefix, at)[k].data == a.files[k].stamp.data
  {
    hide IsValidKey;
  }

  /** The last match of the list was accessed last. */
  lemma {:induction false} SuggestionIsMostRecent(c: Cache, files: map<string, Kind>, ks: seq<string>,
                                                  tag: Option<string>, prefix: Option<string>, at: int)
    returns (latest: Option<string>)
    requires Timed(c.disk, c.now) && Kinds(c.disk, files)
    requires forall k :: k in ks ==> k in c.disk
    requires forall i, j :: 0 <= i < j < |ks| ==> c.disk[ks[i]].mtime < c.disk[ks[j]].mtime
    ensures match latest
            case None =>
              && Suggestion(ks, files, c.ttl, tag, prefix, at) == None
              && forall k :: k in ks ==> !IsMatch(files, c.ttl, tag, prefix, at, k)
            case Some(l) =>
              && l in ks && IsMatch(files, c.ttl, tag, prefix, at, l)
              && Suggestion(ks, files, c.ttl, tag, prefix, at) == Some(files[l].stamp.data.content)
              && forall k :: k in ks && IsMatch(files, c.ttl, tag, prefix, at, k) ==> c.disk[k].mtime <= c.disk[l].mtime
    decreases |ks|
  {
    hide IsValidKey, Matches, Timed, Kinds;
    latest := None;
    if ks != [] {
      var n := |ks| - 1;
      var last := ks[n];
      assert ks == ks[..n] + [last];
      if IsMatch(files, c.ttl, tag, prefix, at, last) {
        latest := Some(last);
      } else {
        latest := SuggestionIsMostRecent(c, files, ks[..n], tag, prefix, at);
      }
    }
  }

  lemma StartingPointRefines(c: Cache, a: Ideal, tag: Option<string>, prefix: Option<string>, at: int,
                             content: Option<string>)
    requires Inv(c) && Refines(c, a) && MostRecent(Candidates(c, tag, prefix, at), content)
    ensures content == Suggestion(a.order, a.files, c.ttl, tag, prefix, at)
  {
    MemoryFirstIsMostRecent(c, tag, prefix, at, content);
    UnionIsDisk(c, tag, prefix, at);
    CandidatesMatch(c, a, tag, prefix, at);
    var latest := SuggestionIsMostRecent(c, a.files, a.order, tag, prefix, at);
    hide IsValidKey, Matches, Candidates, MemoryCandidates, IsMatch, Suggestion;
    var d := DiskCandidates(c, tag, prefix, at);
    if latest.None? {
      assert d == map[];
    } else {
      MostRecentOf(c, tag, prefix, at, latest.value);
      MostRecentIsUnique(d, content, Some(d[latest.value].data.content));
    }
  }

  lemma MostRecentOf(c: Cache, tag: Option<string>, prefix: Option<string>, at: int, latest: string)
    requires Timed(c.disk, c.now) && latest in DiskCandidates(c, tag, prefix, at)
    requires forall k :: k in DiskCandidates(c, tag, prefix, at) ==> c.disk[k].mtime <= c.disk[latest].mtime
    ensures var d := DiskCandidates(c, tag, prefix, at); MostRecent(d, Some(d[latest].data.content))
  {
    hide IsValidKey, Matches;
    var d := DiskCandidates(c, tag, prefix, at);
    forall k | k in d
      ensures d[k].lastAccessed <= d[latest].lastAccessed
    {
      assert k != latest ==> c.disk[k].mtime < c.disk[latest].mtime;
    }
  }

  // ----- runs

  lemma StepRefines(c: Cache, a: Ideal, op: Op, c': Cache, reply: Reply)
    requires Inv(c) && Refines(c, a) && Step(c, op, c', reply)
    ensures Refines(c', Next(c.enabled, c.ttl, c.limit, a, op))
    ensures RepliesAs(c.enabled, c.ttl, a, op, reply)
  {
    hide Inv, Get, SetStep, IsValidKey, MostRecent, Candidates, Purged;
    hide Lookup, Cut, Used, Removed, Purge, Suggestion, IsHit;
    match op
    case GetOp(key, r) => GetRefines(c, a, key, r);
    case SetOp(key, data, r) =>
      if c.enabled && IsValidKey(key) {
        SetRefines(c, a, key, data, r, c');
      } else {
        DisabledSet(c, key, data, r, c');
      }
    case DeleteOp(key) =>
      if IsValidKey(key) {
        RemovedRefines(c, a, key, c');
      }
    case ClearOp =>
    case StartingPointOp(tag, prefix, at) =>
      if c.enabled {
        PurgeRefines(c, a, c');
        StartingPointRefines(c, a, tag, prefix, at, reply.content);
      }
  }

  lemma DisabledSet(c: Cache, key: string, data: Data, r: Readings, c': Cache)
    requires SetStep(c, key, data, r, c') && !(c.enabled && IsValidKey(key))
    ensures c'.disk == c.disk
  {
  }

  /** Over every run every lookup and every search for a starting point is answered as the list answers it. */
  lemma {:induction false} RunRefines(c: Cache, a: Ideal, ops: seq<Op>, c': Cache, replies: seq<Reply>, i: nat)
    requires Inv(c) && Refines(c, a) && Run(c, ops, c', replies) && i < |ops|
    ensures |replies| == |ops|
    ensures RepliesAs(c.enabled, c.ttl, AfterAll(c.enabled, c.ttl, c.limit, a, ops[..i]), ops[i], replies[i])
    decreases |ops|
  {
    hide Inv, Step, Refines, Next, RepliesAs;
    var m: Cache :| Step(c, ops[0], m, replies[0]) && Run(m, ops[1..], c', replies[1..]);
    StepRefines(c, a, ops[0], m, replies[0]);
    if i == 0 {
      assert ops[..0] == [];
    } else {
      StepKeepsInv(c, ops[0], m, replies[0]);
      StepKeepsSettings(c, ops[0], m, replies[0]);
      RunRefines(m, Next(c.enabled, c.ttl, c.limit, a, ops[0]), ops[1..], c', replies[1..], i - 1);
      assert ops[..i][1..] == ops[1..][..i - 1] && ops[..i][0] == ops[0];
    }
  }

  // ----- starting

  lemma {:induction false} LatestFile(disk: map<string, File>, among: set<string>) returns (k: string)
    requires among != {} && among <= disk.Keys
    ensures k in among && forall j :: j in among ==> disk[j].mtime <= disk[k].mtime
    decreases |among|
  {
    k :| k in among;
    if among != {k} {
      assert among - {k} != {} by {
        var j :| j in among && j != k;
        assert j in among - {k};
      }
      var j := LatestFile(disk, among - {k});
      if disk[j].mtime > disk[k].mtime {
        k := j;
      }
    }
  }

  lemma {:induction false} OrderOf(disk: map<string, File>, among: set<string>) returns (ks: seq<string>)
    requires among <= disk.Keys
    requires forall i, j :: i in disk && j in disk && i != j ==> disk[i].mtime != disk[j].mtime
    ensures forall k :: k in ks <==> k in among
    ensures forall i, j :: 0 <= i < j < |ks| ==> disk[ks[i]].mtime < disk[ks[j]].mtime
    decreases |among|
  {
    ks := [];
    if among != {} {
      var k := LatestFile(disk, among);
      var before := OrderOf(disk, among - {k});
      assert forall i :: 0 <= i < |before| ==> before[i] in before && before[i] in among - {k};
      ks := before + [k];
    }
  }

  /** Every well-timed directory has its list, so every cache starts as one. */
  lemma ListExists(c: Cache)
    requires Timed(c.disk, c.now)
    ensures exists a: Ideal :: Refines(c, a)
  {
    var ks := OrderOf(c.disk, c.disk.Keys);
    assert Refines(c, Ideal(ks, map k | k in c.disk :: KindOf(k, c.disk[k])));
  }
}
