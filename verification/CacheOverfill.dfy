/** When the memory tier can hold more than the limit: promotion on a hit enforces nothing. */
module CacheOverfill {
  import opened Wrappers
  import opened CacheSpec
  import opened CacheTheorems

  // ----- one operation

  /** The key has a valid file whose entry is not expired at that time. */
  predicate LiveAt(c: Cache, key: string, at: int) {
    IsValidKey(key) && Readable(c.disk, key) && !Expired(c.disk[key].stored.value, c.ttl, at)
  }

  lemma GetMemory(c: Cache, key: string, r: Readings)
    requires Inv(c)
    ensures var m := Get(c, key, r).0.memory.Keys;
            if c.enabled && LiveAt(c, key, r.checked) then m == c.memory.Keys + {key} else m <= c.memory.Keys
  {
    GetIsDiskGet(c, key, r);
    hide Inv, IsValidKey, Get;
  }

  lemma GetGrowsIff(c: Cache, key: string, r: Readings)
    requires Inv(c) && c.limit > 0 && |c.memory| <= c.limit
    ensures |Get(c, key, r).0.memory| > c.limit
       <==> |c.memory| == c.limit && key !in c.memory && c.enabled && LiveAt(c, key, r.checked)
  {
    GetMemory(c, key, r);
    hide Inv, Get, LiveAt;
    var m, before := Get(c, key, r).0.memory, c.memory.Keys;
    assert |m.Keys| == |m| && |before| == |c.memory|;
    if c.enabled && LiveAt(c, key, r.checked) {
      assert key in before ==> before + {key} == before;
    } else {
      SubsetCardinality(m.Keys, before);
    }
  }

  /** From a memory within a positive limit, an operation ends beyond the limit exactly when it is a
      lookup that promotes a live file while memory is full. */
  lemma StepOverfillsIff(c: Cache, op: Op, c': Cache, reply: Reply)
    requires Inv(c) && Step(c, op, c', reply) && c.limit > 0 && |c.memory| <= c.limit
    ensures |c'.memory| > c.limit
       <==> op.GetOp? && |c.memory| == c.limit && op.key !in c.memory && c.enabled && LiveAt(c, op.key, op.r.checked)
  {
    match op
    case GetOp(key, r) => GetGrowsIff(c, key, r);
    case SetOp(key, data, r) =>
      if c.enabled && IsValidKey(key) {
        SetWithinLimit(c, key, data, r, c');
      }
    case DeleteOp(key) =>
      assert (c.memory - {key}).Keys <= c.memory.Keys;
      SubsetCardinality((c.memory - {key}).Keys, c.memory.Keys);
      assert |(c.memory - {key}).Keys| == |c.memory - {key}| && |c.memory.Keys| == |c.memory|;
    case ClearOp =>
    case StartingPointOp(_, _, _) =>
  }

  // ----- which directories allow it

  /** The keys can be looked up one after the other, each before it expires: the clock advances by at
      least three readings with every lookup. */
  ghost predicate Schedule(c: Cache, ks: seq<string>) {
    && (forall i, j :: 0 <= i < j < |ks| ==> ks[i] != ks[j])
    && (forall j :: 0 <= j < |ks| ==> LiveAt(c, ks[j], c.now + 3 * j + 1))
  }

  /** ks schedules the keys that have come into memory since c0. */
  ghost predicate Promoted(c0: Cache, c: Cache, ks: seq<string>) {
    && Schedule(c0, ks) && c.now >= c0.now + 3 * |ks| && (ks != [] ==> c0.enabled)
    && (forall k :: k in c.memory ==> k in ks)
    && (forall k :: Readable(c.disk, k) ==>
          Readable(c0.disk, k) && c.disk[k].stored.value.createdAt == c0.disk[k].stored.value.createdAt)
  }

  ghost predicate SameSettings(c: Cache, d: Cache) {
    c.enabled == d.enabled && c.ttl == d.ttl && c.limit == d.limit
  }

  lemma HitIsPromoted(c0: Cache, c: Cache, key: string, r: Readings, ks: seq<string>) returns (ks': seq<string>)
    requires Promoted(c0, c, ks) && SameSettings(c0, c) && After(c.now, r) && c.enabled && LiveAt(c, key, r.checked)
    ensures Promoted(c0, Hit(c, key, c.disk[key].stored.value, r).0, ks')
  {
    hide IsValidKey;
    ks' := if key in ks then ks else ks + [key];
    var c' := Hit(c, key, c.disk[key].stored.value, r).0;
    forall k | Readable(c'.disk, k)
      ensures Readable(c0.disk, k) && c'.disk[k].stored.value.createdAt == c0.disk[k].stored.value.createdAt
    {
      assert Readable(c.disk, k);
    }
  }

  lemma GetIsPromoted(c0: Cache, c: Cache, key: string, r: Readings, ks: seq<string>) returns (ks': seq<string>)
    requires Inv(c) && Promoted(c0, c, ks) && SameSettings(c0, c) && After(c.now, r)
    ensures Promoted(c0, Get(c, key, r).0, ks')
  {
    GetIsDiskGet(c, key, r);
    if c.enabled && LiveAt(c, key, r.checked) {
      ks' := HitIsPromoted(c0, c, key, r, ks);
    } else {
      ks' := ks;
      hide Inv, IsValidKey, Get, Schedule;
      var c' := DiskGet(c, key, r).0;
      FewerArePromoted(c0, c, c', ks);
    }
  }

  lemma FewerArePromoted(c0: Cache, c: Cache, c': Cache, ks: seq<string>)
    requires Promoted(c0, c, ks) && c'.now >= c.now
    requires forall k :: k in c'.memory ==> k in c.memory
    requires forall k :: k in c'.disk ==> k in c.disk && c'.disk[k] == c.disk[k]
    ensures Promoted(c0, c', ks)
  {
    hide Schedule;
    forall k | Readable(c'.disk, k)
      ensures Readable(c.disk, k)
    {
    }
  }

  /** Every operation keeps the disk within the limit, or has only promoted. */
  lemma StepPromotes(c0: Cache, c: Cache, op: Op, c': Cache, reply: Reply, ks: seq<string>) returns (ks': seq<string>)
    requires Inv(c) && Step(c, op, c', reply) && c.limit > 0 && SameSettings(c0, c)
    requires |c.disk| <= c.limit || Promoted(c0, c, ks)
    ensures |c'.disk| <= c.limit || Promoted(c0, c', ks')
  {
    ks' := ks;
    if |c.disk| <= c.limit {
      StaysWithinLimit(c, op, c', reply);
    } else if op.GetOp? {
      ks' := GetIsPromoted(c0, c, op.key, op.r, ks);
    } else if op.SetOp? && c.enabled && IsValidKey(op.key) {
      SetWithinLimit(c, op.key, op.data, op.r, c');
    } else {
      hide Inv, IsValidKey, Promoted, MostRecent, Candidates;
      FewerArePromoted(c0, c, c', ks);
    }
  }

  lemma {:induction false} RunPromotes(c0: Cache, c: Cache, ops: seq<Op>, c': Cache, replies: seq<Reply>, ks: seq<string>)
    returns (ks': seq<string>)
    requires Inv(c) && Run(c, ops, c', replies) && c.limit > 0 && SameSettings(c0, c)
    requires |c.disk| <= c.limit || Promoted(c0, c, ks)
    ensures Inv(c') && c'.limit == c.limit && (|c'.disk| <= c.limit || Promoted(c0, c', ks'))
    decreases |ops|
  {
    ks' := ks;
    if ops != [] {
      hide Inv, Step, Promoted;
      var m: Cache :| Step(c, ops[0], m, replies[0]) && Run(m, ops[1..], c', replies[1..]);
      StepKeepsInv(c, ops[0], m, replies[0]);
      StepKeepsSettings(c, ops[0], m, replies[0]);
      ks' := StepPromotes(c0, c, ops[0], m, replies[0], ks);
      ks' := RunPromotes(c0, m, ops[1..], c', replies[1..], ks');
    }
  }

  lemma {:induction false} ElementsOf(ks: seq<string>, s: set<string>)
    requires forall k :: k in s ==> k in ks
    ensures |s| <= |ks|
    decreases |ks|
  {
    if ks != [] {
      var n := |ks| - 1;
      ElementsOf(ks[..n], s - {ks[n]});
      if ks[n] in s {
        assert s == (s - {ks[n]}) + {ks[n]};
      } else {
        assert s == s - {ks[n]};
      }
    } else {
      assert s == {};
    }
  }

  // ----- filling memory by lookups

  lemma ScheduleAfterHit(c: Cache, ks: seq<string>, r: Readings)
    requires ks != [] && Schedule(c, ks) && r.written == c.now + 3
    ensures Readable(c.disk, ks[0]) && Schedule(Hit(c, ks[0], c.disk[ks[0]].stored.value, r).0, ks[1..])
  {
    assert LiveAt(c, ks[0], c.now + 3 * 0 + 1);
    hide IsValidKey;
    var c1 := Hit(c, ks[0], c.disk[ks[0]].stored.value, r).0;
    forall j | 0 <= j < |ks| - 1
      ensures LiveAt(c1, ks[1..][j], c1.now + 3 * j + 1)
    {
      assert LiveAt(c, ks[j + 1], c.now + 3 * (j + 1) + 1);
    }
  }

  /** One scheduled lookup adds its key to memory and leaves the rest of the schedule. */
  lemma FirstLookup(c: Cache, ks: seq<string>)
    requires Inv(c) && c.enabled && ks != [] && Schedule(c, ks) && ks[0] !in c.memory
    ensures var (c1, reply) := Get(c, ks[0], Readings(c.now + 1, c.now + 2, c.now + 3));
            && Schedule(c1, ks[1..]) && c1.enabled && c1.limit == c.limit
            && c1.memory.Keys == c.memory.Keys + {ks[0]} && |c1.memory| == |c.memory| + 1
  {
    var r := Readings(c.now + 1, c.now + 2, c.now + 3);
    assert LiveAt(c, ks[0], c.now + 3 * 0 + 1);
    ScheduleAfterHit(c, ks, r);
    GetIsDiskGet(c, ks[0], r);
    hide Inv, IsValidKey, Get, Schedule;
    var c1 := Get(c, ks[0], r).0;
    assert |c1.memory.Keys| == |c1.memory| && |c.memory.Keys| == |c.memory|;
  }

  ghost predicate OnlyLookups(ops: seq<Op>) {
    forall i :: 0 <= i < |ops| ==> ops[i].GetOp?
  }

  lemma {:induction false} LookupsFill(c: Cache, ks: seq<string>)
    returns (ops: seq<Op>, c': Cache, replies: seq<Reply>)
    requires Inv(c) && (c.enabled || ks == []) && Schedule(c, ks)
    requires forall j :: 0 <= j < |ks| ==> ks[j] !in c.memory
    ensures Run(c, ops, c', replies) && OnlyLookups(ops)
    ensures |c'.memory| == |c.memory| + |ks|
    decreases |ks|
  {
    ops, c', replies := [], c, [];
    if ks != [] {
      FirstLookup(c, ks);
      var op := GetOp(ks[0], Readings(c.now + 1, c.now + 2, c.now + 3));
      var c1, reply := Get(c, op.key, op.r).0, Got(Get(c, op.key, op.r).1);
      GetKeepsInv(c, op.key, op.r);
      assert Step(c, op, c1, reply);
      assert forall j :: 0 <= j < |ks| - 1 ==> ks[1..][j] == ks[j + 1];
      hide Inv, Step, Get, Schedule;
      ops, c', replies := LookupsFill(c1, ks[1..]);
      RunCons(c, op, c1, reply, ops, c', replies);
      ops, replies := [op] + ops, [reply] + replies;
    }
  }

  ghost predicate CanOverfill(c: Cache) {
    exists ops: seq<Op>, c': Cache, replies: seq<Reply> :: Run(c, ops, c', replies) && |c'.memory| > c.limit
  }

  ghost predicate CanOverfillByLookups(c: Cache) {
    exists ops: seq<Op>, c': Cache, replies: seq<Reply> ::
      Run(c, ops, c', replies) && OnlyLookups(ops) && |c'.memory| > c.limit
  }

  ghost predicate HasSchedule(c: Cache, n: nat) {
    exists ks: seq<string> :: |ks| == n && Schedule(c, ks)
  }

  lemma NothingPromoted(c: Cache)
    requires c.memory == map[]
    ensures Promoted(c, c, [])
  {
  }

  lemma PromotedAreScheduled(c0: Cache, c: Cache, ks: seq<string>, n: nat)
    requires Promoted(c0, c, ks) && n <= |c.memory|
    ensures HasSchedule(c0, n) && (n > 0 ==> c0.enabled)
  {
    assert |c.memory.Keys| == |c.memory|;
    ElementsOf(ks, c.memory.Keys);
    hide LiveAt, Readable;
    assert |ks[..n]| == n && Schedule(c0, ks[..n]);
  }

  lemma OverfillNeedsSchedule(c: Cache, ops: seq<Op>, c': Cache, replies: seq<Reply>)
    requires c.memory == map[] && Inv(c) && c.limit > 0
    requires Run(c, ops, c', replies) && |c'.memory| > c.limit
    ensures c.enabled && HasSchedule(c, c.limit + 1)
  {
    NothingPromoted(c);
    hide Inv, Run, Promoted, HasSchedule;
    var ks := RunPromotes(c, c, ops, c', replies, []);
    MemoryIsSmaller(c');
    PromotedAreScheduled(c, c', ks, c.limit + 1);
  }

  /** A new process can come to hold more than the limit in memory, by any operations or by lookups
      alone, exactly when it is enabled and more keys than the limit can be looked up before they
      expire. */
  lemma OverfillIff(c: Cache)
    requires c.memory == map[] && Timed(c.disk, c.now) && c.limit > 0
    ensures CanOverfill(c) <==> c.enabled && HasSchedule(c, c.limit + 1)
    ensures CanOverfill(c) <==> CanOverfillByLookups(c)
  {
    StartsInvariant(c);
    hide Inv, Run, Schedule;
    if CanOverfill(c) {
      var ops: seq<Op>, c': Cache, replies: seq<Reply> :| Run(c, ops, c', replies) && |c'.memory| > c.limit;
      OverfillNeedsSchedule(c, ops, c', replies);
    }
    if c.enabled && HasSchedule(c, c.limit + 1) {
      var ks: seq<string> :| |ks| == c.limit + 1 && Schedule(c, ks);
      var ops, c', replies := LookupsFill(c, ks);
      assert CanOverfillByLookups(c);
    }
  }

  // ----- without a time to live

  /** The keys with a valid, readable file. */
  function LiveKeys(c: Cache): set<string> {
    set k | k in c.disk && IsValidKey(k) && Readable(c.disk, k)
  }

  lemma {:induction false} DistinctSize(ks: seq<string>, s: set<string>)
    requires forall i, j :: 0 <= i < j < |ks| ==> ks[i] != ks[j]
    requires forall i :: 0 <= i < |ks| ==> ks[i] in s
    ensures |ks| <= |s|
    decreases |ks|
  {
    if ks != [] {
      var n := |ks| - 1;
      DistinctSize(ks[..n], s - {ks[n]});
    }
  }

  lemma {:induction false} DistinctFrom(s: set<string>, n: nat) returns (ks: seq<string>)
    requires n <= |s|
    ensures |ks| == n
    ensures forall i, j :: 0 <= i < j < |ks| ==> ks[i] != ks[j]
    ensures forall i :: 0 <= i < |ks| ==> ks[i] in s
    decreases n
  {
    ks := [];
    if n > 0 {
      var k :| k in s;
      ks := DistinctFrom(s - {k}, n - 1);
      assert forall i :: 0 <= i < |ks| ==> ks[i] in s - {k};
      ks := ks + [k];
    }
  }

  /** Without a time to live: exactly when there are more valid, readable files than the limit. */
  lemma OverfillIffManyFiles(c: Cache)
    requires c.memory == map[] && Timed(c.disk, c.now) && c.limit > 0 && c.ttl <= 0
    ensures CanOverfill(c) <==> c.enabled && |LiveKeys(c)| > c.limit
  {
    OverfillIff(c);
    hide IsValidKey, CanOverfill, Timed;
    if HasSchedule(c, c.limit + 1) {
      var ks: seq<string> :| |ks| == c.limit + 1 && Schedule(c, ks);
      assert forall j :: 0 <= j < |ks| ==> LiveAt(c, ks[j], c.now + 3 * j + 1);
      DistinctSize(ks, LiveKeys(c));
    }
    if |LiveKeys(c)| > c.limit {
      var ks := DistinctFrom(LiveKeys(c), c.limit + 1);
      assert Schedule(c, ks);
    }
  }

  // ----- an example

  function KeyOf(c: char): string {
    KEY_PREFIX + seq(HEX_LENGTH, _ => c)
  }

  lemma KeysAreValid()
    ensures IsValidKey(KeyOf('a')) && IsValidKey(KeyOf('b')) && KeyOf('a') != KeyOf('b')
  {
    assert KeyOf('a')[|KEY_PREFIX|] == 'a' && KeyOf('b')[|KEY_PREFIX|] == 'b';
  }

  const NEW := Cache(true, 3600, 2, map[], map[], 0, 0, 0)

  /** A new process over the same directory, with another limit. */
  function Reopened(c: Cache, limit: int): Cache {
    c.(memory := map[], hits := 0, misses := 0, limit := limit)
  }

  lemma NothingEvicted(memory: map<string, Entry>, disk: map<string, File>, limit: nat)
    requires |memory| <= limit && |disk| <= limit
    ensures Evicted(limit, memory, disk, memory, disk)
  {
    var access, files := AccessTimes(memory), FileTimes(disk);
    assert access.Keys == memory.Keys && |access.Keys| == |access| && |memory.Keys| == |memory|;
    assert files.Keys == disk.Keys && |files.Keys| == |files| && |disk.Keys| == |disk|;
  }

  lemma FirstStored(data: Data) returns (m: Cache)
    ensures var a := KeyOf('a');
            var e := Fresh(a, data, Readings(1, 2, 3));
            && m == NEW.(memory := map[a := e], disk := map[a := File(3, Some(e))], now := 3)
            && Step(NEW, SetOp(a, data, Readings(1, 2, 3)), m, Stored(e))
  {
    KeysAreValid();
    hide IsValidKey, KeyOf, Evicted;
    var a := KeyOf('a');
    var e := Fresh(a, data, Readings(1, 2, 3));
    m := NEW.(memory := map[a := e], disk := map[a := File(3, Some(e))], now := 3);
    NothingEvicted(m.memory, m.disk, 2);
  }

  lemma SecondStored(data: Data, m: Cache) returns (c: Cache)
    requires var e := Fresh(KeyOf('a'), data, Readings(1, 2, 3));
             m == NEW.(memory := map[KeyOf('a') := e], disk := map[KeyOf('a') := File(3, Some(e))], now := 3)
    ensures var f := Fresh(KeyOf('b'), data, Readings(4, 5, 6));
            && Step(m, SetOp(KeyOf('b'), data, Readings(4, 5, 6)), c, Stored(f))
            && Schedule(Reopened(c, 1), [KeyOf('a'), KeyOf('b')]) && c.enabled
  {
    KeysAreValid();
    hide IsValidKey, KeyOf, Evicted;
    var b := KeyOf('b');
    var f := Fresh(b, data, Readings(4, 5, 6));
    c := m.(memory := m.memory[b := f], disk := m.disk[b := File(6, Some(f))], now := 6);
    NothingEvicted(c.memory, c.disk, 2);
  }

  lemma RunTwo(c: Cache, op: Op, m: Cache, reply: Reply, op': Op, c': Cache, reply': Reply)
    requires Step(c, op, m, reply) && Step(m, op', c', reply')
    ensures Run(c, [op] + [op'], c', [reply] + [reply'])
  {
    assert Run(c', [], c', []);
    hide Step, Run;
    RunCons(m, op', c', reply', [], c', []);
    assert [op'] + [] == [op'] && [reply'] + [] == [reply'];
    RunCons(c, op, m, reply, [op'], c', [reply']);
  }

  lemma TwoStored(data: Data) returns (ops: seq<Op>, c: Cache, replies: seq<Reply>)
    ensures Run(NEW, ops, c, replies) && c.enabled
    ensures Schedule(Reopened(c, 1), [KeyOf('a'), KeyOf('b')])
  {
    hide *;
    var r, q := Readings(1, 2, 3), Readings(4, 5, 6);
    var op, op' := SetOp(KeyOf('a'), data, r), SetOp(KeyOf('b'), data, q);
    var reply, reply' := Stored(Fresh(KeyOf('a'), data, r)), Stored(Fresh(KeyOf('b'), data, q));
    var m := FirstStored(data);
    c := SecondStored(data, m);
    RunTwo(NEW, op, m, reply, op', c, reply');
    ops, replies := [op] + [op'], [reply] + [reply'];
  }

  lemma NewKeepsInv(ops: seq<Op>, c: Cache, replies: seq<Reply>)
    requires Run(NEW, ops, c, replies)
    ensures Inv(c)
  {
    StartsInvariant(NEW);
    hide Inv, Run;
    RunKeepsInv(NEW, ops, c, replies);
  }

  lemma ReopenedKeepsInv(c: Cache, limit: int)
    requires Inv(c)
    ensures Inv(Reopened(c, limit)) && Timed(Reopened(c, limit).disk, Reopened(c, limit).now)
  {
    StartsInvariant(Reopened(c, limit));
  }

  /** Two entries are stored with the limit two; a new process over them with the limit one can come to
      hold two in memory. */
  lemma PromotionCanOverfill(data: Data) returns (ops: seq<Op>, c: Cache, replies: seq<Reply>)
    ensures Run(NEW, ops, c, replies)
    ensures Inv(Reopened(c, 1)) && CanOverfillByLookups(Reopened(c, 1))
  {
    ops, c, replies := TwoStored(data);
    hide Inv, Timed, Run, CanOverfill, CanOverfillByLookups, Schedule, KeyOf;
    NewKeepsInv(ops, c, replies);
    ReopenedKeepsInv(c, 1);
    OverfillIff(Reopened(c, 1));
    assert |[KeyOf('a'), KeyOf('b')]| == 2;
  }
}
