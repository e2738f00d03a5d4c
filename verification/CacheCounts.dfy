/** The counters of the cache and of its entries, as callers could count them. */
module CacheCounts {
  import opened Wrappers
  import opened CacheSpec
  import opened CacheTheorems

  /** Lookups answered with an entry and without one since the last clear, and for each key the lookups
      answered with it since it was last set. */
  datatype Counts = Counts(found: nat, missed: nat, uses: map<string, nat>)

  function Counting(enabled: bool, n: Counts, op: Op, reply: Reply): Counts {
    match op
    case GetOp(key, _) =>
      if !enabled || !IsValidKey(key) then n
      else if reply.Got? && reply.entry.Some? then
        n.(found := n.found + 1, uses := n.uses[key := (if key in n.uses then n.uses[key] else 0) + 1])
      else n.(missed := n.missed + 1)
    case SetOp(key, _, _) => if enabled && IsValidKey(key) then n.(uses := n.uses[key := 0]) else n
    case ClearOp => Counts(0, 0, map[])
    case _ => n
  }

  function CountingAll(enabled: bool, n: Counts, ops: seq<Op>, replies: seq<Reply>): Counts
    requires |ops| == |replies|
    decreases |ops|
  {
    if ops == [] then n else CountingAll(enabled, Counting(enabled, n, ops[0], replies[0]), ops[1..], replies[1..])
  }

  ghost predicate Counted(c: Cache, n: Counts) {
    && c.hits == n.found && c.misses == n.missed
    && forall k :: Readable(c.disk, k) ==> k in n.uses && c.disk[k].stored.value.hitCount == n.uses[k]
  }

  /** A hit raises the count of its key by one, and says so; anything else is a miss, or not counted. */
  lemma GetStaysCounted(c: Cache, n: Counts, key: string, r: Readings)
    requires Inv(c) && Counted(c, n)
    ensures var (c', entry) := Get(c, key, r);
            && Counted(c', Counting(c.enabled, n, GetOp(key, r), Got(entry)))
            && (entry.Some? ==>
                  key in n.uses && entry.value.hitCount == n.uses[key] + 1 && entry.value.lastAccessed == r.touched)
  {
    GetIsDiskGet(c, key, r);
    hide Inv, Get, IsValidKey, Expired;
    var (c', entry) := DiskGet(c, key, r);
    var n' := Counting(c.enabled, n, GetOp(key, r), Got(entry));
    forall k | Readable(c'.disk, k)
      ensures k in n'.uses && c'.disk[k].stored.value.hitCount == n'.uses[k]
    {
      assert Readable(c.disk, k);
    }
  }

  lemma SetStaysCounted(c: Cache, n: Counts, key: string, data: Data, r: Readings, c': Cache, reply: Reply)
    requires Counted(c, n) && SetStep(c, key, data, r, c')
    ensures Counted(c', Counting(c.enabled, n, SetOp(key, data, r), reply))
  {
    hide IsValidKey, Newest;
    var d := Save(c.disk, Fresh(key, data, r), r.written);
    if c.enabled && IsValidKey(key) {
      forall k | Readable(c'.disk, k)
        ensures k == key || Readable(c.disk, k)
        ensures c'.disk[k] == d[k]
      {
      }
    }
  }

  lemma FewerFilesStayCounted(c: Cache, n: Counts, c': Cache)
    requires Counted(c, n) && c'.hits == c.hits && c'.misses == c.misses
    requires forall k :: k in c'.disk ==> k in c.disk && c'.disk[k] == c.disk[k]
    ensures Counted(c', n)
  {
    forall k | Readable(c'.disk, k)
      ensures Readable(c.disk, k)
    {
    }
  }

  lemma StepStaysCounted(c: Cache, n: Counts, op: Op, c': Cache, reply: Reply)
    requires Inv(c) && Counted(c, n) && Step(c, op, c', reply)
    ensures Counted(c', Counting(c.enabled, n, op, reply))
    ensures op.GetOp? && reply.Got? && reply.entry.Some? ==>
              var e := reply.entry.value;
              op.key in n.uses && e.hitCount == n.uses[op.key] + 1 && e.lastAccessed == op.r.touched
  {
    hide Inv, Get, SetStep, IsValidKey, MostRecent, Candidates;
    match op
    case GetOp(key, r) => GetStaysCounted(c, n, key, r);
    case SetOp(key, data, r) => SetStaysCounted(c, n, key, data, r, c', reply);
    case DeleteOp(key) => FewerFilesStayCounted(c, n, c');
    case ClearOp =>
    case StartingPointOp(_, _, _) => FewerFilesStayCounted(c, n, c');
  }

  /** Over every run hits are the lookups that were answered with an entry since the last clear, misses the
      other ones that count, and the hit count of every entry is the number of its answers since it was
      set. */
  lemma {:induction false} RunStaysCounted(c: Cache, n: Counts, ops: seq<Op>, c': Cache, replies: seq<Reply>)
    requires Inv(c) && Counted(c, n) && Run(c, ops, c', replies)
    ensures |replies| == |ops| && Counted(c', CountingAll(c.enabled, n, ops, replies))
    decreases |ops|
  {
    if ops != [] {
      hide Inv, Step, Counted, Counting;
      var m: Cache :| Step(c, ops[0], m, replies[0]) && Run(m, ops[1..], c', replies[1..]);
      StepStaysCounted(c, n, ops[0], m, replies[0]);
      StepKeepsInv(c, ops[0], m, replies[0]);
      StepKeepsSettings(c, ops[0], m, replies[0]);
      RunStaysCounted(m, Counting(c.enabled, n, ops[0], replies[0]), ops[1..], c', replies[1..]);
    }
  }
}
