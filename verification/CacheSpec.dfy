/** The two-tier response cache as a state and a step relation. */
module CacheSpec {
  import opened Wrappers

  /** What a caller stores; `details` stands for the fields that the cache only carries along. */
  datatype Data = Data(content: string, contextTag: Option<string>, details: string)

  datatype Entry = Entry(key: string, data: Data, createdAt: int, lastAccessed: int, hitCount: nat)

  /** A cache file: its modification time, and its entry when it can be read. */
  datatype File = File(mtime: int, stored: Option<Entry>)

  /** The clock readings of one operation: for the expiry check (or the creation time), for the last
      access, and for the file that is written. */
  datatype Readings = Readings(checked: int, touched: int, written: int)

  /** `disk` holds the files named llm_*.json by their stem; `now` is the latest clock reading. */
  datatype Cache = Cache(
    enabled: bool,
    ttl: int,
    limit: int,
    memory: map<string, Entry>,
    disk: map<string, File>,
    hits: nat,
    misses: nat,
    now: int)

  const KEY_PREFIX := "llm_"
  const HEX_LENGTH := 64

  predicate IsHex(c: char) {
    '0' <= c <= '9' || 'a' <= c <= 'f' || 'A' <= c <= 'F'
  }

  predicate IsValidKey(key: string) {
    && |key| == |KEY_PREFIX| + HEX_LENGTH
    && KEY_PREFIX <= key
    && forall i :: |KEY_PREFIX| <= i < |key| ==> IsHex(key[i])
  }

  predicate Expired(e: Entry, ttl: int, at: int) {
    ttl > 0 && at - e.createdAt > ttl
  }

  predicate After(now: int, r: Readings) {
    now < r.checked < r.touched < r.written
  }

  // ----- the disk tier

  /** The file of key holds a readable entry for that key. */
  predicate Readable(disk: map<string, File>, key: string) {
    key in disk && disk[key].stored.Some? && disk[key].stored.value.key == key
  }

  /** The file of key holds an entry for another key. */
  predicate Misfiled(disk: map<string, File>, key: string) {
    key in disk && disk[key].stored.Some? && disk[key].stored.value.key != key
  }

  function Save(disk: map<string, File>, e: Entry, at: int): map<string, File> {
    if IsValidKey(e.key) then disk[e.key := File(at, Some(e))] else disk
  }

  // ----- lookup

  function Touch(e: Entry, at: int): Entry {
    e.(hitCount := e.hitCount + 1, lastAccessed := at)
  }

  /** A hit: the entry is touched, kept in memory and written back. */
  function Hit(c: Cache, key: string, e: Entry, r: Readings): (Cache, Option<Entry>) {
    var e' := Touch(e, r.touched);
    (c.(memory := c.memory[key := e'], disk := Save(c.disk, e', r.written), hits := c.hits + 1, now := r.written),
     Some(e'))
  }

  /** A miss that also drops the key from both tiers. */
  function Drop(c: Cache, key: string, r: Readings): (Cache, Option<Entry>) {
    (c.(memory := c.memory - {key}, disk := c.disk - {key}, misses := c.misses + 1, now := r.written), None)
  }

  function Get(c: Cache, key: string, r: Readings): (Cache, Option<Entry>) {
    if !c.enabled || !IsValidKey(key) then (c.(now := r.written), None)
    else if key in c.memory then
      var e := c.memory[key];
      if e.key != key || Expired(e, c.ttl, r.checked) then Drop(c, key, r) else Hit(c, key, e, r)
    else if Readable(c.disk, key) then
      var e := c.disk[key].stored.value;
      if Expired(e, c.ttl, r.checked) then Drop(c, key, r) else Hit(c, key, e, r)
    else if Misfiled(c.disk, key) then Drop(c, key, r)
    else (c.(misses := c.misses + 1, now := r.written), None)
  }

  // ----- storing and eviction

  function Fresh(key: string, data: Data, r: Readings): Entry {
    Entry(key, data, r.checked, r.touched, 0)
  }

  /** kept are at most n of the keys, as many as there are, and none is older than a key left out. */
  ghost predicate Newest(times: map<string, int>, kept: set<string>, n: nat) {
    && kept <= times.Keys
    && |kept| == (if |times| <= n then |times| else n)
    && forall a, b :: a in times && a !in kept && b in kept ==> times[a] <= times[b]
  }

  function AccessTimes(memory: map<string, Entry>): map<string, int> {
    map k | k in memory :: memory[k].lastAccessed
  }

  function FileTimes(disk: map<string, File>): map<string, int> {
    map k | k in disk :: disk[k].mtime
  }

  /** after is what eviction to the limit leaves of both tiers. */
  ghost predicate Evicted(limit: int, memory: map<string, Entry>, disk: map<string, File>,
                          memory': map<string, Entry>, disk': map<string, File>)
  {
    if limit <= 0 then memory' == memory && disk' == disk
    else
      && Newest(AccessTimes(memory), memory'.Keys, limit)
      && Newest(FileTimes(disk), disk'.Keys, limit)
      && (forall k :: k in memory' ==> k in memory && memory'[k] == memory[k])
      && (forall k :: k in disk' ==> k in disk && disk'[k] == disk[k])
  }

  ghost predicate SetStep(c: Cache, key: string, data: Data, r: Readings, c': Cache) {
    if !c.enabled || !IsValidKey(key) then c' == c.(now := r.written)
    else
      var e := Fresh(key, data, r);
      && Evicted(c.limit, c.memory[key := e], Save(c.disk, e, r.written), c'.memory, c'.disk)
      && c' == c.(memory := c'.memory, disk := c'.disk, now := r.written)
  }

  // ----- dropping

  function Delete(c: Cache, key: string): Cache {
    if IsValidKey(key) then c.(memory := c.memory - {key}, disk := c.disk - {key}) else c
  }

  function Clear(c: Cache): (Cache, nat) {
    (c.(memory := map[], disk := map[], hits := 0, misses := 0), |c.memory| + |c.disk|)
  }

  // ----- starting points

  predicate Matches(e: Entry, tag: Option<string>, prefix: Option<string>) {
    || (tag.Some? && tag.value != "" && e.data.contextTag == tag)
    || (prefix.Some? && prefix.value != "" && prefix.value <= e.key)
  }

  function MemoryCandidates(c: Cache, tag: Option<string>, prefix: Option<string>, at: int): map<string, Entry> {
    map k | k in c.memory && !Expired(c.memory[k], c.ttl, at) && Matches(c.memory[k], tag, prefix) :: c.memory[k]
  }

  function DiskCandidates(c: Cache, tag: Option<string>, prefix: Option<string>, at: int): map<string, Entry> {
    map k | k in c.disk && IsValidKey(k) && Readable(c.disk, k)
            && !Expired(c.disk[k].stored.value, c.ttl, at)
            && Matches(c.disk[k].stored.value, tag, prefix) :: c.disk[k].stored.value
  }

  /** Memory first; disk only when memory has no candidate. */
  function Candidates(c: Cache, tag: Option<string>, prefix: Option<string>, at: int): map<string, Entry> {
    var m := MemoryCandidates(c, tag, prefix, at);
    if m != map[] then m else DiskCandidates(c, tag, prefix, at)
  }

  ghost predicate MostRecent(cands: map<string, Entry>, reply: Option<string>) {
    if cands == map[] then reply == None
    else exists k :: k in cands && reply == Some(cands[k].data.content)
                     && forall j :: j in cands ==> cands[j].lastAccessed <= cands[k].lastAccessed
  }

  /** Reading all files drops the misfiled ones. */
  function Purged(disk: map<string, File>): map<string, File> {
    map k | k in disk && !(IsValidKey(k) && Misfiled(disk, k)) :: disk[k]
  }

  // ----- one operation

  datatype Op =
    | GetOp(key: string, r: Readings)
    | SetOp(key: string, data: Data, r: Readings)
    | DeleteOp(key: string)
    | ClearOp
    | StartingPointOp(tag: Option<string>, prefix: Option<string>, at: int)

  datatype Reply =
    | Got(entry: Option<Entry>)
    | Stored(created: Entry)
    | Done
    | Cleared(count: nat)
    | Suggested(content: Option<string>)

  ghost predicate Step(c: Cache, op: Op, c': Cache, reply: Reply) {
    match op
    case GetOp(key, r) => After(c.now, r) && (c', reply) == (Get(c, key, r).0, Got(Get(c, key, r).1))
    case SetOp(key, data, r) => After(c.now, r) && SetStep(c, key, data, r, c') && reply == Stored(Fresh(key, data, r))
    case DeleteOp(key) => c' == Delete(c, key) && reply == Done
    case ClearOp => c' == Clear(c).0 && reply == Cleared(Clear(c).1)
    case StartingPointOp(tag, prefix, at) =>
      && c.now < at && reply.Suggested?
      && if !c.enabled then c' == c.(now := at) && reply.content == None
         else c' == c.(disk := Purged(c.disk), now := at) && MostRecent(Candidates(c, tag, prefix, at), reply.content)
  }
}
