/** What a search for a starting point answers, over whole runs, in terms of what callers have stored. */
module CacheSuggestions {
  import opened Wrappers
  import opened CacheSpec
  import opened CacheTheorems
  import opened CacheLru
  import opened CacheIdeal

  // ----- the condition, written out

  /** The key carries the tag that is asked for, or begins with the prefix; an empty tag or prefix asks for
      nothing. */
  ghost predicate AskedFor(k: string, stamp: Stamp, tag: Option<string>, prefix: Option<string>) {
    || (exists t: string :: tag == Some(t) && t != "" && stamp.data.contextTag == Some(t))
    || (exists p: string :: prefix == Some(p) && p != "" && |p| <= |k| && k[..|p|] == p)
  }

  /** A key of the list whose latest set has not outlived its time and is asked for. */
  ghost predicate IsAnswer(a: Ideal, p: Past, ttl: int, tag: Option<string>, prefix: Option<string>, at: int,
                           k: string)
  {
    && k in a.order && IsValidKey(k) && k in p.latest && k in a.files && a.files[k] == Good(p.latest[k])
    && (ttl <= 0 || at - p.latest[k].createdAt <= ttl)
    && AskedFor(k, p.latest[k], tag, prefix)
  }

  /** The content is that of the last such key of the list; without one there is none. */
  ghost predicate Answered(a: Ideal, p: Past, ttl: int, tag: Option<string>, prefix: Option<string>, at: int,
                           content: Option<string>)
  {
    match content
    case None => forall k :: !IsAnswer(a, p, ttl, tag, prefix, at, k)
    case Some(text) =>
      exists i :: 0 <= i < |a.order| && IsAnswer(a, p, ttl, tag, prefix, at, a.order[i])
        && text == p.latest[a.order[i]].data.content
        && forall j :: i < j < |a.order| ==> !IsAnswer(a, p, ttl, tag, prefix, at, a.order[j])
  }

  lemma MatchesIffAskedFor(e: Entry, tag: Option<string>, prefix: Option<string>)
    ensures Matches(e, tag, prefix) <==> AskedFor(e.key, Stamp(e.data, e.createdAt), tag, prefix)
  {
    if Matches(e, tag, prefix) {
      if tag.Some? && tag.value != "" && e.data.contextTag == tag {
        assert tag == Some(tag.value);
      } else {
        assert prefix == Some(prefix.value);
      }
    }
  }

  /** The list knows of each key what callers last set. */
  ghost predicate Agrees(a: Ideal, p: Past) {
    && (forall k :: k in a.order <==> k in a.files)
    && (forall k :: k in a.files && a.files[k].Good? ==> k in p.latest && a.files[k].stamp == p.latest[k])
  }

  lemma RefinedAgrees(c: Cache, a: Ideal, p: Past)
    requires Refines(c, a) && Faithful(c, p)
    ensures Agrees(a, p)
  {
    forall k | k in a.files && a.files[k].Good?
      ensures k in p.latest && a.files[k].stamp == p.latest[k]
    {
      assert Readable(c.disk, k);
    }
  }

  lemma MatchIsAnswer(a: Ideal, p: Past, ttl: int, tag: Option<string>, prefix: Option<string>, at: int, k: string)
    requires Agrees(a, p)
    ensures IsMatch(a.files, ttl, tag, prefix, at, k) <==> IsAnswer(a, p, ttl, tag, prefix, at, k)
  {
    hide IsValidKey, Matches, AskedFor;
    if k in a.files && a.files[k].Good? {
      MatchesIffAskedFor(Entry(k, a.files[k].stamp.data, a.files[k].stamp.createdAt, 0, 0), tag, prefix);
    }
  }

  /** Suggestion answers with the last match. */
  lemma {:induction false} SuggestionIsLast(order: seq<string>, files: map<string, Kind>, ttl: int,
                                            tag: Option<string>, prefix: Option<string>, at: int)
    ensures match Suggestion(order, files, ttl, tag, prefix, at)
            case None => forall i :: 0 <= i < |order| ==> !IsMatch(files, ttl, tag, prefix, at, order[i])
            case Some(text) =>
              exists i :: LastMatch(order, files, ttl, tag, prefix, at, i)
                          && text == files[order[i]].stamp.data.content
    decreases |order|
  {
    hide IsValidKey, Matches, Outlived;
    if order != [] {
      var n := |order| - 1;
      if IsMatch(files, ttl, tag, prefix, at, order[n]) {
        assert LastMatch(order, files, ttl, tag, prefix, at, n);
      } else {
        var before := order[..n];
        SuggestionIsLast(before, files, ttl, tag, prefix, at);
        assert forall i :: 0 <= i < n ==> before[i] == order[i];
        if Suggestion(before, files, ttl, tag, prefix, at).Some? {
          var i :| LastMatch(before, files, ttl, tag, prefix, at, i)
            && Suggestion(before, files, ttl, tag, prefix, at) == Some(files[before[i]].stamp.data.content);
          assert LastMatch(order, files, ttl, tag, prefix, at, i);
        }
      }
    }
  }

  ghost predicate LastMatch(order: seq<string>, files: map<string, Kind>, ttl: int,
                            tag: Option<string>, prefix: Option<string>, at: int, i: int)
  {
    && 0 <= i < |order| && order[i] in files && files[order[i]].Good?
    && IsMatch(files, ttl, tag, prefix, at, order[i])
    && forall j :: i < j < |order| ==> !IsMatch(files, ttl, tag, prefix, at, order[j])
  }

  lemma SuggestionIsAnswer(a: Ideal, p: Past, ttl: int, tag: Option<string>, prefix: Option<string>, at: int)
    requires Agrees(a, p)
    ensures Answered(a, p, ttl, tag, prefix, at, Suggestion(a.order, a.files, ttl, tag, prefix, at))
  {
    SuggestionIsLast(a.order, a.files, ttl, tag, prefix, at);
    forall k
      ensures IsMatch(a.files, ttl, tag, prefix, at, k) <==> IsAnswer(a, p, ttl, tag, prefix, at, k)
    {
      MatchIsAnswer(a, p, ttl, tag, prefix, at, k);
    }
    hide IsValidKey, Matches, AskedFor, Suggestion, IsMatch;
    var content := Suggestion(a.order, a.files, ttl, tag, prefix, at);
    if content.Some? {
      var i :| LastMatch(a.order, a.files, ttl, tag, prefix, at, i)
        && content.value == a.files[a.order[i]].stamp.data.content;
      assert IsAnswer(a, p, ttl, tag, prefix, at, a.order[i]);
    }
  }

  // ----- runs

  /** The reply to a search, given the list and what callers did before it. */
  ghost predicate SearchAnswers(enabled: bool, ttl: int, a: Ideal, p: Past, op: Op, reply: Reply)
    requires op.StartingPointOp?
  {
    reply.Suggested? &&
    if enabled then Answered(a, p, ttl, op.tag, op.prefix, op.at, reply.content) else reply.content == None
  }

  lemma StepAnswers(c: Cache, a: Ideal, p: Past, op: Op, c': Cache, reply: Reply)
    requires Inv(c) && Refines(c, a) && Faithful(c, p) && Step(c, op, c', reply) && op.StartingPointOp?
    ensures SearchAnswers(c.enabled, c.ttl, a, p, op, reply)
  {
    RefinedAgrees(c, a, p);
    StepRefines(c, a, op, c', reply);
    SuggestionIsAnswer(a, p, c.ttl, op.tag, op.prefix, op.at);
    hide Inv, Refines, Faithful, Step, Answered, Suggestion, Agrees, Next;
  }

  /** Over every run each search is answered like that: with the content of the last key of the list that
      carries the tag or begins with the prefix and lives, and with nothing only when there is none. */
  lemma {:induction false} EverySearchAnswers(c: Cache, a: Ideal, p: Past, ops: seq<Op>, c': Cache,
                                              replies: seq<Reply>, i: nat)
    requires Inv(c) && Refines(c, a) && Faithful(c, p) && Run(c, ops, c', replies)
    requires i < |ops| && ops[i].StartingPointOp?
    ensures |replies| == |ops|
    ensures SearchAnswers(c.enabled, c.ttl, AfterAll(c.enabled, c.ttl, c.limit, a, ops[..i]),
                          RememberAll(c.enabled, p, ops[..i]), ops[i], replies[i])
    decreases |ops|
  {
    hide Inv, Step, Refines, Faithful, Next, Remember, SearchAnswers;
    var m: Cache :| Step(c, ops[0], m, replies[0]) && Run(m, ops[1..], c', replies[1..]);
    if i == 0 {
      StepAnswers(c, a, p, ops[0], m, replies[0]);
      assert ops[..0] == [];
    } else {
      StepRefines(c, a, ops[0], m, replies[0]);
      StepKeepsInv(c, ops[0], m, replies[0]);
      StepStaysFaithful(c, p, ops[0], m, replies[0]);
      StepKeepsSettings(c, ops[0], m, replies[0]);
      EverySearchAnswers(m, Next(c.enabled, c.ttl, c.limit, a, ops[0]), Remember(c.enabled, p, ops[0]),
                         ops[1..], c', replies[1..], i - 1);
      assert ops[..i][1..] == ops[1..][..i - 1] && ops[..i][0] == ops[0];
    }
  }

  // ----- storing and searching

  lemma SearchFindsLast(m: Cache, b: Ideal, key: string, stamp: Stamp, t: string, at: int, c': Cache, reply: Reply)
    requires Inv(m) && Refines(m, b) && m.enabled && Step(m, StartingPointOp(Some(t), None, at), c', reply)
    requires b.order != [] && b.order[|b.order| - 1] == key && key in b.files && b.files[key] == Good(stamp)
    requires IsValidKey(key) && t != "" && stamp.data.contextTag == Some(t)
    requires m.ttl <= 0 || at - stamp.createdAt <= m.ttl
    ensures reply == Suggested(Some(stamp.data.content))
  {
    SuggestsLast(b, key, stamp, m.ttl, t, at);
    hide *;
    StepRefines(m, b, StartingPointOp(Some(t), None, at), c', reply);
    ReplyOfSearch(b, Some(t), None, at, m.ttl, reply);
  }

  /** After storing, the key is the last of the list. */
  lemma StoredIsNewest(c: Cache, key: string, data: Data, r: Readings, m: Cache, stored: Reply) returns (b: Ideal)
    requires Inv(c) && c.enabled && IsValidKey(key) && Step(c, SetOp(key, data, r), m, stored)
    ensures Inv(m) && Refines(m, b) && m.enabled && m.ttl == c.ttl
    ensures b.order != [] && b.order[|b.order| - 1] == key
    ensures key in b.files && b.files[key] == Good(Stamp(data, r.checked))
  {
    ListExists(c);
    hide *;
    var a: Ideal :| Refines(c, a);
    var op := SetOp(key, data, r);
    StepKeepsInv(c, op, m, stored);
    StepKeepsSettings(c, op, m, stored);
    StepRefines(c, a, op, m, stored);
    b := Next(c.enabled, c.ttl, c.limit, a, op);
    NextOfSet(a, key, data, r, c.enabled, c.ttl, c.limit);
    StoredIsLast(a, key, Good(Stamp(data, r.checked)), c.limit);
  }

  /** What was stored with a tag is what a search for that tag finds next, within the time to live. */
  lemma StoredIsFound(c: Cache, key: string, data: Data, r: Readings, m: Cache, stored: Reply,
                      t: string, at: int, c': Cache, reply: Reply)
    requires Inv(c) && c.enabled && IsValidKey(key) && t != "" && data.contextTag == Some(t)
    requires Step(c, SetOp(key, data, r), m, stored) && Step(m, StartingPointOp(Some(t), None, at), c', reply)
    requires c.ttl <= 0 || at - r.checked <= c.ttl
    ensures reply == Suggested(Some(data.content))
  {
    hide *;
    var b := StoredIsNewest(c, key, data, r, m, stored);
    SearchFindsLast(m, b, key, Stamp(data, r.checked), t, at, c', reply);
  }

  lemma NextOfSet(a: Ideal, key: string, data: Data, r: Readings, enabled: bool, ttl: int, limit: int)
    requires enabled && IsValidKey(key)
    ensures Next(enabled, ttl, limit, a, SetOp(key, data, r)) == Cut(Used(a, key, Good(Stamp(data, r.checked))), limit)
  {
  }

  lemma ReplyOfSearch(b: Ideal, tag: Option<string>, prefix: Option<string>, at: int, ttl: int, reply: Reply)
    requires RepliesAs(true, ttl, b, StartingPointOp(tag, prefix, at), reply)
    ensures reply == Suggested(Suggestion(b.order, b.files, ttl, tag, prefix, at))
  {
  }

  lemma StoredIsLast(a: Ideal, key: string, kind: Kind, limit: int)
    ensures var b := Cut(Used(a, key, kind), limit);
            b.order != [] && b.order[|b.order| - 1] == key && key in b.files && b.files[key] == kind
  {
    var u := Used(a, key, kind);
    assert u.order[|u.order| - 1] == key;
    if limit > 0 && |u.order| > limit {
      var order := Last(u.order, limit);
      assert order[|order| - 1] == key;
    }
  }

  lemma SuggestsLast(b: Ideal, key: string, stamp: Stamp, ttl: int, t: string, at: int)
    requires b.order != [] && b.order[|b.order| - 1] == key && key in b.files && b.files[key] == Good(stamp)
    requires IsValidKey(key) && t != "" && stamp.data.contextTag == Some(t) && (ttl <= 0 || at - stamp.createdAt <= ttl)
    ensures Suggestion(b.order, b.files, ttl, Some(t), None, at) == Some(stamp.data.content)
  {
    hide IsValidKey;
    assert IsMatch(b.files, ttl, Some(t), None, at, key);
  }

  /** Valid keys, written out: the four characters llm_ and 64 hexadecimal ones. */
  lemma ValidKeys(key: string)
    ensures IsValidKey(key) <==>
              |key| == 68 && key[0] == 'l' && key[1] == 'l' && key[2] == 'm' && key[3] == '_'
              && forall i :: 4 <= i < 68 ==> key[i] in "0123456789abcdefABCDEF"
  {
    forall c: char
      ensures IsHex(c) <==> c in "0123456789abcdefABCDEF"
    {
      HexListed(c);
    }
    if |key| == 68 {
      assert key[..4] == [key[0], key[1], key[2], key[3]];
    }
  }

  lemma HexListed(c: char)
    ensures IsHex(c) <==> c in "0123456789abcdefABCDEF"
  {
    var all := "0123456789abcdefABCDEF";
    if IsHex(c) {
      var i := if c <= '9' then c as int - '0' as int else if c >= 'a' then 10 + (c as int - 'a' as int)
               else 16 + (c as int - 'A' as int);
      assert all[i] == c;
    }
  }
}
