/** Properties of the stream scanner over all texts, all ways of cutting them, and all runs. */
module StreamTheorems {
  import opened Matching
  import opened StreamSpec

  // ----- the tally

  lemma {:induction false} RunAppend(cap: int, t: Tally, es: seq<Event>, fs: seq<Event>)
    ensures Run(cap, t, es + fs) == Run(cap, Run(cap, t, es), fs)
    decreases |es|
  {
    if es == [] {
      assert es + fs == fs;
    } else {
      assert (es + fs)[1..] == es[1..] + fs;
      RunAppend(cap, Apply(cap, t, es[0]), es[1..], fs);
    }
  }

  lemma RunCons(cap: int, t: Tally, e: Event, es: seq<Event>)
    ensures Run(cap, t, [e] + es) == Run(cap, Apply(cap, t, e), es)
  {
    assert ([e] + es)[1..] == es;
  }

  lemma RunOne(cap: int, t: Tally, e: Event)
    ensures Run(cap, t, [e]) == Apply(cap, t, e)
  {
    assert [e][1..] == [];
  }

  /** Recording a text in two parts is recording it at once: the cap absorbs the second cut. */
  lemma RecordSplit(cap: int, t: Tally, a: string, b: string)
    ensures Record(cap, Record(cap, t, a), b) == Record(cap, t, a + b)
  {
    var ra, rab := Room(cap, t, |a|), Room(cap, t, |a + b|);
    var t' := Record(cap, t, a);
    var rb := Room(cap, t', |b|);
    if ra < |a| {
      assert rb == 0 && rab == ra;
      assert (a + b)[..rab] == a[..ra];
      assert a[..ra] + b[..rb] == a[..ra];
    } else {
      assert rab == |a| + rb;
      assert (a + b)[..rab] == a[..ra] + b[..rb];
    }
    var kept := (a + b)[..rab];
    assert kept == a[..ra] + b[..rb];
    assert t.thinking + kept == t'.thinking + b[..rb];
    assert t.block + kept == t'.block + b[..rb];
  }

  lemma TextSplit(cap: int, t: Tally, inThink: bool, a: string, b: string)
    ensures Apply(cap, Apply(cap, t, TextEvent(inThink, a)), TextEvent(inThink, b))
         == Apply(cap, t, TextEvent(inThink, a + b))
  {
    if inThink {
      RecordSplit(cap, t, a, b);
    } else {
      assert t.clean + (a + b) == (t.clean + a) + b;
    }
  }

  // ----- which tags are safe to cut anywhere

  /** Neither tag hides inside the other: the close tag does not occur in the open tag before its
      last character, and the open tag, unless the close tag begins with it, does not occur in the
      close tag before its last character. */
  ghost predicate Separable(tags: Tags)
    requires tags.Valid()
  {
    && !Occurs(tags.open[..|tags.open| - 1], tags.close)
    && (tags.open <= tags.close || !Occurs(tags.close[..|tags.close| - 1], tags.open))
  }

  /** The leftmost match in a stays the leftmost match when text is added after a. */
  lemma FindStable(a: string, b: string, p: string)
    requires Find(a, p) >= 0
    ensures Find(a + b, p) == Find(a, p)
  {
    var i := Find(a, p);
    OccursInPrefix(a, b, p, i);
    FindIsLeftmost(a + b, p, i);
    var q := Find(a + b, p);
    OccursInPrefix(a, b, p, q);
    FindIsLeftmost(a, p, q);
  }

  /** The other tag y cannot turn up at or before a match of x in a when y does not contain x. */
  lemma NoEarlierMatch(a: string, b: string, x: string, y: string, q: int)
    requires Find(a, x) >= 0 && (Find(a, y) == -1 || q < Find(a, y))
    requires y != "" && !Occurs(y[..|y| - 1], x)
    requires q <= Find(a, x)
    ensures !OccursAt(a + b, y, q)
  {
    var p := Find(a, x);
    OccursInPrefix(a, b, x, p);
    if OccursAt(a + b, y, q) {
      if q + |y| <= |a| {
        OccursInPrefix(a, b, y, q);
        FindIsLeftmost(a, y, q);
      } else {
        NestedMatch(a + b, x, y, p, q);
      }
    }
  }

  lemma NextTagStable(tags: Tags, inThink: bool, a: string, b: string)
    requires tags.Valid() && Separable(tags)
    requires !NextTag(tags, inThink, a).NoTag?
    ensures NextTag(tags, inThink, a + b) == NextTag(tags, inThink, a)
  {
    var o, c := Find(a, tags.open), Find(a, tags.close);
    if NextTag(tags, inThink, a).OpenAt? {
      FindStable(a, b, tags.open);
      var c' := Find(a + b, tags.close);
      if 0 <= c' < o {
        if tags.open <= tags.close {
          OpenBeginsClose(a + b, tags, c');
          FindIsLeftmost(a + b, tags.open, c');
        } else {
          NoEarlierMatch(a, b, tags.open, tags.close, c');
        }
      }
    } else {
      FindStable(a, b, tags.close);
      var o' := Find(a + b, tags.open);
      if !inThink && 0 <= o' <= c {
        NoEarlierMatch(a, b, tags.close, tags.open, o');
      }
    }
  }

  lemma OpenBeginsClose(s: string, tags: Tags, i: int)
    requires tags.open <= tags.close && OccursAt(s, tags.close, i)
    ensures OccursAt(s, tags.open, i)
  {
    assert s[i..i + |tags.open|] == s[i..i + |tags.close|][..|tags.open|];
  }

  // ----- holding back: x is released, h is held, b comes next

  /** p matches nowhere in x + h + b before h, once x + h holds no match and h covers its overlap. */
  lemma NoMatchBeforeHold(x: string, h: string, b: string, p: string, q: int)
    requires p != "" && Find(x + h, p) == -1 && SuffixOverlap(x + h, p) <= |h|
    requires OccursAt(x + h + b, p, q)
    ensures |x| <= q
  {
    if q < |x| {
      if q + |p| <= |x + h| {
        OccursInPrefix(x + h, b, p, q);
        FindIsLeftmost(x + h, p, q);
      } else {
        CrossingMatchOverlaps(x + h, b, p, q);
        OverlapIsLongest(x + h, p, |x + h| - q);
      }
    }
  }

  /** A match of p in x + y lies in y, when x + y has no match that begins in x. */
  lemma FindInSuffix(x: string, y: string, p: string)
    requires Find(x + y, p) == -1 || |x| <= Find(x + y, p)
    ensures Find(x + y, p) == if Find(y, p) == -1 then -1 else |x| + Find(y, p)
  {
    var q, f := Find(x + y, p), Find(y, p);
    if q >= 0 {
      OccursInSuffix(x, y, p, q - |x|);
      FindIsLeftmost(y, p, q - |x|);
    }
    if f >= 0 {
      OccursInSuffix(x, y, p, f);
      FindIsLeftmost(x + y, p, |x| + f);
    }
  }

  lemma FindAfterHold(x: string, h: string, b: string, p: string)
    requires p != "" && Find(x + h, p) == -1 && SuffixOverlap(x + h, p) <= |h|
    ensures Find(x + (h + b), p) == if Find(h + b, p) == -1 then -1 else |x| + Find(h + b, p)
  {
    assert x + h + b == x + (h + b);
    if Find(x + (h + b), p) >= 0 {
      NoMatchBeforeHold(x, h, b, p, Find(x + (h + b), p));
    }
    FindInSuffix(x, h + b, p);
  }

  /** An overlap of x + h + b lies within h + b. */
  lemma OverlapAfterHold(x: string, h: string, b: string, p: string)
    requires SuffixOverlap(x + h, p) <= |h|
    ensures SuffixOverlap(x + (h + b), p) == SuffixOverlap(h + b, p)
  {
    var k, l := SuffixOverlap(x + (h + b), p), SuffixOverlap(h + b, p);
    if k > |h + b| {
      assert x + h + b == x + (h + b);
      OverlapShortened(x + h, b, p, k);
      OverlapIsLongest(x + h, p, k - |b|);
    } else {
      OverlapOfSuffix(x, h + b, p, k);
      OverlapIsLongest(h + b, p, k);
      OverlapOfSuffix(x, h + b, p, l);
      OverlapIsLongest(x + (h + b), p, l);
    }
  }

  function Shifted(c: Cut, n: nat): Cut {
    match c
    case NoTag => NoTag
    case OpenAt(p) => OpenAt(n + p)
    case CloseAt(p) => CloseAt(n + p)
  }

  /** The first step on x + y is the first step on y, |x| characters later. */
  ghost predicate StepsAlike(tags: Tags, inThink: bool, x: string, y: string) {
    && NextTag(tags, inThink, x + y) == Shifted(NextTag(tags, inThink, y), |x|)
    && Hold(tags, inThink, x + y) == Hold(tags, inThink, y)
  }

  lemma NextTagAfterHold(tags: Tags, inThink: bool, x: string, h: string, b: string)
    requires tags.Valid() && NextTag(tags, inThink, x + h).NoTag? && Hold(tags, inThink, x + h) == |h|
    ensures NextTag(tags, inThink, x + (h + b)) == Shifted(NextTag(tags, inThink, h + b), |x|)
  {
    FindAfterHold(x, h, b, tags.close);
    if !inThink {
      FindAfterHold(x, h, b, tags.open);
    }
  }

  lemma OverlapsAfterHold(tags: Tags, inThink: bool, x: string, h: string, b: string)
    requires Hold(tags, inThink, x + h) == |h|
    ensures Hold(tags, inThink, x + (h + b)) == Hold(tags, inThink, h + b)
  {
    OverlapAfterHold(x, h, b, tags.close);
    if !inThink {
      OverlapAfterHold(x, h, b, tags.open);
    }
  }

  /** What is held back is enough: the released text has no part in any later tag. */
  lemma HoldIsEnough(tags: Tags, inThink: bool, x: string, h: string, b: string)
    requires tags.Valid() && NextTag(tags, inThink, x + h).NoTag? && Hold(tags, inThink, x + h) == |h|
    ensures StepsAlike(tags, inThink, x, h + b)
  {
    NextTagAfterHold(tags, inThink, x, h, b);
    OverlapsAfterHold(tags, inThink, x, h, b);
  }

  // ----- the cut lemma

  lemma RunPair(cap: int, t: Tally, e: Event, f: Event, es: seq<Event>)
    ensures Run(cap, t, [e, f] + es) == Run(cap, Apply(cap, Apply(cap, t, e), f), es)
  {
    assert [e, f] + es == [e] + ([f] + es);
    RunCons(cap, t, e, [f] + es);
    RunCons(cap, Apply(cap, t, e), f, es);
  }

  lemma ScanTag(cfg: Config, t: Tally, inThink: bool, s: string)
    requires cfg.tags.Valid() && !NextTag(cfg.tags, inThink, s).NoTag?
    ensures var entered := NextTag(cfg.tags, inThink, s).OpenAt?;
            var r := Scan(cfg.tags, inThink, s);
            var rest := Scan(cfg.tags, entered, Rest(cfg.tags, inThink, s));
            && r.inThink == rest.inThink && r.held == rest.held
            && Run(cfg.cap, t, r.events) == Run(cfg.cap, AfterTag(cfg, t, inThink, s), rest.events)
  {
    var c := NextTag(cfg.tags, inThink, s);
    RunPair(cfg.cap, t, TextEvent(inThink, Before(cfg.tags, inThink, s)), TagEvent(inThink, c),
            Scan(cfg.tags, c.OpenAt?, Rest(cfg.tags, inThink, s)).events);
  }

  lemma ScanNoTag(cfg: Config, t: Tally, inThink: bool, s: string)
    requires cfg.tags.Valid() && NextTag(cfg.tags, inThink, s).NoTag?
    ensures var r := Scan(cfg.tags, inThink, s);
            && r.inThink == inThink && r.held == Tail(cfg.tags, inThink, s)
            && Run(cfg.cap, t, r.events) == Apply(cfg.cap, t, TextEvent(inThink, Safe(cfg.tags, inThink, s)))
  {
    RunOne(cfg.cap, t, TextEvent(inThink, Safe(cfg.tags, inThink, s)));
  }

  /** Scanning a, then the held tail followed by b, has the outcome of scanning a + b. */
  ghost predicate ScansTogether(cfg: Config, t: Tally, inThink: bool, a: string, b: string)
    requires cfg.tags.Valid()
  {
    var ra := Scan(cfg.tags, inThink, a);
    var rb := Scan(cfg.tags, ra.inThink, ra.held + b);
    var rw := Scan(cfg.tags, inThink, a + b);
    && rw.inThink == rb.inThink && rw.held == rb.held
    && Run(cfg.cap, t, rw.events) == Run(cfg.cap, Run(cfg.cap, t, ra.events), rb.events)
  }

  lemma TagStepStable(cfg: Config, t: Tally, inThink: bool, a: string, b: string)
    requires cfg.tags.Valid() && Separable(cfg.tags)
    requires !NextTag(cfg.tags, inThink, a).NoTag?
    ensures NextTag(cfg.tags, inThink, a + b) == NextTag(cfg.tags, inThink, a)
    ensures AfterTag(cfg, t, inThink, a + b) == AfterTag(cfg, t, inThink, a)
    ensures Rest(cfg.tags, inThink, a + b) == Rest(cfg.tags, inThink, a) + b
  {
    NextTagStable(cfg.tags, inThink, a, b);
    var c := NextTag(cfg.tags, inThink, a);
    var n := c.pos + TagLength(cfg.tags, c);
    assert (a + b)[n..] == a[n..] + b;
    assert (a + b)[..c.pos] == a[..c.pos];
  }

  lemma {:induction false} ScanSplit(cfg: Config, t: Tally, inThink: bool, a: string, b: string)
    requires cfg.tags.Valid() && Separable(cfg.tags)
    ensures ScansTogether(cfg, t, inThink, a, b)
    decreases |a|
  {
    var c := NextTag(cfg.tags, inThink, a);
    if c.NoTag? {
      ScanSplitHeld(cfg, t, inThink, a, b);
    } else {
      TagStepStable(cfg, t, inThink, a, b);
      ScanSplit(cfg, AfterTag(cfg, t, inThink, a), c.OpenAt?, Rest(cfg.tags, inThink, a), b);
      ScanTag(cfg, t, inThink, a);
      ScanTag(cfg, t, inThink, a + b);
    }
  }

  lemma TakeAfter(x: string, y: string, m: nat)
    requires m <= |y|
    ensures (x + y)[..|x| + m] == x + y[..m]
  {
  }

  lemma DropAfter(x: string, y: string, m: nat)
    requires m <= |y|
    ensures (x + y)[|x| + m..] == y[m..]
  {
  }

  /** No tag in x + y: it releases x and then what y releases. */
  lemma AlikeNoTag(tags: Tags, inThink: bool, x: string, y: string)
    requires StepsAlike(tags, inThink, x, y) && NextTag(tags, inThink, y).NoTag?
    ensures Tail(tags, inThink, x + y) == Tail(tags, inThink, y)
    ensures Safe(tags, inThink, x + y) == x + Safe(tags, inThink, y)
  {
    TakeAfter(x, y, |y| - Hold(tags, inThink, y));
    DropAfter(x, y, |y| - Hold(tags, inThink, y));
  }

  /** A tag in x + y: the text before it is x and the text before the tag in y. */
  lemma AlikeTag(tags: Tags, inThink: bool, x: string, y: string)
    requires StepsAlike(tags, inThink, x, y) && !NextTag(tags, inThink, y).NoTag?
    ensures Before(tags, inThink, x + y) == x + Before(tags, inThink, y)
    ensures Rest(tags, inThink, x + y) == Rest(tags, inThink, y)
  {
    TakeAfter(x, y, NextTag(tags, inThink, y).pos);
    AlikeRest(tags, inThink, x, y);
  }

  lemma AlikeRest(tags: Tags, inThink: bool, x: string, y: string)
    requires StepsAlike(tags, inThink, x, y) && !NextTag(tags, inThink, y).NoTag?
    ensures Rest(tags, inThink, x + y) == Rest(tags, inThink, y)
  {
    var c := NextTag(tags, inThink, y);
    DropAfter(x, y, c.pos + TagLength(tags, c));
  }

  /** Scanning x + y is releasing x and scanning y. */
  lemma ScanAfterRelease(cfg: Config, t: Tally, inThink: bool, x: string, y: string)
    requires cfg.tags.Valid() && StepsAlike(cfg.tags, inThink, x, y)
    ensures var r, w := Scan(cfg.tags, inThink, y), Scan(cfg.tags, inThink, x + y);
            && w.inThink == r.inThink && w.held == r.held
            && Run(cfg.cap, t, w.events) == Run(cfg.cap, Apply(cfg.cap, t, TextEvent(inThink, x)), r.events)
  {
    var t' := Apply(cfg.cap, t, TextEvent(inThink, x));
    if NextTag(cfg.tags, inThink, y).NoTag? {
      AlikeNoTag(cfg.tags, inThink, x, y);
      TextSplit(cfg.cap, t, inThink, x, Safe(cfg.tags, inThink, y));
      ScanNoTag(cfg, t', inThink, y);
      ScanNoTag(cfg, t, inThink, x + y);
    } else {
      AlikeTag(cfg.tags, inThink, x, y);
      TextSplit(cfg.cap, t, inThink, x, Before(cfg.tags, inThink, y));
      ScanTag(cfg, t', inThink, y);
      ScanTag(cfg, t, inThink, x + y);
    }
  }

  lemma ScanSplitHeld(cfg: Config, t: Tally, inThink: bool, a: string, b: string)
    requires cfg.tags.Valid() && NextTag(cfg.tags, inThink, a).NoTag?
    ensures ScansTogether(cfg, t, inThink, a, b)
  {
    var x, h := Safe(cfg.tags, inThink, a), Tail(cfg.tags, inThink, a);
    assert x + h == a;
    assert x + (h + b) == a + b;
    HoldIsEnough(cfg.tags, inThink, x, h, b);
    ScanNoTag(cfg, t, inThink, a);
    ScanAfterRelease(cfg, t, inThink, x, h + b);
  }

  lemma {:induction false} ConcatConcat(a: seq<string>, b: seq<string>)
    ensures Concat(a + b) == Concat(a) + Concat(b)
    decreases |a|
  {
    if a == [] {
      assert a + b == b;
    } else {
      assert (a + b)[1..] == a[1..] + b;
      ConcatConcat(a[1..], b);
    }
  }

  // ----- one step of the scan loop

  /** A step that finds a tag leaves the outcome of the loop as it was and shortens the buffer; a
      step that finds none is the outcome. */
  lemma StepDrains(cfg: Config, s: Stream)
    requires cfg.tags.Valid()
    ensures var s' := Step(cfg, s);
            if NextTag(cfg.tags, s.inThink, s.buffer).NoTag? then s' == Drain(cfg, s)
            else Drain(cfg, s') == Drain(cfg, s) && |s'.buffer| < |s.buffer|
  {
    if NextTag(cfg.tags, s.inThink, s.buffer).NoTag? {
      ScanNoTag(cfg, s.tally, s.inThink, s.buffer);
    } else {
      ScanTag(cfg, s.tally, s.inThink, s.buffer);
    }
  }

  lemma DrainEmpty(cfg: Config, s: Stream)
    requires cfg.tags.Valid() && s.buffer == ""
    ensures Drain(cfg, s) == s
  {
    assert s.tally.clean + "" == s.tally.clean;
    RecordNothing(cfg.cap, s.tally);
    ScanNoTag(cfg, s.tally, s.inThink, "");
  }

  lemma RecordNone(cap: int, t: Tally, text: string)
    requires |t.thinking| >= cap
    ensures Record(cap, t, text) == t.(discarded := t.discarded + |text|)
  {
    assert text[..0] == "";
    assert t.thinking + "" == t.thinking && t.block + "" == t.block;
  }

  lemma RecordWhole(cap: int, t: Tally, text: string)
    requires |text| <= cap - |t.thinking|
    ensures Record(cap, t, text) == t.(thinking := t.thinking + text, block := t.block + text)
  {
    assert text[..|text|] == text;
  }

  lemma RecordNothing(cap: int, t: Tally)
    ensures Record(cap, t, "") == t
  {
    assert t.thinking + "" == t.thinking && t.block + "" == t.block;
  }

  /** Feeding a chunk in two parts is feeding it at once, on either channel and in any state. */
  lemma FeedSplit(cfg: Config, s: Stream, a: string, b: string, explicit: bool)
    requires cfg.tags.Valid() && Separable(cfg.tags)
    ensures Feed(cfg, Feed(cfg, s, Input(a, explicit)), Input(b, explicit)) == Feed(cfg, s, Input(a + b, explicit))
  {
    if a == "" {
      assert a + b == b;
    } else if b == "" {
      assert a + b == a;
    } else if explicit {
      RecordSplit(cfg.cap, s.tally, a, b);
      RunOne(cfg.cap, s.tally, Explicit(a));
      RunOne(cfg.cap, Record(cfg.cap, s.tally, a), Explicit(b));
      RunOne(cfg.cap, s.tally, Explicit(a + b));
    } else {
      var t := if s.explicit then CloseBlock(s.tally) else s.tally;
      assert (s.buffer + a) + b == s.buffer + (a + b);
      ScanSplit(cfg, t, s.inThink, s.buffer + a, b);
      FeedTally(cfg, s, Input(a, false));
      FeedTally(cfg, s, Input(a + b, false));
      FeedTally(cfg, Feed(cfg, s, Input(a, false)), Input(b, false));
    }
  }

  lemma FeedTally(cfg: Config, s: Stream, i: Input)
    requires cfg.tags.Valid() && i.text != "" && !i.explicit
    ensures Feed(cfg, s, i).tally
         == Run(cfg.cap, if s.explicit then CloseBlock(s.tally) else s.tally,
                Scan(cfg.tags, s.inThink, s.buffer + i.text).events)
  {
    if s.explicit {
      RunCons(cfg.cap, s.tally, ExplicitEnd, Scan(cfg.tags, s.inThink, s.buffer + i.text).events);
    }
  }

  // ----- streams with both channels

  /** The chunks with empty ones dropped and neighbours on the same channel joined. */
  function Coalesce(inputs: seq<Input>): seq<Input>
    decreases |inputs|
  {
    if inputs == [] then []
    else
      var rest := Coalesce(inputs[1..]);
      if inputs[0].text == "" then rest
      else if rest != [] && rest[0].explicit == inputs[0].explicit then
        [Input(inputs[0].text + rest[0].text, rest[0].explicit)] + rest[1..]
      else
        [inputs[0]] + rest
  }

  /** However an interleaved stream is chunked, its state depends only on its coalesced form. */
  lemma {:induction false} ChunkingIsInvisible(cfg: Config, s: Stream, inputs: seq<Input>)
    requires cfg.tags.Valid() && Separable(cfg.tags)
    ensures FeedAll(cfg, s, inputs) == FeedAll(cfg, s, Coalesce(inputs))
    decreases |inputs|
  {
    if inputs != [] {
      var i := inputs[0];
      var rest := Coalesce(inputs[1..]);
      ChunkingIsInvisible(cfg, Feed(cfg, s, i), inputs[1..]);
      if i.text != "" && rest != [] && rest[0].explicit == i.explicit {
        FeedSplit(cfg, s, i.text, rest[0].text, i.explicit);
        assert Coalesce(inputs)[1..] == rest[1..];
      } else if i.text != "" {
        assert Coalesce(inputs)[1..] == rest;
      }
    }
  }

  // ----- ordinary chunks against the whole-text parse

  lemma {:induction false} FeedChunks(cfg: Config, s: Stream, chunks: seq<string>)
    requires cfg.tags.Valid() && Separable(cfg.tags)
    ensures FeedAll(cfg, s, Ordinary(chunks)) == Feed(cfg, s, Input(Concat(chunks), false))
    decreases |chunks|
  {
    if chunks != [] {
      assert Ordinary(chunks)[1..] == Ordinary(chunks[1..]);
      FeedChunks(cfg, Feed(cfg, s, Input(chunks[0], false)), chunks[1..]);
      FeedSplit(cfg, s, chunks[0], Concat(chunks[1..]), false);
    }
  }

  lemma ParseTag(cfg: Config, t: Tally, inThink: bool, s: string)
    requires cfg.tags.Valid() && !NextTag(cfg.tags, inThink, s).NoTag?
    ensures var rest := Parse(cfg.tags, NextTag(cfg.tags, inThink, s).OpenAt?, Rest(cfg.tags, inThink, s));
            var p := Parse(cfg.tags, inThink, s);
            && p.inThink == rest.inThink
            && Run(cfg.cap, t, p.events) == Run(cfg.cap, AfterTag(cfg, t, inThink, s), rest.events)
  {
    var c := NextTag(cfg.tags, inThink, s);
    RunPair(cfg.cap, t, TextEvent(inThink, Before(cfg.tags, inThink, s)), TagEvent(inThink, c),
            Parse(cfg.tags, c.OpenAt?, Rest(cfg.tags, inThink, s)).events);
  }

  /** Releasing the held tail after a scan completes the whole-text parse. */
  lemma {:induction false} ScanThenRelease(cfg: Config, t: Tally, inThink: bool, text: string)
    requires cfg.tags.Valid()
    ensures var r := Scan(cfg.tags, inThink, text);
            var p := Parse(cfg.tags, inThink, text);
            && p.inThink == r.inThink
            && Apply(cfg.cap, Run(cfg.cap, t, r.events), TextEvent(r.inThink, r.held)) == Run(cfg.cap, t, p.events)
    decreases |text|
  {
    var c := NextTag(cfg.tags, inThink, text);
    if c.NoTag? {
      var x, h := Safe(cfg.tags, inThink, text), Tail(cfg.tags, inThink, text);
      assert text == x + h;
      TextSplit(cfg.cap, t, inThink, x, h);
      ScanNoTag(cfg, t, inThink, text);
      RunOne(cfg.cap, t, TextEvent(inThink, text));
    } else {
      ScanThenRelease(cfg, AfterTag(cfg, t, inThink, text), c.OpenAt?, Rest(cfg.tags, inThink, text));
      ScanTag(cfg, t, inThink, text);
      ParseTag(cfg, t, inThink, text);
    }
  }

  /** A text fed in one chunk and flushed is parsed as a whole, whatever the tags are. */
  lemma OneChunkIsBatch(cfg: Config, inThink: bool, text: string)
    requires cfg.tags.Valid()
    ensures Flush(cfg, Feed(cfg, Start(inThink), Input(text, false))) == Batch(cfg, inThink, text)
  {
    assert "" + text == text;
    ScanThenRelease(cfg, EMPTY, inThink, text);
    if text != "" {
      FeedTally(cfg, Start(inThink), Input(text, false));
    }
  }

  /** Every way of cutting a text gives the result of parsing it whole. */
  ghost predicate ChunkInvariant(cfg: Config)
    requires cfg.tags.Valid()
  {
    forall inThink: bool, chunks: seq<string> ::
      Streamed(cfg, inThink, chunks) == Batch(cfg, inThink, Concat(chunks))
  }

  lemma SeparableStreams(cfg: Config, inThink: bool, chunks: seq<string>)
    requires cfg.tags.Valid() && Separable(cfg.tags)
    ensures Streamed(cfg, inThink, chunks) == Batch(cfg, inThink, Concat(chunks))
  {
    FeedChunks(cfg, Start(inThink), chunks);
    OneChunkIsBatch(cfg, inThink, Concat(chunks));
  }

  // ----- tags that are not separable: a text and a cut that go wrong

  lemma ScanFirstStep(cfg: Config, inThink: bool, s: string)
    requires cfg.tags.Valid() && !NextTag(cfg.tags, inThink, s).NoTag?
    ensures Feed(cfg, Start(inThink), Input(s, false)).tally
         == Run(cfg.cap, AfterTag(cfg, EMPTY, inThink, s),
                Scan(cfg.tags, NextTag(cfg.tags, inThink, s).OpenAt?, Rest(cfg.tags, inThink, s)).events)
  {
    assert "" + s == s;
    FeedTally(cfg, Start(inThink), Input(s, false));
    ScanTag(cfg, EMPTY, inThink, s);
  }

  /** Content and stray closes are only ever added to. */
  lemma {:induction false} RunGrows(cap: int, t: Tally, es: seq<Event>)
    ensures t.clean <= Run(cap, t, es).clean && t.stray <= Run(cap, t, es).stray
    decreases |es|
  {
    if es != [] {
      RunGrows(cap, Apply(cap, t, es[0]), es[1..]);
    }
  }

  lemma {:induction false} FeedAllGrows(cfg: Config, s: Stream, inputs: seq<Input>)
    requires cfg.tags.Valid()
    ensures var r := FeedAll(cfg, s, inputs).tally; s.tally.clean <= r.clean && s.tally.stray <= r.stray
    decreases |inputs|
  {
    if inputs != [] {
      RunGrows(cfg.cap, s.tally, FeedEvents(cfg, s, inputs[0]));
      FeedAllGrows(cfg, Feed(cfg, s, inputs[0]), inputs[1..]);
    }
  }

  lemma FlushGrows(cfg: Config, s: Stream)
    ensures s.tally.clean <= Flush(cfg, s).tally.clean && s.tally.stray <= Flush(cfg, s).tally.stray
  {
  }

  /** What a first piece of text has already produced stays in the result. */
  lemma TwoPieces(cfg: Config, a: string, b: string)
    requires cfg.tags.Valid()
    ensures Concat([a, b]) == a + b
    ensures var t := Feed(cfg, Start(false), Input(a, false)).tally;
            var r := Streamed(cfg, false, [a, b]).tally;
            t.clean <= r.clean && t.stray <= r.stray
  {
    assert Concat([a, b]) == a + Concat([b]) && Concat([b]) == b + Concat([]);
    var o := Ordinary([a, b]);
    var s := Feed(cfg, Start(false), o[0]);
    FeedAllGrows(cfg, s, o[1..]);
    FlushGrows(cfg, FeedAll(cfg, s, o[1..]));
  }

  lemma FirstPieceStray(cfg: Config, a: string)
    requires cfg.tags.Valid() && Find(a, cfg.tags.close) >= 0 && Find(a, cfg.tags.open) == -1
    ensures Feed(cfg, Start(false), Input(a, false)).tally.stray >= 1
  {
    ScanFirstStep(cfg, false, a);
    RunGrows(cfg.cap, AfterTag(cfg, EMPTY, false, a), Scan(cfg.tags, false, Rest(cfg.tags, false, a)).events);
  }

  lemma FirstPieceContent(cfg: Config, a: string)
    requires cfg.tags.Valid() && Find(a, cfg.tags.open) > 0 && Find(a, cfg.tags.close) == -1
    ensures Feed(cfg, Start(false), Input(a, false)).tally.clean != ""
  {
    ScanFirstStep(cfg, false, a);
    RunGrows(cfg.cap, AfterTag(cfg, EMPTY, false, a), Scan(cfg.tags, true, Rest(cfg.tags, false, a)).events);
  }

  /** The close tag occurs in the open tag before its last character: cut the open tag right after
      that occurrence, and the first piece counts a stray close tag that the whole text has not. */
  lemma CloseInsideOpenBreaks(cfg: Config)
    requires cfg.tags.Valid() && Occurs(cfg.tags.open[..|cfg.tags.open| - 1], cfg.tags.close)
    ensures exists a: string, b: string ::
      && Streamed(cfg, false, [a, b]).tally.stray > Batch(cfg, false, Concat([a, b])).tally.stray
  {
    var text := cfg.tags.open;
    var i :| OccursAt(text[..|text| - 1], cfg.tags.close, i);
    OccursInCut(text, cfg.tags.close, i);
    var a, b := text[..i + |cfg.tags.close|], text[i + |cfg.tags.close|..];
    FindIsLeftmost(a, cfg.tags.close, i);
    FirstPieceStray(cfg, a);
    TwoPieces(cfg, a, b);
    assert a + b == text;
    WholeTag(cfg, text, OpenAt(0));
  }

  /** The open tag occurs inside the close tag but does not begin it: cut the close tag right after
      that occurrence, and the text before it is emitted as content. */
  lemma OpenInsideCloseBreaks(cfg: Config)
    requires cfg.tags.Valid() && !(cfg.tags.open <= cfg.tags.close)
    requires Occurs(cfg.tags.close[..|cfg.tags.close| - 1], cfg.tags.open)
    ensures exists a: string, b: string ::
      && Streamed(cfg, false, [a, b]).tally.clean != Batch(cfg, false, Concat([a, b])).tally.clean
  {
    var text := cfg.tags.close;
    var i :| OccursAt(text[..|text| - 1], cfg.tags.open, i);
    OccursInCut(text, cfg.tags.open, i);
    var a, b := text[..i + |cfg.tags.open|], text[i + |cfg.tags.open|..];
    FindIsLeftmost(a, cfg.tags.open, i);
    assert a + b == text;
    NotAtStart(a, b, cfg.tags.open);
    NotAtStart(text, "", cfg.tags.open);
    FirstPieceContent(cfg, a);
    TwoPieces(cfg, a, b);
    WholeTag(cfg, text, CloseAt(0));
  }

  lemma NotAtStart(a: string, b: string, p: string)
    requires !(p <= a + b)
    ensures !OccursAt(a, p, 0)
  {
  }

  /** A text that is just one tag is parsed as that tag. */
  lemma WholeTag(cfg: Config, text: string, c: Cut)
    requires cfg.tags.Valid() && text != ""
    requires || (c == OpenAt(0) && text == cfg.tags.open)
             || (c == CloseAt(0) && text == cfg.tags.close && !OccursAt(text, cfg.tags.open, 0))
    ensures Batch(cfg, false, text).tally.clean == ""
    ensures Batch(cfg, false, text).tally.stray == if c.OpenAt? then 0 else 1
  {
    assert OccursAt(text, text, 0);
    FindIsLeftmost(text, text, 0);
    assert NextTag(cfg.tags, false, text) == c;
    ParseTag(cfg, EMPTY, false, text);
    assert Rest(cfg.tags, false, text) == "";
    var mode := c.OpenAt?;
    assert NextTag(cfg.tags, mode, "").NoTag?;
    RunOne(cfg.cap, AfterTag(cfg, EMPTY, false, text), TextEvent(mode, ""));
  }

  /** Streaming agrees with the whole-text parse on every text and every way of cutting it exactly
      when the tags are separable. */
  lemma ChunkInvariantIffSeparable(cfg: Config)
    requires cfg.tags.Valid()
    ensures ChunkInvariant(cfg) <==> Separable(cfg.tags)
  {
    if Separable(cfg.tags) {
      forall inThink: bool, chunks: seq<string>
        ensures Streamed(cfg, inThink, chunks) == Batch(cfg, inThink, Concat(chunks))
      {
        SeparableStreams(cfg, inThink, chunks);
      }
    } else if Occurs(cfg.tags.open[..|cfg.tags.open| - 1], cfg.tags.close) {
      CloseInsideOpenBreaks(cfg);
      var a: string, b: string :|
        Streamed(cfg, false, [a, b]).tally.stray > Batch(cfg, false, Concat([a, b])).tally.stray;
      assert Streamed(cfg, false, [a, b]) != Batch(cfg, false, Concat([a, b]));
    } else {
      OpenInsideCloseBreaks(cfg);
      var a: string, b: string :|
        Streamed(cfg, false, [a, b]).tally.clean != Batch(cfg, false, Concat([a, b])).tally.clean;
      assert Streamed(cfg, false, [a, b]) != Batch(cfg, false, Concat([a, b]));
    }
  }
}
