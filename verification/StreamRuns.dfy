/** What holds at every point of every run, for any tags. */
module StreamRuns {
  import opened Matching
  import opened StreamSpec
  import opened StreamTheorems

  // ----- reading an event list back

  function RenderEvent(tags: Tags, e: Event): string {
    match e
    case Content(text) => text
    case Thought(text) => text
    case OpenTag => tags.open
    case CloseTag => tags.close
    case StrayClose => tags.close
    case Explicit(_) => ""
    case ExplicitEnd => ""
  }

  function Render(tags: Tags, es: seq<Event>): string
    decreases |es|
  {
    if es == [] then "" else RenderEvent(tags, es[0]) + Render(tags, es[1..])
  }

  function Contents(es: seq<Event>): string
    decreases |es|
  {
    if es == [] then "" else (if es[0].Content? then es[0].text else "") + Contents(es[1..])
  }

  /** The full thought stream, before the cap. */
  function Thoughts(es: seq<Event>): string
    decreases |es|
  {
    if es == [] then ""
    else (if es[0].Thought? || es[0].Explicit? then es[0].text else "") + Thoughts(es[1..])
  }

  function Strays(es: seq<Event>): nat
    decreases |es|
  {
    if es == [] then 0 else (if es[0].StrayClose? then 1 else 0) + Strays(es[1..])
  }

  /** The ordinary chunks of a stream, joined. */
  function OrdinaryText(inputs: seq<Input>): string
    decreases |inputs|
  {
    if inputs == [] then "" else (if inputs[0].explicit then "" else inputs[0].text) + OrdinaryText(inputs[1..])
  }

  lemma {:induction false} RenderAppend(tags: Tags, es: seq<Event>, fs: seq<Event>)
    ensures Render(tags, es + fs) == Render(tags, es) + Render(tags, fs)
    decreases |es|
  {
    if es == [] {
      assert es + fs == fs;
    } else {
      assert (es + fs)[1..] == es[1..] + fs;
      RenderAppend(tags, es[1..], fs);
    }
  }

  // ----- nothing is lost

  lemma RenderOne(tags: Tags, e: Event)
    ensures Render(tags, [e]) == RenderEvent(tags, e)
  {
    assert [e][1..] == [];
  }

  lemma RenderPair(tags: Tags, e: Event, f: Event, es: seq<Event>)
    ensures Render(tags, [e, f] + es) == RenderEvent(tags, e) + (RenderEvent(tags, f) + Render(tags, es))
  {
    assert ([e, f] + es)[1..] == [f] + es;
    assert ([f] + es)[1..] == es;
  }

  lemma SplitAtTag(tags: Tags, inThink: bool, s: string)
    requires !NextTag(tags, inThink, s).NoTag?
    ensures s == Before(tags, inThink, s)
               + (RenderEvent(tags, TagEvent(inThink, NextTag(tags, inThink, s))) + Rest(tags, inThink, s))
  {
  }

  lemma Regroup(a: string, b: string, c: string, d: string)
    ensures a + (b + c) + d == a + (b + (c + d))
  {
  }

  lemma {:induction false} ScanLossless(tags: Tags, inThink: bool, s: string)
    requires tags.Valid()
    ensures Render(tags, Scan(tags, inThink, s).events) + Scan(tags, inThink, s).held == s
    decreases |s|
  {
    var c := NextTag(tags, inThink, s);
    if c.NoTag? {
      RenderOne(tags, TextEvent(inThink, Safe(tags, inThink, s)));
      assert Safe(tags, inThink, s) + Tail(tags, inThink, s) == s;
    } else {
      var r := Scan(tags, c.OpenAt?, Rest(tags, inThink, s));
      ScanLossless(tags, c.OpenAt?, Rest(tags, inThink, s));
      var e, f := TextEvent(inThink, Before(tags, inThink, s)), TagEvent(inThink, c);
      RenderPair(tags, e, f, r.events);
      Regroup(RenderEvent(tags, e), RenderEvent(tags, f), Render(tags, r.events), r.held);
      SplitAtTag(tags, inThink, s);
    }
  }

  /** At every point of every run the events found so far, read back as text, followed by the held
      buffer, are exactly the ordinary chunks that were fed. */
  lemma {:induction false} ScanLosesNothing(cfg: Config, s: Stream, inputs: seq<Input>)
    requires cfg.tags.Valid()
    ensures Render(cfg.tags, Trace(cfg, s, inputs)) + FeedAll(cfg, s, inputs).buffer
         == s.buffer + OrdinaryText(inputs)
    decreases |inputs|
  {
    if inputs == [] {
      assert s.buffer + "" == "" + s.buffer;
    } else {
      var i := inputs[0];
      var s' := Feed(cfg, s, i);
      var es, rest := FeedEvents(cfg, s, i), Trace(cfg, s', inputs[1..]);
      ScanLosesNothing(cfg, s', inputs[1..]);
      FeedLossless(cfg, s, i);
      RenderAppend(cfg.tags, es, rest);
      Chain(Render(cfg.tags, es), Render(cfg.tags, rest), FeedAll(cfg, s, inputs).buffer, s'.buffer,
            s.buffer, if i.explicit then "" else i.text, OrdinaryText(inputs[1..]));
    }
  }

  lemma Chain(a: string, b: string, c: string, h: string, g: string, x: string, y: string)
    requires a + h == g + x && b + c == h + y
    ensures (a + b) + c == g + (x + y)
  {
    assert (a + b) + c == a + (b + c);
    assert a + (h + y) == (a + h) + y;
    assert (g + x) + y == g + (x + y);
  }

  lemma FeedLossless(cfg: Config, s: Stream, i: Input)
    requires cfg.tags.Valid()
    ensures Render(cfg.tags, FeedEvents(cfg, s, i)) + Feed(cfg, s, i).buffer
         == s.buffer + if i.explicit then "" else i.text
  {
    if i.text == "" {
      assert "" + s.buffer == s.buffer + "";
    } else if i.explicit {
      RenderOne(cfg.tags, Explicit(i.text));
      assert "" + s.buffer == s.buffer + "";
    } else {
      ScanLossless(cfg.tags, s.inThink, s.buffer + i.text);
      RenderUnmarked(cfg.tags, Scan(cfg.tags, s.inThink, s.buffer + i.text).events);
    }
  }

  lemma RenderUnmarked(tags: Tags, es: seq<Event>)
    ensures Render(tags, [ExplicitEnd] + es) == Render(tags, es)
  {
    assert ([ExplicitEnd] + es)[1..] == es;
    assert "" + Render(tags, es) == Render(tags, es);
  }

  /** The tally at any point is the fold of the events found so far. */
  lemma {:induction false} TallyIsFoldOfTrace(cfg: Config, s: Stream, inputs: seq<Input>)
    requires cfg.tags.Valid()
    ensures FeedAll(cfg, s, inputs).tally == Run(cfg.cap, s.tally, Trace(cfg, s, inputs))
    decreases |inputs|
  {
    if inputs != [] {
      TallyIsFoldOfTrace(cfg, Feed(cfg, s, inputs[0]), inputs[1..]);
      RunAppend(cfg.cap, s.tally, FeedEvents(cfg, s, inputs[0]), Trace(cfg, Feed(cfg, s, inputs[0]), inputs[1..]));
    }
  }

  /** Clean content is the content events, in order; the stray count is their number. */
  lemma {:induction false} CleanIsContents(cap: int, t: Tally, es: seq<Event>)
    ensures Run(cap, t, es).clean == t.clean + Contents(es)
    ensures Run(cap, t, es).stray == t.stray + Strays(es)
    decreases |es|
  {
    if es != [] {
      CleanIsContents(cap, Apply(cap, t, es[0]), es[1..]);
      var x := if es[0].Content? then es[0].text else "";
      assert t.clean + x + Contents(es[1..]) == t.clean + (x + Contents(es[1..]));
    }
  }

  // ----- what is held back

  /** Text since the last tag after e, given the text since the last tag before it. */
  function TrailingStep(before: string, e: Event): string {
    match e
    case Content(text) => before + text
    case Thought(text) => before + text
    case OpenTag => ""
    case CloseTag => ""
    case StrayClose => ""
    case Explicit(_) => before
    case ExplicitEnd => before
  }

  function Trailing(before: string, es: seq<Event>): string
    decreases |es|
  {
    if es == [] then before else Trailing(TrailingStep(before, es[0]), es[1..])
  }

  lemma TrailingCons(before: string, e: Event, es: seq<Event>)
    ensures Trailing(before, [e] + es) == Trailing(TrailingStep(before, e), es)
  {
    assert ([e] + es)[1..] == es;
  }

  lemma {:induction false} TrailingAppend(before: string, es: seq<Event>, fs: seq<Event>)
    ensures Trailing(before, es + fs) == Trailing(Trailing(before, es), fs)
    decreases |es|
  {
    if es == [] {
      assert es + fs == fs;
    } else {
      assert (es + fs)[1..] == es[1..] + fs;
      TrailingAppend(TrailingStep(before, es[0]), es[1..], fs);
    }
  }

  /** x was released since the last tag: together with the buffer it holds no tag, and the buffer is
      its longest suffix that may be the start of one. */
  ghost predicate HeldFrom(tags: Tags, x: string, inThink: bool, buffer: string) {
    && NextTag(tags, inThink, x + buffer).NoTag?
    && buffer == Tail(tags, inThink, x + buffer)
  }

  lemma {:induction false} ScanHolds(tags: Tags, inThink: bool, x: string, y: string)
    requires tags.Valid() && StepsAlike(tags, inThink, x, y)
    ensures var r := Scan(tags, inThink, y);
            HeldFrom(tags, Trailing(x, r.events), r.inThink, r.held)
    decreases |y|
  {
    var c := NextTag(tags, inThink, y);
    if c.NoTag? {
      ReleaseHolds(tags, inThink, x, y);
    } else {
      var rest := Rest(tags, inThink, y);
      assert "" + rest == rest;
      ScanHolds(tags, c.OpenAt?, "", rest);
      TrailingTagStep(x, TextEvent(inThink, Before(tags, inThink, y)), TagEvent(inThink, c),
                      Scan(tags, c.OpenAt?, rest).events);
    }
  }

  lemma ReleaseHolds(tags: Tags, inThink: bool, x: string, y: string)
    requires StepsAlike(tags, inThink, x, y) && NextTag(tags, inThink, y).NoTag?
    ensures var safe := Safe(tags, inThink, y);
            && Trailing(x, [TextEvent(inThink, safe)]) == x + safe
            && HeldFrom(tags, x + safe, inThink, Tail(tags, inThink, y))
  {
    var safe, held := Safe(tags, inThink, y), Tail(tags, inThink, y);
    TrailingCons(x, TextEvent(inThink, safe), []);
    assert x + safe + held == x + y by {
      assert safe + held == y;
      Reassociate(x, safe, held);
    }
    AlikeNoTag(tags, inThink, x, y);
  }

  lemma Reassociate(a: string, b: string, c: string)
    ensures (a + b) + c == a + (b + c)
  {
  }

  lemma TrailingTagStep(x: string, e: Event, f: Event, es: seq<Event>)
    requires f.OpenTag? || f.CloseTag? || f.StrayClose?
    ensures Trailing(x, [e, f] + es) == Trailing("", es)
  {
    assert [e, f] + es == [e] + ([f] + es);
    TrailingCons(x, e, [f] + es);
    TrailingCons(TrailingStep(x, e), f, es);
  }

  lemma FeedTrailing(cfg: Config, s: Stream, x: string, i: Input)
    requires cfg.tags.Valid()
    ensures Trailing(x, FeedEvents(cfg, s, i))
         == if i.explicit || i.text == "" then x else Trailing(x, Scan(cfg.tags, s.inThink, s.buffer + i.text).events)
  {
    if i.text != "" && i.explicit {
      TrailingCons(x, Explicit(i.text), []);
      assert [Explicit(i.text)] + [] == [Explicit(i.text)];
    } else if i.text != "" {
      TrailingCons(x, ExplicitEnd, Scan(cfg.tags, s.inThink, s.buffer + i.text).events);
    }
  }

  lemma FeedHolds(cfg: Config, s: Stream, x: string, i: Input)
    requires cfg.tags.Valid() && HeldFrom(cfg.tags, x, s.inThink, s.buffer)
    ensures var s' := Feed(cfg, s, i);
            HeldFrom(cfg.tags, Trailing(x, FeedEvents(cfg, s, i)), s'.inThink, s'.buffer)
  {
    FeedTrailing(cfg, s, x, i);
    if i.text != "" && !i.explicit {
      HoldIsEnough(cfg.tags, s.inThink, x, s.buffer, i.text);
      ScanHolds(cfg.tags, s.inThink, x, s.buffer + i.text);
    }
  }

  /** At every point of every run the buffer is the longest suffix of the text since the last tag
      that may be the start of a tag the mode waits for, and that text holds no such tag. */
  lemma {:induction false} BufferIsLongestHold(cfg: Config, s: Stream, x: string, inputs: seq<Input>)
    requires cfg.tags.Valid() && HeldFrom(cfg.tags, x, s.inThink, s.buffer)
    ensures var r := FeedAll(cfg, s, inputs);
            HeldFrom(cfg.tags, Trailing(x, Trace(cfg, s, inputs)), r.inThink, r.buffer)
    decreases |inputs|
  {
    if inputs != [] {
      FeedHolds(cfg, s, x, inputs[0]);
      var es, s' := FeedEvents(cfg, s, inputs[0]), Feed(cfg, s, inputs[0]);
      BufferIsLongestHold(cfg, s', Trailing(x, es), inputs[1..]);
      TrailingAppend(x, es, Trace(cfg, s', inputs[1..]));
    }
  }

  /** So output lags behind input by less than the longest awaited tag, and what lags is a proper
      prefix of such a tag. */
  lemma DelayIsBounded(cfg: Config, inThink: bool, inputs: seq<Input>)
    requires cfg.tags.Valid()
    ensures var r := FeedAll(cfg, Start(inThink), inputs);
            || (r.buffer < cfg.tags.close)
            || (!r.inThink && r.buffer < cfg.tags.open)
  {
    var s := Start(inThink);
    assert NextTag(cfg.tags, inThink, "").NoTag?;
    assert "" + "" == "";
    BufferIsLongestHold(cfg, s, "", inputs);
    var r := FeedAll(cfg, s, inputs);
    var u := Trailing("", Trace(cfg, s, inputs)) + r.buffer;
    if Hold(cfg.tags, r.inThink, u) == SuffixOverlap(u, cfg.tags.close) {
      assert r.buffer == cfg.tags.close[..|r.buffer|];
    } else {
      assert r.buffer == cfg.tags.open[..|r.buffer|];
    }
  }

  // ----- the cap and the blocks

  function KeptLength(cap: int, n: nat): nat {
    if cap <= 0 then 0 else if n <= cap then n else cap
  }

  /** The tally t accounts for the thought stream th: it keeps a prefix up to the cap, counts the
      rest, and its blocks and open block make up what it keeps. */
  ghost predicate Accounts(cap: int, t: Tally, th: string) {
    && t.thinking == th[..KeptLength(cap, |th|)]
    && t.discarded == |th| - |t.thinking|
    && Concat(t.blocks) + t.block == t.thinking
    && "" !in t.blocks
  }

  lemma ConcatAppend(parts: seq<string>, last: string)
    ensures Concat(parts + [last]) == Concat(parts) + last
  {
    ConcatConcat(parts, [last]);
    assert Concat([last]) == last + "";
  }

  lemma CloseBlockAccounts(cap: int, t: Tally, th: string)
    requires Accounts(cap, t, th)
    ensures Accounts(cap, CloseBlock(t), th)
  {
    ConcatAppend(t.blocks, t.block);
  }

  lemma RecordAccounts(cap: int, t: Tally, th: string, text: string)
    requires Accounts(cap, t, th)
    ensures Accounts(cap, Record(cap, t, text), th + text)
  {
    var r := Room(cap, t, |text|);
    var n := KeptLength(cap, |th|);
    if n < |th| {
      assert r == 0;
      assert (th + text)[..n] == th[..n];
    } else {
      assert (th + text)[..n + r] == th + text[..r];
    }
    assert t.thinking + text[..r] == (th + text)[..KeptLength(cap, |th + text|)];
    assert Concat(t.blocks) + (t.block + text[..r]) == t.thinking + text[..r];
  }

  lemma {:induction false} RunAccounts(cap: int, t: Tally, th: string, es: seq<Event>)
    requires Accounts(cap, t, th)
    ensures Accounts(cap, Run(cap, t, es), th + Thoughts(es))
    decreases |es|
  {
    if es == [] {
      assert th + "" == th;
    } else {
      var e := es[0];
      var x := if e.Thought? || e.Explicit? then e.text else "";
      if e.Thought? || e.Explicit? {
        RecordAccounts(cap, t, th, e.text);
      } else {
        assert th + x == th;
        CloseBlockAccounts(cap, t, th);
      }
      RunAccounts(cap, Apply(cap, t, e), th + x, es[1..]);
      assert th + x + Thoughts(es[1..]) == th + (x + Thoughts(es[1..]));
    }
  }

  /** At every point of every run the kept thought text is the first cap characters of the thought
      stream, the discarded count is the rest, and the blocks make it up. */
  lemma ThoughtAccounting(cfg: Config, inThink: bool, inputs: seq<Input>)
    requires cfg.tags.Valid()
    ensures Accounts(cfg.cap, FeedAll(cfg, Start(inThink), inputs).tally, Thoughts(Trace(cfg, Start(inThink), inputs)))
  {
    TallyIsFoldOfTrace(cfg, Start(inThink), inputs);
    RunAccounts(cfg.cap, EMPTY, "", Trace(cfg, Start(inThink), inputs));
    var th := Thoughts(Trace(cfg, Start(inThink), inputs));
    assert "" + th == th;
  }

  /** After the flush the blocks alone make up the kept thought text. */
  lemma FlushedBlocks(cfg: Config, s: Stream, th: string)
    requires Accounts(cfg.cap, s.tally, th)
    ensures var r := Flush(cfg, s).tally;
            && Accounts(cfg.cap, r, th + if s.inThink then s.buffer else "")
            && r.block == "" && Concat(r.blocks) == r.thinking
  {
    CloseBlockAccounts(cfg.cap, s.tally, th);
    var t := if s.explicit then CloseBlock(s.tally) else s.tally;
    if s.inThink {
      RecordAccounts(cfg.cap, t, th, s.buffer);
    } else {
      assert th + "" == th;
    }
    var t' := Apply(cfg.cap, t, TextEvent(s.inThink, s.buffer));
    CloseBlockAccounts(cfg.cap, t', th + if s.inThink then s.buffer else "");
    var r := Flush(cfg, s).tally;
    assert r.block == "";
    assert Concat(r.blocks) + "" == Concat(r.blocks);
  }

  // ----- the explicit channel

  /** What a reader of the answer sees of a stream. */
  function Visible(s: Stream): (bool, string, string, nat) {
    (s.inThink, s.buffer, s.tally.clean, s.tally.stray)
  }

  function DropExplicit(inputs: seq<Input>): seq<Input>
    decreases |inputs|
  {
    if inputs == [] then []
    else if inputs[0].explicit then DropExplicit(inputs[1..])
    else [inputs[0]] + DropExplicit(inputs[1..])
  }

  lemma ExplicitEndUnseen(es: seq<Event>)
    ensures Contents([ExplicitEnd] + es) == Contents(es) && Strays([ExplicitEnd] + es) == Strays(es)
  {
    assert ([ExplicitEnd] + es)[1..] == es;
    assert "" + Contents(es) == Contents(es);
  }

  lemma FeedVisible(cfg: Config, s: Stream, s': Stream, i: Input)
    requires cfg.tags.Valid() && Visible(s) == Visible(s')
    ensures i.explicit ==> Visible(Feed(cfg, s, i)) == Visible(s')
    ensures !i.explicit ==> Visible(Feed(cfg, s, i)) == Visible(Feed(cfg, s', i))
  {
    if i.text != "" {
      CleanIsContents(cfg.cap, s.tally, FeedEvents(cfg, s, i));
      CleanIsContents(cfg.cap, s'.tally, FeedEvents(cfg, s', i));
      if i.explicit {
        assert Contents([Explicit(i.text)]) == "" + Contents([]) && Strays([Explicit(i.text)]) == 0;
      } else {
        ExplicitEndUnseen(Scan(cfg.tags, s.inThink, s.buffer + i.text).events);
      }
    }
  }

  lemma FlushVisible(cfg: Config, s: Stream, s': Stream)
    requires Visible(s) == Visible(s')
    ensures Visible(Flush(cfg, s)) == Visible(Flush(cfg, s'))
  {
  }

  /** Chunks on the explicit channel, anywhere in a stream, change neither the clean content nor the
      stray count nor the mode nor what is held back. */
  lemma {:induction false} ExplicitIsInvisible(cfg: Config, s: Stream, s': Stream, inputs: seq<Input>)
    requires cfg.tags.Valid() && Visible(s) == Visible(s')
    ensures Visible(FeedAll(cfg, s, inputs)) == Visible(FeedAll(cfg, s', DropExplicit(inputs)))
    ensures Visible(Flush(cfg, FeedAll(cfg, s, inputs))) == Visible(Flush(cfg, FeedAll(cfg, s', DropExplicit(inputs))))
    decreases |inputs|
  {
    if inputs == [] {
      FlushVisible(cfg, s, s');
    } else {
      var i := inputs[0];
      FeedVisible(cfg, s, s', i);
      if i.explicit {
        ExplicitIsInvisible(cfg, Feed(cfg, s, i), s', inputs[1..]);
      } else {
        assert DropExplicit(inputs)[1..] == DropExplicit(inputs[1..]);
        ExplicitIsInvisible(cfg, Feed(cfg, s, i), Feed(cfg, s', i), inputs[1..]);
      }
    }
  }

  // ----- streams that end inside a block

  /** Of the tags found so far the last one that counts is an open tag; without any, the stream began
      inside a block. */
  predicate EndsInside(inThink: bool, es: seq<Event>)
    decreases |es|
  {
    if es == [] then inThink
    else match es[|es| - 1]
      case OpenTag => true
      case CloseTag => false
      case _ => EndsInside(inThink, es[..|es| - 1])
  }

  lemma {:induction false} EndsAppend(inThink: bool, es: seq<Event>, fs: seq<Event>)
    ensures EndsInside(inThink, es + fs) == EndsInside(EndsInside(inThink, es), fs)
    decreases |fs|
  {
    if fs == [] {
      assert es + fs == es;
    } else {
      var n := |fs| - 1;
      assert (es + fs)[..|es + fs| - 1] == es + fs[..n];
      EndsAppend(inThink, es, fs[..n]);
    }
  }

  lemma EndsAfterPair(inThink: bool, e: Event, f: Event)
    requires !e.OpenTag? && !e.CloseTag?
    ensures EndsInside(inThink, [e]) == inThink
    ensures EndsInside(inThink, [e, f]) == if f.OpenTag? then true else if f.CloseTag? then false else inThink
  {
    assert [e][..0] == [] && [e, f][..1] == [e];
  }

  lemma {:induction false} ScanEnds(tags: Tags, inThink: bool, s: string)
    requires tags.Valid()
    ensures Scan(tags, inThink, s).inThink == EndsInside(inThink, Scan(tags, inThink, s).events)
    decreases |s|
  {
    var c := NextTag(tags, inThink, s);
    if c.NoTag? {
      EndsAfterPair(inThink, TextEvent(inThink, Safe(tags, inThink, s)), OpenTag);
    } else {
      var e, f := TextEvent(inThink, Before(tags, inThink, s)), TagEvent(inThink, c);
      var rest := Scan(tags, c.OpenAt?, Rest(tags, inThink, s));
      ScanEnds(tags, c.OpenAt?, Rest(tags, inThink, s));
      EndsAfterPair(inThink, e, f);
      EndsAppend(inThink, [e, f], rest.events);
    }
  }

  lemma FeedEnds(cfg: Config, s: Stream, i: Input)
    requires cfg.tags.Valid()
    ensures Feed(cfg, s, i).inThink == EndsInside(s.inThink, FeedEvents(cfg, s, i))
    ensures Feed(cfg, s, i).unclosed == s.unclosed
  {
    if i.text != "" {
      if i.explicit {
        EndsAfterPair(s.inThink, Explicit(i.text), OpenTag);
      } else {
        ScanEnds(cfg.tags, s.inThink, s.buffer + i.text);
        EndsAfterPair(s.inThink, ExplicitEnd, OpenTag);
        EndsAppend(s.inThink, [ExplicitEnd], Scan(cfg.tags, s.inThink, s.buffer + i.text).events);
      }
    }
  }

  /** At every point of every run the mode is that of the last open or close tag. */
  lemma {:induction false} ModeIsOfLastTag(cfg: Config, s: Stream, inputs: seq<Input>)
    requires cfg.tags.Valid()
    ensures FeedAll(cfg, s, inputs).inThink == EndsInside(s.inThink, Trace(cfg, s, inputs))
    ensures FeedAll(cfg, s, inputs).unclosed == s.unclosed
    decreases |inputs|
  {
    if inputs != [] {
      var s' := Feed(cfg, s, inputs[0]);
      FeedEnds(cfg, s, inputs[0]);
      ModeIsOfLastTag(cfg, s', inputs[1..]);
      EndsAppend(s.inThink, FeedEvents(cfg, s, inputs[0]), Trace(cfg, s', inputs[1..]));
    }
  }

  /** The flush reports an unclosed stream exactly when a block is still open. */
  lemma UnclosedIffInside(cfg: Config, inThink: bool, inputs: seq<Input>)
    requires cfg.tags.Valid()
    ensures Flush(cfg, FeedAll(cfg, Start(inThink), inputs)).unclosed
       <==> EndsInside(inThink, Trace(cfg, Start(inThink), inputs))
  {
    ModeIsOfLastTag(cfg, Start(inThink), inputs);
  }

  // ----- cleaning a text twice

  function Cleaned(cfg: Config, text: string): string
    requires cfg.tags.Valid()
  {
    Batch(cfg, false, text).tally.clean
  }

  lemma {:induction false} ContentsAreRendered(tags: Tags, es: seq<Event>)
    ensures |Contents(es)| <= |Render(tags, es)|
    decreases |es|
  {
    if es != [] {
      ContentsAreRendered(tags, es[1..]);
    }
  }

  lemma {:induction false} ParseLossless(tags: Tags, inThink: bool, s: string)
    requires tags.Valid()
    ensures Render(tags, Parse(tags, inThink, s).events) == s
    decreases |s|
  {
    var c := NextTag(tags, inThink, s);
    if c.NoTag? {
      RenderOne(tags, TextEvent(inThink, s));
    } else {
      var es := Parse(tags, c.OpenAt?, Rest(tags, inThink, s)).events;
      ParseLossless(tags, c.OpenAt?, Rest(tags, inThink, s));
      RenderPair(tags, TextEvent(inThink, Before(tags, inThink, s)), TagEvent(inThink, c), es);
      SplitAtTag(tags, inThink, s);
    }
  }

  /** Cleaning leaves a text alone exactly when the text holds neither tag, and otherwise shortens
      it. */
  lemma CleanedIsFixedIffNoTag(cfg: Config, text: string)
    requires cfg.tags.Valid()
    ensures Cleaned(cfg, text) == text <==> NextTag(cfg.tags, false, text).NoTag?
    ensures !NextTag(cfg.tags, false, text).NoTag? ==> |Cleaned(cfg, text)| < |text|
  {
    var es := Parse(cfg.tags, false, text).events;
    CleanIsContents(cfg.cap, EMPTY, es);
    ParseLossless(cfg.tags, false, text);
    ContentsAreRendered(cfg.tags, es);
    var c := NextTag(cfg.tags, false, text);
    if c.NoTag? {
      assert Contents(es) == text + "";
    } else {
      var rest := Parse(cfg.tags, c.OpenAt?, Rest(cfg.tags, false, text)).events;
      ParseLossless(cfg.tags, c.OpenAt?, Rest(cfg.tags, false, text));
      ContentsAreRendered(cfg.tags, rest);
      var step := [TextEvent(false, Before(cfg.tags, false, text)), TagEvent(false, c)];
      assert es == step + rest;
      assert es[1..][1..] == rest;
      assert |Contents(es)| == c.pos + |Contents(rest)|;
    }
  }
}
