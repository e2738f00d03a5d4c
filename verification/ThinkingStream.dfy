/** The streaming state machine that separates reasoning blocks from content, and the two whole-text
    entry points that run it once. */
module ThinkingStream {
  import opened Matching
  import opened StreamSpec
  import opened StreamTheorems
  import opened StreamMachine
  import opened StreamRuns
  import opened StreamSeams
  import opened PyText
  import opened Wrappers

  const THINKING := "thinking"

  class ThinkingFSM {
    const openTag: string
    const closeTag: string
    const maxThoughtChars: int

    var inThink: bool
    var thinkStarted: bool
    var thinkEnded: bool
    var unclosedStream: bool
    var unopenedCloseTags: nat
    var discardedThoughtChars: nat
    var explicitThinkingActive: bool
    var buffer: string
    var currentBlock: string
    var thinkingBlocks: seq<string>
    var cleanContent: string
    var thinkingContent: string
    /** The callback calls made so far. */
    var notices: seq<Notice>

    function Cfg(): Config {
      Config(Tags(openTag, closeTag), maxThoughtChars)
    }

    /** The whole state, as a value. */
    function Value(): Machine
      reads this
    {
      Machine(
        Stream(inThink, explicitThinkingActive, buffer,
               Tally(currentBlock, thinkingBlocks, cleanContent, thinkingContent, discardedThoughtChars,
                     unopenedCloseTags),
               unclosedStream),
        thinkStarted, thinkEnded, notices)
    }

    constructor (tags: Tags, initialState: string, cap: int)
      requires tags.Valid()
      ensures Cfg() == Config(tags, cap)
      ensures Value() == Initial(initialState == THINKING)
    {
      openTag, closeTag, maxThoughtChars := tags.open, tags.close, cap;
      inThink, thinkStarted := initialState == THINKING, initialState == THINKING;
      thinkEnded, unclosedStream, explicitThinkingActive := false, false, false;
      unopenedCloseTags, discardedThoughtChars := 0, 0;
      buffer, currentBlock, thinkingBlocks, cleanContent, thinkingContent := "", "", [], "", "";
      notices := if initialState == THINKING then [ThinkStart] else [];
    }

    method TriggerThinkStart()
      modifies `thinkStarted, `thinkEnded, `notices
      ensures Value() == BeginThink(old(Value()))
    {
      if !thinkStarted {
        thinkStarted, thinkEnded := true, false;
        notices := notices + [ThinkStart];
      }
    }

    /** Closes the open block, if there is one. */
    method PushBlock()
      modifies `currentBlock, `thinkingBlocks
      ensures Value() == Push(old(Value()))
    {
      if currentBlock != "" {
        thinkingBlocks, currentBlock := thinkingBlocks + [currentBlock], "";
      }
    }

    method TriggerThinkEnd()
      modifies `thinkStarted, `thinkEnded, `notices, `currentBlock, `thinkingBlocks
      ensures Value() == EndThink(old(Value()))
    {
      if thinkStarted && !thinkEnded {
        thinkEnded, thinkStarted := true, false;
        PushBlock();
        notices := notices + [ThinkEnd];
      }
    }

    /** Keeps as much of the chunk as the cap allows and counts the rest. */
    method RecordThought(chunk: string)
      modifies `thinkingContent, `currentBlock, `discardedThoughtChars, `notices
      ensures Value() == Keep(maxThoughtChars, old(Value()), chunk)
    {
      KeepCases(maxThoughtChars, Value(), chunk);
      if chunk == "" {
        return;
      }
      var currentLen := |thinkingContent|;
      if currentLen >= maxThoughtChars {
        discardedThoughtChars := discardedThoughtChars + |chunk|;
        return;
      }
      var available := maxThoughtChars - currentLen;
      if |chunk| <= available {
        thinkingContent, currentBlock := thinkingContent + chunk, currentBlock + chunk;
        notices := notices + [ThinkChunk(chunk)];
        return;
      }
      var kept := chunk[..available];
      thinkingContent, currentBlock := thinkingContent + kept, currentBlock + kept;
      discardedThoughtChars := discardedThoughtChars + (|chunk| - available);
      notices := notices + [ThinkChunk(kept)];
    }

    /** Emits content; a pending think phase is ended first. */
    method EmitContent(text: string) returns (tokens: seq<string>)
      modifies `thinkStarted, `thinkEnded, `notices, `currentBlock, `thinkingBlocks, `cleanContent
      ensures Value() == Emit(old(Value()), text)
      ensures tokens == if text == "" then [] else [text]
      ensures cleanContent == old(cleanContent) + Concat(tokens)
    {
      ConcatToken(text);
      if text == "" {
        assert cleanContent + text == cleanContent;
        return [];
      }
      TriggerThinkEnd();
      cleanContent := cleanContent + text;
      notices := notices + [ContentChunk(text)];
      return [text];
    }

    method HandleExplicitThinking(chunk: string) returns (tokens: seq<string>)
      requires Cfg().tags.Valid() && chunk != ""
      modifies this
      ensures Value() == FeedOne(Cfg(), old(Value()), Input(chunk, true))
      ensures tokens == [] && cleanContent == old(cleanContent)
    {
      explicitThinkingActive := true;
      TriggerThinkStart();
      RecordThought(chunk);
      return [];
    }

    /** One round inside a think block. The loop goes on unless a partial tag is held back. */
    method ProcessInsideThink() returns (advanced: bool, tokens: seq<string>)
      requires Cfg().tags.Valid() && inThink
      modifies this
      ensures Value() == Round(Cfg(), old(Value()))
      ensures advanced <==> buffer == "" || !NextTag(Cfg().tags, true, old(buffer)).NoTag?
      ensures tokens == [] && cleanContent == old(cleanContent)
    {
      hide Find, SuffixOverlap, Keep, Push;
      var closePos := Find(buffer, closeTag);
      if closePos != -1 {
        var thoughtChunk := buffer[..closePos];
        inThink := false;
        buffer := buffer[closePos + |closeTag|..];
        RecordThought(thoughtChunk);
        PushBlock();
        return true, [];
      }
      var overlap := FindSuffixOverlap(buffer, closeTag);
      if overlap > 0 {
        var safeThought := buffer[..|buffer| - overlap];
        buffer := buffer[|buffer| - overlap..];
        RecordThought(safeThought);
        return false, [];
      }
      assert buffer[..|buffer| - 0] == buffer;
      var rest := buffer;
      buffer := "";
      RecordThought(rest);
      return true, [];
    }

    /** Emits what no tag can claim and holds back the rest. */
    method ReleaseOutsideThink() returns (advanced: bool, tokens: seq<string>)
      requires Cfg().tags.Valid() && !inThink && NextTag(Cfg().tags, false, buffer).NoTag?
      modifies this
      ensures Value() == Round(Cfg(), old(Value()))
      ensures advanced <==> buffer == ""
      ensures cleanContent == old(cleanContent) + Concat(tokens) && "" !in tokens
    {
      hide Find, SuffixOverlap, Emit;
      var openOverlap := FindSuffixOverlap(buffer, openTag);
      var closeOverlap := FindSuffixOverlap(buffer, closeTag);
      var overlap := if openOverlap > closeOverlap then openOverlap else closeOverlap;
      if overlap > 0 {
        var safe := buffer[..|buffer| - overlap];
        buffer := buffer[|buffer| - overlap..];
        tokens := EmitContent(safe);
        return false, tokens;
      }
      assert buffer[..|buffer| - 0] == buffer;
      var rest := buffer;
      buffer := "";
      tokens := EmitContent(rest);
      return true, tokens;
    }

    /** One round outside a think block. */
    method ProcessOutsideThink() returns (advanced: bool, tokens: seq<string>)
      requires Cfg().tags.Valid() && !inThink
      modifies this
      ensures Value() == Round(Cfg(), old(Value()))
      ensures advanced <==> buffer == "" || !NextTag(Cfg().tags, false, old(buffer)).NoTag?
      ensures cleanContent == old(cleanContent) + Concat(tokens) && "" !in tokens
    {
      hide Find, SuffixOverlap, Emit, BeginThink;
      var openPos := Find(buffer, openTag);
      var closePos := Find(buffer, closeTag);
      if closePos != -1 && (openPos == -1 || closePos < openPos) {
        var prefix := buffer[..closePos];
        unopenedCloseTags := unopenedCloseTags + 1;
        buffer := buffer[closePos + |closeTag|..];
        tokens := EmitContent(prefix);
        return true, tokens;
      }
      if openPos != -1 {
        var prefix := buffer[..openPos];
        inThink := true;
        TriggerThinkStart();
        buffer := buffer[openPos + |openTag|..];
        tokens := EmitContent(prefix);
        return true, tokens;
      }
      advanced, tokens := ReleaseOutsideThink();
    }

    method ProcessBuffer() returns (emitted: seq<string>)
      requires Cfg().tags.Valid()
      modifies this
      ensures Value() == Loop(Cfg(), old(Value()))
      ensures cleanContent == old(cleanContent) + Concat(emitted) && "" !in emitted
    {
      hide Loop, Round;
      emitted := [];
      assert cleanContent + "" == cleanContent;
      while buffer != ""
        invariant Loop(Cfg(), Value()) == Loop(Cfg(), old(Value()))
        invariant cleanContent == old(cleanContent) + Concat(emitted) && "" !in emitted
        decreases |buffer|
      {
        LoopStep(Cfg(), Value());
        var advanced, tokens;
        if inThink {
          advanced, tokens := ProcessInsideThink();
          assert cleanContent + "" == cleanContent;
        } else {
          advanced, tokens := ProcessOutsideThink();
        }
        ConcatConcat(emitted, tokens);
        emitted := emitted + tokens;
        if !advanced {
          return;
        }
        LoopEmpty(Cfg(), Value());
      }
      LoopEmpty(Cfg(), Value());
    }

    /** Back from the explicit channel: its block and its think phase are closed. */
    method LeaveExplicitThinking()
      modifies `explicitThinkingActive, `thinkStarted, `thinkEnded, `notices, `currentBlock, `thinkingBlocks
      ensures Value() == LeaveExplicit(old(Value()))
    {
      if explicitThinkingActive {
        explicitThinkingActive := false;
        PushBlock();
        TriggerThinkEnd();
      }
    }

    /** One streamed chunk, ordinary or on the explicit thinking channel. */
    method Feed(chunk: string, isThinking: bool) returns (emitted: seq<string>)
      requires Cfg().tags.Valid()
      modifies this
      ensures Value() == FeedOne(Cfg(), old(Value()), Input(chunk, isThinking))
      ensures cleanContent == old(cleanContent) + Concat(emitted) && "" !in emitted
    {
      hide Loop, LeaveExplicit, BeginThink, Keep;
      assert cleanContent + Concat([]) == cleanContent;
      if chunk == "" {
        return [];
      }
      if isThinking {
        emitted := HandleExplicitThinking(chunk);
        return emitted;
      }
      LeaveExplicitThinking();
      buffer := buffer + chunk;
      emitted := ProcessBuffer();
    }

    /** End of stream. */
    method Flush() returns (emitted: seq<string>)
      modifies this
      ensures Value() == Finish(Cfg(), old(Value()))
      ensures cleanContent == old(cleanContent) + Concat(emitted) && "" !in emitted
    {
      hide EndThink, Push, Keep, Emit, LeaveExplicit;
      emitted := [];
      assert cleanContent + Concat([]) == cleanContent;
      LeaveExplicitThinking();
      var rest := buffer;
      buffer := "";
      if inThink {
        unclosedStream := true;
        KeepCases(maxThoughtChars, Value(), "");
        if rest != "" {
          RecordThought(rest);
        }
      } else if rest == "" {
        EmitNothing(Value());
      } else {
        emitted := EmitContent(rest);
      }
      PushBlock();
      TriggerThinkEnd();
    }
  }

  lemma LoopStep(cfg: Config, m: Machine)
    requires cfg.tags.Valid() && m.stream.buffer != ""
    ensures var m' := Round(cfg, m);
            if NextTag(cfg.tags, m.stream.inThink, m.stream.buffer).NoTag? then Loop(cfg, m) == m'
            else Loop(cfg, m) == Loop(cfg, m') && |m'.stream.buffer| < |m.stream.buffer|
  {
  }

  lemma LoopEmpty(cfg: Config, m: Machine)
    requires cfg.tags.Valid()
    ensures m.stream.buffer == "" ==> Loop(cfg, m) == m
  {
  }

  lemma ConcatToken(text: string)
    ensures Concat(if text == "" then [] else [text]) == text
  {
    assert [text][1..] == [] && text + "" == text;
  }

  lemma EmitNothing(m: Machine)
    ensures Emit(m, "") == m
  {
  }

  lemma KeepCases(cap: int, m: Machine, chunk: string)
    ensures var t, k := m.stream.tally, Keep(cap, m, chunk);
            if chunk == "" then k == m
            else if |t.thinking| >= cap then k == WithTally(m, t.(discarded := t.discarded + |chunk|))
            else if |chunk| <= cap - |t.thinking| then
              k == WithTally(m, t.(thinking := t.thinking + chunk, block := t.block + chunk))
                   .(notices := m.notices + [ThinkChunk(chunk)])
            else
              var kept := chunk[..cap - |t.thinking|];
              k == WithTally(m, t.(thinking := t.thinking + kept, block := t.block + kept,
                                   discarded := t.discarded + (|chunk| - |kept|)))
                   .(notices := m.notices + [ThinkChunk(kept)])
  {
    assert m.notices + [] == m.notices;
    if chunk == "" {
      RecordNothing(cap, m.stream.tally);
    } else if |m.stream.tally.thinking| >= cap {
      RecordNone(cap, m.stream.tally, chunk);
    } else if |chunk| <= cap - |m.stream.tally.thinking| {
      RecordWhole(cap, m.stream.tally, chunk);
      assert chunk[..|chunk|] == chunk;
    }
  }

  /** Length of the longest suffix of text that is a proper prefix of target. */
  method FindSuffixOverlap(text: string, target: string) returns (length: nat)
    ensures length == SuffixOverlap(text, target)
  {
    var maxCheck := if |text| < |target| - 1 then |text| else |target| - 1;
    var k := maxCheck;
    while k > 0
      invariant k <= maxCheck
      invariant forall j :: k < j && 0 < j ==> !IsOverlap(text, target, j)
      decreases k
    {
      if text[|text| - k..] <= target {
        assert target[..k] == text[|text| - k..];
        OverlapIsLongest(text, target, k);
        return k;
      }
      assert text[|text| - k..] != target[..k];
      k := k - 1;
    }
    length := 0;
  }

  // ----- the whole-text entry points

  /** The blocks without surrounding white space, without the blank ones. */
  function Presentable(blocks: seq<string>): seq<string> {
    if blocks == [] then []
    else (if Trim(blocks[0]) == "" then [] else [Trim(blocks[0])]) + Presentable(blocks[1..])
  }

  lemma {:induction false} BlankBlocks(blocks: seq<string>)
    requires Presentable(blocks) == []
    ensures AllSpace(Concat(blocks))
  {
    if blocks != [] {
      EmptyTrimIffAllSpace(blocks[0]);
      BlankBlocks(blocks[1..]);
    }
  }

  /** t is s without the white space at its ends. */
  ghost predicate TrimmedTo(s: string, t: string) {
    && (exists a: string, b: string :: AllSpace(a) && AllSpace(b) && s == a + (t + b))
    && (t != "" ==> !IsSpace(t[0]) && !IsSpace(t[|t| - 1]))
  }

  /** at lists, in order, the places of the blocks that are not blank. */
  ghost predicate NotBlankAt(blocks: seq<string>, at: seq<nat>) {
    && (forall k, l :: 0 <= k < l < |at| ==> at[k] < at[l])
    && (forall i: nat :: i in at <==> i < |blocks| && !AllSpace(blocks[i]))
  }

  /** shown are the blocks that are not blank, in order, each without the white space at its ends. */
  ghost predicate Shows(blocks: seq<string>, shown: seq<string>) {
    exists at: seq<nat> :: NotBlankAt(blocks, at) && ShowsAt(blocks, at, shown)
  }

  ghost predicate ShowsAt(blocks: seq<string>, at: seq<nat>, shown: seq<string>) {
    |at| == |shown| && forall k :: 0 <= k < |at| ==> at[k] < |blocks| && TrimmedTo(blocks[at[k]], shown[k])
  }

  lemma BlankNext(blocks: seq<string>, b: string, at: seq<nat>)
    requires NotBlankAt(blocks, at)
    ensures NotBlankAt(blocks + [b], if AllSpace(b) then at else at + [|blocks|])
  {
    hide AllSpace;
    var all, n := blocks + [b], |blocks|;
    var at' := if AllSpace(b) then at else at + [n];
    assert forall k :: 0 <= k < |at| ==> at[k] in at;
    assert forall i: nat :: i in at' <==> i in at || (i == n && !AllSpace(b));
    assert forall i: nat :: i < n ==> all[i] == blocks[i];
  }

  lemma {:induction false} PresentableNext(blocks: seq<string>, b: string)
    ensures Presentable(blocks + [b]) == Presentable(blocks) + if Trim(b) == "" then [] else [Trim(b)]
    decreases |blocks|
  {
    hide Trim;
    var last := if Trim(b) == "" then [] else [Trim(b)];
    if blocks == [] {
      assert blocks + [b] == [b];
      assert Presentable([b]) == last + Presentable([b][1..]);
    } else {
      assert (blocks + [b])[1..] == blocks[1..] + [b];
      PresentableNext(blocks[1..], b);
      var first := if Trim(blocks[0]) == "" then [] else [Trim(blocks[0])];
      assert first + (Presentable(blocks[1..]) + last) == first + Presentable(blocks[1..]) + last;
    }
  }

  lemma TrimTrims(s: string)
    ensures TrimmedTo(s, Trim(s))
  {
    TrimParts(s);
  }

  lemma {:induction false} PresentableShows(blocks: seq<string>)
    ensures Shows(blocks, Presentable(blocks))
    decreases |blocks|
  {
    if blocks == [] {
      var none: seq<nat> := [];
      assert NotBlankAt(blocks, none);
    } else {
      var n := |blocks| - 1;
      var before, b := blocks[..n], blocks[n];
      assert blocks == before + [b];
      PresentableShows(before);
      PresentableNext(before, b);
      EmptyTrimIffAllSpace(b);
      TrimTrims(b);
      hide Presentable, AllSpace, Trim, NotBlankAt, TrimmedTo, ShowsAt;
      var at: seq<nat> :| NotBlankAt(before, at) && ShowsAt(before, at, Presentable(before));
      BlankNext(before, b, at);
      ShowsNext(before, b, at, Presentable(before));
    }
  }

  lemma ShowsNext(before: seq<string>, b: string, at: seq<nat>, shown: seq<string>)
    requires ShowsAt(before, at, shown) && TrimmedTo(b, Trim(b))
    ensures ShowsAt(before + [b], if AllSpace(b) then at else at + [|before|],
                    shown + if AllSpace(b) then [] else [Trim(b)])
  {
    hide AllSpace, Trim, NotBlankAt, TrimmedTo;
    var at' := if AllSpace(b) then at else at + [|before|];
    var shown' := shown + if AllSpace(b) then [] else [Trim(b)];
    forall k | 0 <= k < |at'|
      ensures at'[k] < |before| + 1 && TrimmedTo((before + [b])[at'[k]], shown'[k])
    {
      if k < |at| {
        assert (before + [b])[at[k]] == before[at[k]];
      }
    }
  }

  lemma FedOnce(cfg: Config, inThink: bool, text: string)
    requires cfg.tags.Valid()
    ensures var m := Finish(cfg, FeedOne(cfg, Initial(inThink), Input(text, false)));
            && m.stream == Batch(cfg, inThink, text)
            && Concat(m.stream.tally.blocks) == m.stream.tally.thinking
  {
    var m := Initial(inThink);
    InitialIsSound(inThink);
    FeedOneIsFeed(cfg, m, Input(text, false));
    FinishIsFlush(cfg, FeedOne(cfg, m, Input(text, false)));
    OneChunkIsBatch(cfg, inThink, text);
    assert FeedAll(cfg, Start(inThink), [Input(text, false)]) == Feed(cfg, Start(inThink), Input(text, false));
    ThoughtAccounting(cfg, inThink, [Input(text, false)]);
    FlushedBlocks(cfg, Feed(cfg, Start(inThink), Input(text, false)),
                  Thoughts(Trace(cfg, Start(inThink), [Input(text, false)])));
  }

  /** The text without its think blocks. None stands for the error on an empty tag, which an empty
      text does not reach. */
  method StripThinkBlocks(text: string, tags: Tags, cap: int, initialState: string) returns (r: Option<string>)
    ensures text == "" ==> r == Some("")
    ensures text != "" ==> (r == None <==> !tags.Valid())
    ensures text != "" && r.Some? ==>
              && r.value == Stripped(Config(tags, cap), initialState == THINKING, text)
              && TrimmedTo(Batch(Config(tags, cap), initialState == THINKING, text).tally.clean, r.value)
  {
    if text == "" {
      return Some("");
    }
    if tags.open == "" || tags.close == "" {
      return None;
    }
    var fsm := new ThinkingFSM(tags, initialState, cap);
    var _ := fsm.Feed(text, false);
    var _ := fsm.Flush();
    FedOnce(fsm.Cfg(), initialState == THINKING, text);
    TrimTrims(fsm.cleanContent);
    return Some(Trim(fsm.cleanContent));
  }

  /** The think blocks and the text without them. The fallback to the whole thought text never
      adds anything: it is blank whenever all blocks are. */
  method ExtractThinkBlocks(text: string, tags: Tags, cap: int, initialState: string)
    returns (r: Option<(seq<string>, string)>)
    ensures text == "" ==> r == Some(([], ""))
    ensures text != "" ==> (r == None <==> !tags.Valid())
    ensures text != "" && r.Some? ==>
              var t := Batch(Config(tags, cap), initialState == THINKING, text).tally;
              Shows(t.blocks, r.value.0) && TrimmedTo(t.clean, r.value.1)
  {
    if text == "" {
      return Some(([], ""));
    }
    if tags.open == "" || tags.close == "" {
      return None;
    }
    var fsm := new ThinkingFSM(tags, initialState, cap);
    var _ := fsm.Feed(text, false);
    var _ := fsm.Flush();
    FedOnce(fsm.Cfg(), initialState == THINKING, text);
    var blocks := Presentable(fsm.thinkingBlocks);
    PresentableShows(fsm.thinkingBlocks);
    TrimTrims(fsm.cleanContent);
    var whole := Trim(fsm.thinkingContent);
    if blocks == [] {
      BlankBlocks(fsm.thinkingBlocks);
      EmptyTrimIffAllSpace(fsm.thinkingContent);
      if whole != "" {
        blocks := [whole];
      }
    }
    return Some((blocks, Trim(fsm.cleanContent)));
  }

  /** What StripThinkBlocks computes, starting outside or inside a block. */
  function Stripped(cfg: Config, inThink: bool, text: string): string
    requires cfg.tags.Valid()
  {
    Trim(Batch(cfg, inThink, text).tally.clean)
  }

  /** Stripping a text twice is stripping it once exactly when the stripped text holds neither tag. */
  lemma StrippingTwice(cfg: Config, text: string)
    requires cfg.tags.Valid()
    ensures var once := Stripped(cfg, false, text);
            Stripped(cfg, false, once) == once <==> NextTag(cfg.tags, false, once).NoTag?
  {
    hide Batch, NextTag;
    var once := Stripped(cfg, false, text);
    TrimIsTrimmed(Cleaned(cfg, text));
    TrimIsTrimmed(Cleaned(cfg, once));
    CleanedIsFixedIffNoTag(cfg, once);
  }

  /** Neither tag begins or ends in white space. */
  predicate Unspaced(tags: Tags)
    requires tags.Valid()
  {
    && !IsSpace(tags.open[0]) && !IsSpace(tags.open[|tags.open| - 1])
    && !IsSpace(tags.close[0]) && !IsSpace(tags.close[|tags.close| - 1])
  }

  lemma MarginsAreSpace(a: string, t: string, b: string, i: nat)
    requires AllSpace(a) && AllSpace(b) && i < |a + (t + b)|
    ensures i < |a| || |a| + |t| <= i ==> IsSpace((a + (t + b))[i])
  {
    assert i < |a| ==> (a + (t + b))[i] == a[i];
    assert |a| + |t| <= i ==> (a + (t + b))[i] == b[i - |a| - |t|];
    hide IsSpace;
  }

  lemma OccursBetween(a: string, t: string, b: string, p: string)
    ensures Occurs(t, p) ==> Occurs(a + (t + b), p)
  {
    if i :| OccursAt(t, p, i) {
      OccursInPrefix(t, b, p, i);
      OccursInSuffix(a, t + b, p, i);
    }
  }

  lemma OccursOnlyBetween(a: string, t: string, b: string, p: string)
    requires AllSpace(a) && AllSpace(b) && p != "" && !IsSpace(p[0]) && !IsSpace(p[|p| - 1])
    ensures Occurs(a + (t + b), p) ==> Occurs(t, p)
  {
    var s := a + (t + b);
    if i :| OccursAt(s, p, i) {
      assert s[i] == s[i..i + |p|][0] && s[i + |p| - 1] == s[i..i + |p|][|p| - 1];
      hide IsSpace, AllSpace;
      MarginsAreSpace(a, t, b, i);
      MarginsAreSpace(a, t, b, i + |p| - 1);
      OccursInSuffix(a, t + b, p, i - |a|);
      OccursInPrefix(t, b, p, i - |a|);
    }
  }

  lemma OccursInTrimmed(s: string, p: string)
    ensures Occurs(Trim(s), p) ==> Occurs(s, p)
    ensures p != "" && !IsSpace(p[0]) && !IsSpace(p[|p| - 1]) && Occurs(s, p) ==> Occurs(Trim(s), p)
  {
    TrimParts(s);
    hide Occurs, AllSpace, IsSpace, Trim;
    var a: string, b: string :| AllSpace(a) && AllSpace(b) && s == a + (Trim(s) + b);
    OccursBetween(a, Trim(s), b, p);
    if p != "" && !IsSpace(p[0]) && !IsSpace(p[|p| - 1]) {
      OccursOnlyBetween(a, Trim(s), b, p);
    }
  }

  lemma TagsInTrimmed(tags: Tags, s: string)
    requires tags.Valid()
    ensures NoTags(tags, s) ==> NoTags(tags, Trim(s))
    ensures Unspaced(tags) && NoTags(tags, Trim(s)) ==> NoTags(tags, s)
  {
    NoTagsMeans(tags, s);
    NoTagsMeans(tags, Trim(s));
    OccursInTrimmed(s, tags.open);
    OccursInTrimmed(s, tags.close);
  }

  /** From outside a block: for tags without white space at their ends, stripping a text a second time
      changes nothing exactly when no tag lies across a seam of the text; for other tags, at least then. */
  lemma StrippingTwiceIff(cfg: Config, text: string)
    requires cfg.tags.Valid()
    ensures var once := Stripped(cfg, false, text);
            && (!Seams(cfg.tags, false, "", text) ==> Stripped(cfg, false, once) == once)
            && (Unspaced(cfg.tags) && Stripped(cfg, false, once) == once ==> !Seams(cfg.tags, false, "", text))
  {
    CleanedHoldsNoTagIff(cfg, text);
    TagsInTrimmed(cfg.tags, Cleaned(cfg, text));
    StrippingTwice(cfg, text);
  }

  /** So stripping is idempotent on every text in which no removed tag follows content that may begin a
      tag. */
  lemma StrippingTwiceUntouched(cfg: Config, text: string)
    requires cfg.tags.Valid() && !Touches(cfg.tags, false, "", text)
    ensures Stripped(cfg, false, Stripped(cfg, false, text)) == Stripped(cfg, false, text)
  {
    if Seams(cfg.tags, false, "", text) {
      SeamsTouch(cfg.tags, false, "", text);
    }
    StrippingTwiceIff(cfg, text);
  }

  /** Every piece of content that is met on the walk through the text is blank. */
  predicate BlankPieces(tags: Tags, inThink: bool, text: string)
    requires tags.Valid()
    decreases |text|
  {
    var c := NextTag(tags, inThink, text);
    && AllSpace(Piece(tags, inThink, text))
    && (c.NoTag? || BlankPieces(tags, c.OpenAt?, Rest(tags, inThink, text)))
  }

  lemma BlankPiecesNext(tags: Tags, inThink: bool, text: string)
    requires tags.Valid()
    ensures var c := NextTag(tags, inThink, text);
            && BlankPieces(tags, inThink, text)
               == (AllSpace(Piece(tags, inThink, text))
                   && (c.NoTag? || BlankPieces(tags, c.OpenAt?, Rest(tags, inThink, text))))
            && (!c.NoTag? ==> |Rest(tags, inThink, text)| < |text|)
  {
    hide NextTag, Piece, AllSpace;
  }

  lemma AllSpaceInConcat(a: string, b: string)
    ensures AllSpace(a + b) <==> AllSpace(a) && AllSpace(b)
  {
    assert forall i :: 0 <= i < |a| ==> (a + b)[i] == a[i];
    assert forall i :: 0 <= i < |b| ==> (a + b)[|a| + i] == b[i];
    hide IsSpace;
    if AllSpace(a + b) {
      assert AllSpace(a);
      assert AllSpace(b);
    }
  }

  lemma {:induction false} KeptIsBlankIff(tags: Tags, inThink: bool, text: string)
    requires tags.Valid()
    ensures AllSpace(Kept(tags, inThink, text)) <==> BlankPieces(tags, inThink, text)
    decreases |text|
  {
    BlankPiecesNext(tags, inThink, text);
    KeptInPieces(tags, inThink, text);
    hide NextTag, Piece, Kept, Rest, AllSpace, BlankPieces;
    var c := NextTag(tags, inThink, text);
    if !c.NoTag? {
      var rest := Rest(tags, inThink, text);
      KeptIsBlankIff(tags, c.OpenAt?, rest);
      AllSpaceInConcat(Piece(tags, inThink, text), Kept(tags, c.OpenAt?, rest));
    }
  }

  lemma CleanIsKept(cfg: Config, inThink: bool, text: string)
    requires cfg.tags.Valid()
    ensures Batch(cfg, inThink, text).tally.clean == Kept(cfg.tags, inThink, text)
  {
    var es := Parse(cfg.tags, inThink, text).events;
    CleanIsContents(cfg.cap, EMPTY, es);
    assert "" + Contents(es) == Contents(es);
  }

  lemma KeptIsShorter(tags: Tags, text: string)
    requires tags.Valid()
    ensures text == "" ==> Kept(tags, true, text) == ""
    ensures text != "" ==> |Kept(tags, true, text)| < |text|
  {
    KeptInPieces(tags, true, text);
    var c := NextTag(tags, true, text);
    if !c.NoTag? {
      var rest := Rest(tags, true, text);
      ParseLossless(tags, false, rest);
      ContentsAreRendered(tags, Parse(tags, false, rest).events);
    }
  }

  /** From inside a block a text is stripped to nothing exactly when all its pieces of content are blank,
      and stripping it a second time changes nothing exactly then: the second time, all that is left stands
      inside the block. */
  lemma StrippingTwiceInsideIff(cfg: Config, text: string)
    requires cfg.tags.Valid()
    ensures Stripped(cfg, true, text) == "" <==> BlankPieces(cfg.tags, true, text)
    ensures Stripped(cfg, true, Stripped(cfg, true, text)) == Stripped(cfg, true, text)
       <==> BlankPieces(cfg.tags, true, text)
  {
    var once := Stripped(cfg, true, text);
    CleanIsKept(cfg, true, text);
    CleanIsKept(cfg, true, once);
    KeptIsBlankIff(cfg.tags, true, text);
    EmptyTrimIffAllSpace(Kept(cfg.tags, true, text));
    KeptIsShorter(cfg.tags, once);
    TrimIsTrimmed(Kept(cfg.tags, true, once));
    hide Batch, Kept, AllSpace, BlankPieces;
  }

  // ----- the default tags

  const DEFAULT_TAGS := Tags("<think>", "</think>")

  /** With the default tags every text may be cut anywhere. */
  lemma DefaultTagsAreSeparable(cap: int)
    ensures Separable(DEFAULT_TAGS) && ChunkInvariant(Config(DEFAULT_TAGS, cap))
  {
    var open, close := DEFAULT_TAGS.open, DEFAULT_TAGS.close;
    assert close[..|close| - 1] == "</think";
    NotAt("</think", open, 0, 1);
    ChunkInvariantIffSeparable(Config(DEFAULT_TAGS, cap));
  }

  lemma NotAt(s: string, p: string, i: int, k: nat)
    requires k < |p| && 0 <= i && i + k < |s| && s[i + k] != p[k]
    ensures !OccursAt(s, p, i)
  {
  }

  /** No tag occurs in a text without its first character. */
  lemma NoFirstCharacter(tags: Tags, inThink: bool, s: string)
    requires tags.Valid() && tags.open[0] !in s && tags.close[0] !in s
    ensures NextTag(tags, inThink, s).NoTag?
  {
  }

  lemma AroundTag(tags: Tags, inThink: bool, a: string, tag: string, u: string)
    requires var c := NextTag(tags, inThink, a + (tag + u));
             !c.NoTag? && c.pos == |a| && TagLength(tags, c) == |tag|
    ensures Before(tags, inThink, a + (tag + u)) == a && Rest(tags, inThink, a + (tag + u)) == u
  {
    hide Find;
    TakeAfter(a, tag + u, 0);
    DropAfter(a, tag + u, |tag|);
  }

  /** A text with one empty think block in it is cleaned to the two parts around the block. */
  lemma CleanedAroundBlock(cfg: Config, a: string, b: string)
    requires cfg.tags.Valid() && NextTag(cfg.tags, false, b).NoTag?
    requires NextTag(cfg.tags, true, cfg.tags.close + b) == CloseAt(0)
    requires NextTag(cfg.tags, false, a + (cfg.tags.open + (cfg.tags.close + b))) == OpenAt(|a|)
    ensures Cleaned(cfg, a + (cfg.tags.open + (cfg.tags.close + b))) == a + b
  {
    hide NextTag, Before, Rest;
    var u := cfg.tags.close + b;
    var s := a + (cfg.tags.open + u);
    AroundTag(cfg.tags, false, a, cfg.tags.open, u);
    assert "" + u == u;
    AroundTag(cfg.tags, true, "", cfg.tags.close, b);
    ParseTag(cfg, EMPTY, false, s);
    var t := AfterTag(cfg, EMPTY, false, s);
    ParseTag(cfg, t, true, u);
    RunOne(cfg.cap, AfterTag(cfg, t, true, u), Content(b));
  }

  lemma TangledOpens()
    ensures NextTag(DEFAULT_TAGS, false, "<th<think></think>ink>") == OpenAt(3)
  {
    var s := "<th<think></think>ink>";
    TangledStartsWithNoTag(s);
    assert s[3..10] == "<think>";
    FindIsLeftmost(s, "<think>", 3);
  }

  lemma TangledStartsWithNoTag(s: string)
    requires |s| > 10 && s[0] == '<' && s[1] == 't' && s[2] == 'h' && s[3] == '<' && s[4] == 't'
    ensures forall i :: 0 <= i < 3 ==> !OccursAt(s, "<think>", i)
    ensures forall i :: 0 <= i <= 3 ==> !OccursAt(s, "</think>", i)
  {
    NotAt(s, "<think>", 0, 3);
    NotAt(s, "</think>", 0, 1);
    NotAt(s, "</think>", 3, 1);
    forall i | 1 <= i < 3
      ensures !OccursAt(s, "<think>", i) && !OccursAt(s, "</think>", i)
    {
      NotAt(s, "<think>", i, 0);
      NotAt(s, "</think>", i, 0);
    }
  }

  lemma CloseComesFirst(tags: Tags, b: string)
    requires tags.Valid()
    ensures NextTag(tags, true, tags.close + b) == CloseAt(0)
  {
    assert OccursAt(tags.close + b, tags.close, 0);
    FindIsLeftmost(tags.close + b, tags.close, 0);
  }

  lemma TangledCleans(cap: int)
    ensures Cleaned(Config(DEFAULT_TAGS, cap), "<th<think></think>ink>") == "<think>"
  {
    hide NextTag, Batch;
    TangledOpens();
    CloseComesFirst(DEFAULT_TAGS, "ink>");
    NoFirstCharacter(DEFAULT_TAGS, false, "ink>");
    assert "<th<think></think>ink>" == "<th" + ("<think>" + ("</think>" + "ink>"));
    assert "<th" + "ink>" == "<think>";
    CleanedAroundBlock(Config(DEFAULT_TAGS, cap), "<th", "ink>");
  }

  lemma StrippedIsTrimmed(cfg: Config, text: string)
    requires cfg.tags.Valid()
    ensures Stripped(cfg, false, text) == Trim(Cleaned(cfg, text))
  {
  }

  lemma TangledTrims()
    ensures Trim("<think>") == "<think>"
  {
  }

  /** Stripping is not idempotent: what is left around a block can join up to a new tag. */
  lemma StrippingCanExposeATag(cap: int)
    ensures var cfg := Config(DEFAULT_TAGS, cap);
            var once := Stripped(cfg, false, "<th<think></think>ink>");
            once == "<think>" && Stripped(cfg, false, once) != once
  {
    var cfg := Config(DEFAULT_TAGS, cap);
    TangledTrims();
    OpenTagHoldsATag(cfg);
    hide NextTag, Cleaned, Stripped, Trim;
    TangledCleans(cap);
    StrippedIsTrimmed(cfg, "<th<think></think>ink>");
    StrippingTwice(cfg, "<th<think></think>ink>");
  }

  lemma OpenTagHoldsATag(cfg: Config)
    requires cfg.tags.Valid()
    ensures !NextTag(cfg.tags, false, cfg.tags.open).NoTag?
  {
    assert OccursAt(cfg.tags.open, cfg.tags.open, 0);
    FindIsLeftmost(cfg.tags.open, cfg.tags.open, 0);
  }

  const SPACED_TAGS := Tags("a ", "/")

  lemma SpacedOpens()
    ensures NextTag(SPACED_TAGS, false, "aa / ") == OpenAt(1)
    ensures NextTag(SPACED_TAGS, false, " ").NoTag? && NextTag(SPACED_TAGS, false, "a").NoTag?
  {
    var s := "aa / ";
    NotAt(s, "a ", 0, 1);
    NotAt(s, "/", 0, 0);
    NotAt(s, "/", 1, 0);
    assert s[1..3] == "a ";
    FindIsLeftmost(s, "a ", 1);
  }

  lemma SpacedCleans(cap: int)
    ensures Cleaned(Config(SPACED_TAGS, cap), "aa / ") == "a "
  {
    hide NextTag, Batch;
    SpacedOpens();
    CloseComesFirst(SPACED_TAGS, " ");
    assert "aa / " == "a" + ("a " + ("/" + " ")) && "a" + " " == "a ";
    CleanedAroundBlock(Config(SPACED_TAGS, cap), "a", " ");
  }

  lemma SpacedTrims()
    ensures Trim("a ") == "a"
  {
    assert TrimLeft("a ") == "a " && "a "[..1] == "a";
  }

  /** With a tag that ends in white space the converse of StrippingTwiceIff fails: the tag that lies across
      the seam loses its last character to the stripping. */
  lemma SpacedTagsHideASeam(cap: int)
    ensures var cfg, text := Config(SPACED_TAGS, cap), "aa / ";
            && Stripped(cfg, false, Stripped(cfg, false, text)) == Stripped(cfg, false, text)
            && Seams(SPACED_TAGS, false, "", text)
  {
    var cfg, text := Config(SPACED_TAGS, cap), "aa / ";
    SpacedCleans(cap);
    SpacedTrims();
    SpacedOpens();
    OpenTagHoldsATag(cfg);
    hide NextTag, Cleaned, Seams, Trim;
    StrippingTwice(cfg, text);
    CleanedHoldsNoTagIff(cfg, text);
  }
}
