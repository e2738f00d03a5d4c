/** The state machine as a value: the accumulated stream together with the think phase and the
    callback calls. Each operation of the class in ThinkingStream.dfy is one of these functions. */
module StreamMachine {
  import opened Matching
  import opened StreamSpec
  import opened StreamTheorems

  /** A call of one of the four callbacks. */
  datatype Notice = ThinkStart | ThinkChunk(text: string) | ThinkEnd | ContentChunk(text: string)

  datatype Machine = Machine(stream: Stream, started: bool, ended: bool, notices: seq<Notice>)

  function Initial(inThink: bool): Machine {
    Machine(Start(inThink), inThink, false, if inThink then [ThinkStart] else [])
  }

  function WithTally(m: Machine, t: Tally): Machine {
    m.(stream := m.stream.(tally := t))
  }

  function BeginThink(m: Machine): Machine {
    if m.started then m else m.(started := true, ended := false, notices := m.notices + [ThinkStart])
  }

  function Push(m: Machine): Machine {
    WithTally(m, CloseBlock(m.stream.tally))
  }

  function EndThink(m: Machine): Machine {
    if m.started && !m.ended then
      Push(m).(started := false, ended := true, notices := m.notices + [ThinkEnd])
    else m
  }

  function Keep(cap: int, m: Machine, chunk: string): Machine {
    var n := Room(cap, m.stream.tally, |chunk|);
    WithTally(m, Record(cap, m.stream.tally, chunk))
    .(notices := m.notices + if n == 0 then [] else [ThinkChunk(chunk[..n])])
  }

  function Emit(m: Machine, text: string): Machine {
    if text == "" then m
    else
      var e := EndThink(m);
      WithTally(e, e.stream.tally.(clean := e.stream.tally.clean + text))
      .(notices := e.notices + [ContentChunk(text)])
  }

  /** One round of the scan loop. When an open tag follows other text, the think phase begins before
      that text is emitted, and emitting it ends the phase at once. */
  function Round(cfg: Config, m: Machine): Machine {
    var s := m.stream;
    var c := NextTag(cfg.tags, s.inThink, s.buffer);
    if c.NoTag? then
      var m' := m.(stream := s.(buffer := Tail(cfg.tags, s.inThink, s.buffer)));
      var safe := Safe(cfg.tags, s.inThink, s.buffer);
      if s.inThink then Keep(cfg.cap, m', safe) else Emit(m', safe)
    else
      var before := Before(cfg.tags, s.inThink, s.buffer);
      var rest := Rest(cfg.tags, s.inThink, s.buffer);
      if c.OpenAt? then
        var b := BeginThink(m.(stream := s.(inThink := true)));
        Emit(b.(stream := b.stream.(buffer := rest)), before)
      else if s.inThink then
        Push(Keep(cfg.cap, m.(stream := s.(inThink := false, buffer := rest)), before))
      else
        Emit(m.(stream := s.(buffer := rest, tally := s.tally.(stray := s.tally.stray + 1))), before)
  }

  /** Rounds until the buffer is empty or only a partial tag is left. */
  function Loop(cfg: Config, m: Machine): Machine
    requires cfg.tags.Valid()
    decreases |m.stream.buffer|
  {
    if m.stream.buffer == "" then m
    else if NextTag(cfg.tags, m.stream.inThink, m.stream.buffer).NoTag? then Round(cfg, m)
    else Loop(cfg, Round(cfg, m))
  }

  /** Back from the explicit channel: its block and its think phase are closed. */
  function LeaveExplicit(m: Machine): Machine {
    if m.stream.explicit then EndThink(Push(m.(stream := m.stream.(explicit := false)))) else m
  }

  function FeedOne(cfg: Config, m: Machine, i: Input): Machine
    requires cfg.tags.Valid()
  {
    if i.text == "" then m
    else if i.explicit then
      Keep(cfg.cap, BeginThink(m.(stream := m.stream.(explicit := true))), i.text)
    else
      var m' := LeaveExplicit(m);
      Loop(cfg, m'.(stream := m'.stream.(buffer := m'.stream.buffer + i.text)))
  }

  function Finish(cfg: Config, m: Machine): Machine {
    var m' := LeaveExplicit(m);
    var text := m'.stream.buffer;
    var e := m'.(stream := m'.stream.(buffer := "", unclosed := m'.stream.unclosed || m'.stream.inThink));
    EndThink(Push(if m'.stream.inThink then Keep(cfg.cap, e, text) else Emit(e, text)))
  }

  function FeedEach(cfg: Config, m: Machine, inputs: seq<Input>): Machine
    requires cfg.tags.Valid()
    decreases |inputs|
  {
    if inputs == [] then m else FeedEach(cfg, FeedOne(cfg, m, inputs[0]), inputs[1..])
  }

  // ----- what a listener hears

  /** What a listener to the callbacks knows: whether a start is still waiting for its end, and the
      texts it was given. Broken when starts and ends do not alternate, beginning with a start. */
  datatype Heard = Heard(pending: bool, content: string, thought: string) | Broken

  ghost function HearOne(h: Heard, n: Notice): Heard {
    if h.Broken? then Broken
    else match n
      case ThinkStart => if h.pending then Broken else h.(pending := true)
      case ThinkEnd => if h.pending then h.(pending := false) else Broken
      case ThinkChunk(text) => h.(thought := h.thought + text)
      case ContentChunk(text) => h.(content := h.content + text)
  }

  ghost function Hear(ns: seq<Notice>): Heard
    decreases |ns|
  {
    if ns == [] then Heard(false, "", "") else HearOne(Hear(ns[..|ns| - 1]), ns[|ns| - 1])
  }

  lemma HearNext(ns: seq<Notice>, n: Notice)
    ensures Hear(ns + [n]) == HearOne(Hear(ns), n)
  {
    assert (ns + [n])[..|ns|] == ns;
  }

  ghost function CountOf(ns: seq<Notice>, n: Notice): nat {
    multiset(ns)[n]
  }

  /** Alternation, said without recursion: between two starts there is an end, between two ends a
      start, no end comes before the first start, and all starts but a pending last one have ended. */
  lemma AlternationMeans(ns: seq<Notice>)
    requires Hear(ns).Heard?
    ensures CountOf(ns, ThinkStart) == CountOf(ns, ThinkEnd) + if Hear(ns).pending then 1 else 0
    ensures forall i, j :: 0 <= i < j < |ns| && ns[i] == ns[j] == ThinkStart ==> ThinkEnd in ns[i..j]
    ensures forall j :: 0 <= j < |ns| && ns[j] == ThinkEnd ==> ThinkStart in ns[..j]
    ensures forall i, j :: 0 <= i < j < |ns| && ns[i] == ns[j] == ThinkEnd ==> ThinkStart in ns[i..j]
  {
    Balanced(ns);
    forall i, j | 0 <= i < j < |ns| && ns[i] == ns[j] == ThinkStart
      ensures ThinkEnd in ns[i..j]
    {
      HeardPrefix(ns, j);
      StartIsEnded(ns[..j], i);
      assert ns[..j][i..] == ns[i..j];
    }
    forall j | 0 <= j < |ns| && ns[j] == ThinkEnd
      ensures ThinkStart in ns[..j]
    {
      HeardPrefix(ns, j);
      Balanced(ns[..j]);
    }
    forall i, j | 0 <= i < j < |ns| && ns[i] == ns[j] == ThinkEnd
      ensures ThinkStart in ns[i..j]
    {
      HeardPrefix(ns, j);
      EndIsRestarted(ns[..j], i);
      assert ns[..j][i..] == ns[i..j];
    }
  }

  lemma {:induction false} Balanced(ns: seq<Notice>)
    requires Hear(ns).Heard?
    ensures CountOf(ns, ThinkStart) == CountOf(ns, ThinkEnd) + if Hear(ns).pending then 1 else 0
    decreases |ns|
  {
    if ns != [] {
      assert ns == ns[..|ns| - 1] + [ns[|ns| - 1]];
      Balanced(ns[..|ns| - 1]);
    }
  }

  /** A start at j found nothing pending, an end at j found something pending. */
  lemma {:induction false} HeardPrefix(ns: seq<Notice>, j: nat)
    requires Hear(ns).Heard? && j < |ns|
    ensures Hear(ns[..j]).Heard?
    ensures ns[j] == ThinkStart ==> !Hear(ns[..j]).pending
    ensures ns[j] == ThinkEnd ==> Hear(ns[..j]).pending
    decreases |ns|
  {
    if j < |ns| - 1 {
      assert ns[..|ns| - 1][..j] == ns[..j];
      HeardPrefix(ns[..|ns| - 1], j);
    }
  }

  lemma {:induction false} StartIsEnded(ns: seq<Notice>, i: nat)
    requires Hear(ns).Heard? && !Hear(ns).pending && i < |ns| && ns[i] == ThinkStart
    ensures ThinkEnd in ns[i..]
    decreases |ns|
  {
    var before, n := ns[..|ns| - 1], ns[|ns| - 1];
    assert ns[i..][|ns| - 1 - i] == n;
    if !n.ThinkEnd? {
      StartIsEnded(before, i);
      assert ns[i..] == before[i..] + [n];
    }
  }

  lemma {:induction false} EndIsRestarted(ns: seq<Notice>, i: nat)
    requires Hear(ns).Heard? && Hear(ns).pending && i < |ns| && ns[i] == ThinkEnd
    ensures ThinkStart in ns[i..]
    decreases |ns|
  {
    var before, n := ns[..|ns| - 1], ns[|ns| - 1];
    assert ns[i..][|ns| - 1 - i] == n;
    if !n.ThinkStart? {
      EndIsRestarted(before, i);
      assert ns[i..] == before[i..] + [n];
    }
  }

  // ----- what every operation keeps

  /** The notifications alternate and report exactly what was accumulated. */
  ghost predicate Reported(m: Machine) {
    !(m.started && m.ended) && Hear(m.notices) == Heard(m.started, m.stream.tally.clean, m.stream.tally.thinking)
  }

  /** Outside both kinds of thinking no block is open. */
  ghost predicate Sound(m: Machine) {
    Reported(m) && (m.stream.inThink || m.stream.explicit || m.stream.tally.block == "")
  }

  lemma InitialIsSound(inThink: bool)
    ensures Sound(Initial(inThink))
  {
    HearNext([], ThinkStart);
    assert [] + [ThinkStart] == [ThinkStart];
  }

  lemma BeginReported(m: Machine)
    requires Reported(m)
    ensures Reported(BeginThink(m)) && BeginThink(m).started
  {
    HearNext(m.notices, ThinkStart);
  }

  lemma EndReported(m: Machine)
    requires Reported(m)
    ensures Reported(EndThink(m)) && !EndThink(m).started
  {
    HearNext(m.notices, ThinkEnd);
  }

  lemma KeepReported(cap: int, m: Machine, chunk: string)
    requires Reported(m)
    ensures Reported(Keep(cap, m, chunk)) && Keep(cap, m, chunk).started == m.started
  {
    var n := Room(cap, m.stream.tally, |chunk|);
    if n == 0 {
      assert m.stream.tally.thinking + chunk[..n] == m.stream.tally.thinking;
      assert m.notices + [] == m.notices;
    } else {
      HearNext(m.notices, ThinkChunk(chunk[..n]));
    }
  }

  /** With no block open, emitting only adds content. */
  lemma EmitReported(m: Machine, text: string)
    requires Reported(m) && m.stream.tally.block == ""
    ensures Reported(Emit(m, text))
    ensures Emit(m, text).stream == m.stream.(tally := m.stream.tally.(clean := m.stream.tally.clean + text))
  {
    if text == "" {
      assert m.stream.tally.clean + text == m.stream.tally.clean;
    } else {
      EndReported(m);
      HearNext(EndThink(m).notices, ContentChunk(text));
    }
  }

  lemma ReleaseIsStep(cfg: Config, m: Machine)
    requires cfg.tags.Valid() && Sound(m) && !m.stream.explicit
    requires NextTag(cfg.tags, m.stream.inThink, m.stream.buffer).NoTag?
    ensures Sound(Round(cfg, m)) && Round(cfg, m).stream == Step(cfg, m.stream)
  {
    var s := m.stream;
    var m' := m.(stream := s.(buffer := Tail(cfg.tags, s.inThink, s.buffer)));
    var safe := Safe(cfg.tags, s.inThink, s.buffer);
    if s.inThink {
      KeepReported(cfg.cap, m', safe);
    } else {
      EmitReported(m', safe);
    }
  }

  lemma CloseIsStep(cfg: Config, m: Machine)
    requires cfg.tags.Valid() && Sound(m) && !m.stream.explicit && m.stream.inThink
    requires NextTag(cfg.tags, m.stream.inThink, m.stream.buffer).CloseAt?
    ensures Sound(Round(cfg, m)) && Round(cfg, m).stream == Step(cfg, m.stream)
  {
    var s := m.stream;
    var m' := m.(stream := s.(inThink := false, buffer := Rest(cfg.tags, s.inThink, s.buffer)));
    KeepReported(cfg.cap, m', Before(cfg.tags, s.inThink, s.buffer));
  }

  lemma StrayIsStep(cfg: Config, m: Machine)
    requires cfg.tags.Valid() && Sound(m) && !m.stream.explicit && !m.stream.inThink
    requires NextTag(cfg.tags, m.stream.inThink, m.stream.buffer).CloseAt?
    ensures Sound(Round(cfg, m)) && Round(cfg, m).stream == Step(cfg, m.stream)
  {
    hide Emit, Find, SuffixOverlap;
    var s := m.stream;
    var rest := Rest(cfg.tags, s.inThink, s.buffer);
    EmitReported(m.(stream := s.(buffer := rest, tally := s.tally.(stray := s.tally.stray + 1))),
                 Before(cfg.tags, s.inThink, s.buffer));
  }

  lemma OpenIsStep(cfg: Config, m: Machine)
    requires cfg.tags.Valid() && Sound(m) && !m.stream.explicit
    requires NextTag(cfg.tags, m.stream.inThink, m.stream.buffer).OpenAt?
    ensures Sound(Round(cfg, m)) && Round(cfg, m).stream == Step(cfg, m.stream)
  {
    var s := m.stream;
    var m' := m.(stream := s.(inThink := true));
    BeginReported(m');
    BeginKeepsStream(m');
    hide Emit, BeginThink, Find, SuffixOverlap;
    var b := BeginThink(m');
    var b' := b.(stream := b.stream.(buffer := Rest(cfg.tags, s.inThink, s.buffer)));
    EmitReported(b', Before(cfg.tags, s.inThink, s.buffer));
  }

  lemma BeginKeepsStream(m: Machine)
    ensures BeginThink(m).stream == m.stream
  {
  }

  /** A round is one step of the stream scan. */
  lemma RoundIsStep(cfg: Config, m: Machine)
    requires cfg.tags.Valid() && Sound(m) && !m.stream.explicit
    ensures Sound(Round(cfg, m)) && Round(cfg, m).stream == Step(cfg, m.stream)
  {
    match NextTag(cfg.tags, m.stream.inThink, m.stream.buffer)
    case NoTag => ReleaseIsStep(cfg, m);
    case OpenAt(_) => OpenIsStep(cfg, m);
    case CloseAt(_) => if m.stream.inThink { CloseIsStep(cfg, m); } else { StrayIsStep(cfg, m); }
  }

  lemma {:induction false} LoopIsDrain(cfg: Config, m: Machine)
    requires cfg.tags.Valid() && Sound(m) && !m.stream.explicit
    ensures Sound(Loop(cfg, m)) && Loop(cfg, m).stream == Drain(cfg, m.stream)
    decreases |m.stream.buffer|
  {
    if m.stream.buffer == "" {
      DrainEmpty(cfg, m.stream);
    } else {
      RoundIsStep(cfg, m);
      StepDrains(cfg, m.stream);
      if !NextTag(cfg.tags, m.stream.inThink, m.stream.buffer).NoTag? {
        LoopIsDrain(cfg, Round(cfg, m));
      }
    }
  }

  lemma LeaveExplicitReported(m: Machine)
    requires Sound(m)
    ensures Sound(LeaveExplicit(m))
    ensures LeaveExplicit(m).stream
         == m.stream.(explicit := false, tally := if m.stream.explicit then CloseBlock(m.stream.tally) else m.stream.tally)
  {
    if m.stream.explicit {
      EndReported(Push(m.(stream := m.stream.(explicit := false))));
    }
  }

  /** Feeding the machine feeds the stream. */
  lemma FeedOneIsFeed(cfg: Config, m: Machine, i: Input)
    requires cfg.tags.Valid() && Sound(m)
    ensures Sound(FeedOne(cfg, m, i)) && FeedOne(cfg, m, i).stream == Feed(cfg, m.stream, i)
  {
    if i.text == "" {
    } else if i.explicit {
      var m' := m.(stream := m.stream.(explicit := true));
      BeginReported(m');
      KeepReported(cfg.cap, BeginThink(m'), i.text);
      RunOne(cfg.cap, m.stream.tally, Explicit(i.text));
    } else {
      var m' := LeaveExplicit(m);
      LeaveExplicitReported(m);
      LoopIsDrain(cfg, m'.(stream := m'.stream.(buffer := m'.stream.buffer + i.text)));
      FeedTally(cfg, m.stream, i);
    }
  }

  lemma FinishIsFlush(cfg: Config, m: Machine)
    requires Sound(m)
    ensures Sound(Finish(cfg, m)) && Finish(cfg, m).stream == Flush(cfg, m.stream) && !Finish(cfg, m).started
  {
    var m' := LeaveExplicit(m);
    LeaveExplicitReported(m);
    var e := m'.(stream := m'.stream.(buffer := "", unclosed := m'.stream.unclosed || m'.stream.inThink));
    if m'.stream.inThink {
      KeepReported(cfg.cap, e, m'.stream.buffer);
      EndReported(Push(Keep(cfg.cap, e, m'.stream.buffer)));
    } else {
      EmitReported(e, m'.stream.buffer);
      EndReported(Push(Emit(e, m'.stream.buffer)));
    }
  }

  lemma {:induction false} FeedEachIsFeedAll(cfg: Config, m: Machine, inputs: seq<Input>)
    requires cfg.tags.Valid() && Sound(m)
    ensures Sound(FeedEach(cfg, m, inputs)) && FeedEach(cfg, m, inputs).stream == FeedAll(cfg, m.stream, inputs)
    decreases |inputs|
  {
    if inputs != [] {
      FeedOneIsFeed(cfg, m, inputs[0]);
      FeedEachIsFeedAll(cfg, FeedOne(cfg, m, inputs[0]), inputs[1..]);
    }
  }

  /** Over every run the start and end notifications alternate, and after the flush they balance. */
  lemma NotificationsAlternate(cfg: Config, inThink: bool, inputs: seq<Input>)
    requires cfg.tags.Valid()
    ensures var ns := FeedEach(cfg, Initial(inThink), inputs).notices;
            && (forall i, j :: 0 <= i < j < |ns| && ns[i] == ns[j] == ThinkStart ==> ThinkEnd in ns[i..j])
            && (forall j :: 0 <= j < |ns| && ns[j] == ThinkEnd ==> ThinkStart in ns[..j])
            && (forall i, j :: 0 <= i < j < |ns| && ns[i] == ns[j] == ThinkEnd ==> ThinkStart in ns[i..j])
    ensures var ns := Finish(cfg, FeedEach(cfg, Initial(inThink), inputs)).notices;
            CountOf(ns, ThinkStart) == CountOf(ns, ThinkEnd)
  {
    InitialIsSound(inThink);
    FeedEachIsFeedAll(cfg, Initial(inThink), inputs);
    var m := FeedEach(cfg, Initial(inThink), inputs);
    AlternationMeans(m.notices);
    FinishIsFlush(cfg, m);
    AlternationMeans(Finish(cfg, m).notices);
  }

  /** Over every run and its flush the content and thought callbacks were given exactly the clean
      content and the kept thoughts. */
  lemma CallbacksGetEverything(cfg: Config, inThink: bool, inputs: seq<Input>)
    requires cfg.tags.Valid()
    ensures var s := Flush(cfg, FeedAll(cfg, Start(inThink), inputs));
            Hear(Finish(cfg, FeedEach(cfg, Initial(inThink), inputs)).notices)
            == Heard(false, s.tally.clean, s.tally.thinking)
  {
    InitialIsSound(inThink);
    FeedEachIsFeedAll(cfg, Initial(inThink), inputs);
    FinishIsFlush(cfg, FeedEach(cfg, Initial(inThink), inputs));
  }
}
