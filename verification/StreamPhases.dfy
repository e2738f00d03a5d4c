/** When thoughts are heard inside a think phase: between a start notification and its end. */
module StreamPhases {
  import opened Matching
  import opened StreamSpec
  import opened StreamTheorems
  import opened StreamRuns
  import opened StreamMachine

  // ----- one operation

  /** Inside a think block a start is waiting for its end. */
  predicate InPhase(m: Machine) {
    m.stream.inThink ==> m.started
  }

  /** A round leaves the phase exactly when it meets an open tag with text before it. */
  lemma RoundKeepsPhaseIff(cfg: Config, m: Machine)
    requires cfg.tags.Valid() && Sound(m) && InPhase(m) && !m.stream.explicit
    ensures var c := NextTag(cfg.tags, m.stream.inThink, m.stream.buffer);
            InPhase(Round(cfg, m)) <==> !(c.OpenAt? && c.pos > 0)
  {
  }

  /** Coming back from the explicit channel leaves the phase exactly when that is inside a block. */
  lemma LeavingKeepsPhaseIff(m: Machine)
    requires Sound(m) && InPhase(m)
    ensures InPhase(LeaveExplicit(m)) <==> !(m.stream.explicit && m.stream.inThink)
  {
  }

  // ----- notifications and events

  /** Every thought is heard while a start is waiting for its end. */
  ghost predicate InsidePhases(ns: seq<Notice>) {
    forall j :: 0 <= j < |ns| && ns[j].ThinkChunk? ==> Hear(ns[..j]).Heard? && Hear(ns[..j]).pending
  }

  /** A thought that came next would be heard inside a phase: of the events that matter, the last is an
      explicit chunk, or an open tag right at the start of what the round was given, or there is none and
      the stream began inside a block. After a return from the explicit channel, and after an open tag
      with text before it, it would not. */
  predicate Covered(inThink: bool, es: seq<Event>)
    decreases |es|
  {
    if es == [] then inThink
    else
      var n := |es| - 1;
      match es[n]
      case OpenTag => n > 0 && es[n - 1] == Content("")
      case Explicit(_) => true
      case ExplicitEnd => false
      case _ => Covered(inThink, es[..n])
  }

  /** Event k is a thought in a block of which something is kept, and so heard. */
  predicate IsHeard(cap: int, es: seq<Event>, k: nat)
    requires k < |es|
  {
    es[k].Thought? && es[k].text != "" && |Thoughts(es[..k])| < cap
  }

  /** Every thought of a block that is heard is covered. */
  predicate AllCovered(cap: int, inThink: bool, es: seq<Event>) {
    forall k :: 0 <= k < |es| && IsHeard(cap, es, k) ==> Covered(inThink, es[..k])
  }

  lemma InsideNext(ns: seq<Notice>, n: Notice)
    ensures InsidePhases(ns + [n])
       <==> InsidePhases(ns) && (n.ThinkChunk? ==> Hear(ns).Heard? && Hear(ns).pending)
  {
    var all := ns + [n];
    assert all[..|ns|] == ns && all[|ns|] == n;
    assert forall j :: 0 <= j < |ns| ==> all[..j] == ns[..j] && all[j] == ns[j];
    if InsidePhases(all) {
      forall j | 0 <= j < |ns| && ns[j].ThinkChunk?
        ensures Hear(ns[..j]).Heard? && Hear(ns[..j]).pending
      {
        assert all[j] == ns[j];
      }
    }
  }

  lemma CoveredNext(cap: int, inThink: bool, es: seq<Event>, e: Event)
    ensures AllCovered(cap, inThink, es + [e])
       <==> AllCovered(cap, inThink, es)
            && (e.Thought? && e.text != "" && |Thoughts(es)| < cap ==> Covered(inThink, es))
    ensures Covered(inThink, es + [e])
         == match e
            case OpenTag => es != [] && es[|es| - 1] == Content("")
            case Explicit(_) => true
            case ExplicitEnd => false
            case _ => Covered(inThink, es)
  {
    var all := es + [e];
    assert all[..|es|] == es && all[|es|] == e;
    assert es != [] ==> all[|es| - 1] == es[|es| - 1];
    assert forall k :: 0 <= k < |es| ==> all[..k] == es[..k] && all[k] == es[k];
    hide Covered, Thoughts;
    if AllCovered(cap, inThink, all) {
      forall k | 0 <= k < |es| && IsHeard(cap, es, k)
        ensures Covered(inThink, es[..k])
      {
        assert IsHeard(cap, all, k);
      }
      assert e.Thought? && e.text != "" && |Thoughts(es)| < cap ==> IsHeard(cap, all, |es|);
    } else {
      var k :| 0 <= k < |all| && IsHeard(cap, all, k) && !Covered(inThink, all[..k]);
      assert k < |es| ==> IsHeard(cap, es, k);
    }
  }

  // ----- the machine and its events

  lemma {:induction false} ThoughtsAppend(es: seq<Event>, fs: seq<Event>)
    ensures Thoughts(es + fs) == Thoughts(es) + Thoughts(fs)
    decreases |es|
  {
    if es == [] {
      assert es + fs == fs;
    } else {
      assert (es + fs)[1..] == es[1..] + fs;
      ThoughtsAppend(es[1..], fs);
    }
  }

  lemma ThoughtsNext(es: seq<Event>, e: Event)
    ensures Thoughts(es + [e]) == Thoughts(es) + if e.Thought? || e.Explicit? then e.text else ""
  {
    ThoughtsAppend(es, [e]);
    assert Thoughts([e]) == (if e.Thought? || e.Explicit? then e.text else "") + Thoughts([]);
  }

  /** The machine m has come from a start in the given mode through the events es: its notifications
      are inside phases exactly when the events say so. */
  ghost predicate Follows(cap: int, inThink: bool, m: Machine, es: seq<Event>) {
    && Reported(m)
    && Accounts(cap, m.stream.tally, Thoughts(es))
    && (InsidePhases(m.notices) <==> AllCovered(cap, inThink, es))
  }

  /** And inside a block a start is pending exactly when the events say that thoughts are covered. */
  ghost predicate Tracks(cap: int, inThink: bool, m: Machine, es: seq<Event>) {
    Sound(m) && Follows(cap, inThink, m, es) && (m.stream.inThink ==> m.started == Covered(inThink, es))
  }

  lemma SilentFollows(cap: int, inThink: bool, m: Machine, es: seq<Event>, e: Event)
    requires Follows(cap, inThink, m, es) && !e.Thought? && !e.Explicit?
    ensures Follows(cap, inThink, m, es + [e])
  {
    ThoughtsNext(es, e);
    assert Thoughts(es) + "" == Thoughts(es);
    CoveredNext(cap, inThink, es, e);
  }

  lemma PushFollows(cap: int, inThink: bool, m: Machine, es: seq<Event>)
    requires Follows(cap, inThink, m, es)
    ensures Follows(cap, inThink, Push(m), es)
  {
    CloseBlockAccounts(cap, m.stream.tally, Thoughts(es));
  }

  lemma BeginFollows(cap: int, inThink: bool, m: Machine, es: seq<Event>)
    requires Follows(cap, inThink, m, es)
    ensures Follows(cap, inThink, BeginThink(m), es)
  {
    BeginReported(m);
    InsideNext(m.notices, ThinkStart);
  }

  lemma EndFollows(cap: int, inThink: bool, m: Machine, es: seq<Event>)
    requires Follows(cap, inThink, m, es)
    ensures Follows(cap, inThink, EndThink(m), es) && !EndThink(m).started
  {
    EndReported(m);
    InsideNext(m.notices, ThinkEnd);
    PushFollows(cap, inThink, m, es);
  }

  /** A thought, of a block or explicit. */
  lemma KeepFollows(cap: int, inThink: bool, m: Machine, es: seq<Event>, e: Event)
    requires Follows(cap, inThink, m, es)
    requires e.Thought? || e.Explicit?
    requires m.started == if e.Thought? then Covered(inThink, es) else true
    ensures Follows(cap, inThink, Keep(cap, m, e.text), es + [e])
  {
    var n := Room(cap, m.stream.tally, |e.text|);
    KeepReported(cap, m, e.text);
    RecordAccounts(cap, m.stream.tally, Thoughts(es), e.text);
    ThoughtsNext(es, e);
    CoveredNext(cap, inThink, es, e);
    assert n > 0 <==> e.text != "" && |Thoughts(es)| < cap;
    if n > 0 {
      InsideNext(m.notices, ThinkChunk(e.text[..n]));
    } else {
      assert m.notices + [] == m.notices;
    }
  }

  lemma EmitFollows(cap: int, inThink: bool, m: Machine, es: seq<Event>, text: string)
    requires Follows(cap, inThink, m, es) && m.stream.tally.block == ""
    ensures Follows(cap, inThink, Emit(m, text), es + [Content(text)])
  {
    EmitReported(m, text);
    SilentFollows(cap, inThink, m, es, Content(text));
    if text != "" {
      EndFollows(cap, inThink, m, es);
      InsideNext(EndThink(m).notices, ContentChunk(text));
    }
  }

  // ----- rounds

  /** The events of one round. */
  function RoundEvents(cfg: Config, s: Stream): seq<Event> {
    var c := NextTag(cfg.tags, s.inThink, s.buffer);
    if c.NoTag? then [TextEvent(s.inThink, Safe(cfg.tags, s.inThink, s.buffer))]
    else [TextEvent(s.inThink, Before(cfg.tags, s.inThink, s.buffer)), TagEvent(s.inThink, c)]
  }

  lemma AddPair(es: seq<Event>, e: Event, f: Event)
    ensures es + [e, f] == es + [e] + [f]
  {
  }

  lemma ReleaseTracks(cfg: Config, inThink: bool, m: Machine, es: seq<Event>)
    requires cfg.tags.Valid() && Tracks(cfg.cap, inThink, m, es) && !m.stream.explicit
    requires NextTag(cfg.tags, m.stream.inThink, m.stream.buffer).NoTag?
    ensures Tracks(cfg.cap, inThink, Round(cfg, m), es + RoundEvents(cfg, m.stream))
  {
    var s := m.stream;
    RoundIsStep(cfg, m);
    var m' := m.(stream := s.(buffer := Tail(cfg.tags, s.inThink, s.buffer)));
    var safe := Safe(cfg.tags, s.inThink, s.buffer);
    CoveredNext(cfg.cap, inThink, es, TextEvent(s.inThink, safe));
    if s.inThink {
      KeepFollows(cfg.cap, inThink, m', es, Thought(safe));
    } else {
      EmitFollows(cfg.cap, inThink, m', es, safe);
    }
  }

  lemma CloseTracks(cfg: Config, inThink: bool, m: Machine, es: seq<Event>)
    requires cfg.tags.Valid() && Tracks(cfg.cap, inThink, m, es) && !m.stream.explicit && m.stream.inThink
    requires NextTag(cfg.tags, m.stream.inThink, m.stream.buffer).CloseAt?
    ensures Tracks(cfg.cap, inThink, Round(cfg, m), es + RoundEvents(cfg, m.stream))
  {
    var s := m.stream;
    RoundIsStep(cfg, m);
    var m' := m.(stream := s.(inThink := false, buffer := Rest(cfg.tags, s.inThink, s.buffer)));
    var e := Thought(Before(cfg.tags, s.inThink, s.buffer));
    KeepFollows(cfg.cap, inThink, m', es, e);
    PushFollows(cfg.cap, inThink, Keep(cfg.cap, m', e.text), es + [e]);
    SilentFollows(cfg.cap, inThink, Round(cfg, m), es + [e], CloseTag);
    AddPair(es, e, CloseTag);
  }

  lemma StrayTracks(cfg: Config, inThink: bool, m: Machine, es: seq<Event>)
    requires cfg.tags.Valid() && Tracks(cfg.cap, inThink, m, es) && !m.stream.explicit && !m.stream.inThink
    requires NextTag(cfg.tags, m.stream.inThink, m.stream.buffer).CloseAt?
    ensures Tracks(cfg.cap, inThink, Round(cfg, m), es + RoundEvents(cfg, m.stream))
  {
    var s := m.stream;
    RoundIsStep(cfg, m);
    var m' := m.(stream := s.(buffer := Rest(cfg.tags, s.inThink, s.buffer),
                              tally := s.tally.(stray := s.tally.stray + 1)));
    var e := Content(Before(cfg.tags, s.inThink, s.buffer));
    hide Emit, Find, SuffixOverlap, Covered, AllCovered, InsidePhases;
    EmitFollows(cfg.cap, inThink, m', es, e.text);
    SilentFollows(cfg.cap, inThink, Round(cfg, m), es + [e], StrayClose);
    AddPair(es, e, StrayClose);
  }

  lemma OpenTracks(cfg: Config, inThink: bool, m: Machine, es: seq<Event>)
    requires cfg.tags.Valid() && Tracks(cfg.cap, inThink, m, es) && !m.stream.explicit
    requires NextTag(cfg.tags, m.stream.inThink, m.stream.buffer).OpenAt?
    ensures Tracks(cfg.cap, inThink, Round(cfg, m), es + RoundEvents(cfg, m.stream))
  {
    var s := m.stream;
    RoundIsStep(cfg, m);
    BeginFollows(cfg.cap, inThink, m.(stream := s.(inThink := true)), es);
    var b := BeginThink(m.(stream := s.(inThink := true)));
    var m' := b.(stream := b.stream.(buffer := Rest(cfg.tags, s.inThink, s.buffer)));
    var e := Content(Before(cfg.tags, s.inThink, s.buffer));
    EmitFollows(cfg.cap, inThink, m', es, e.text);
    SilentFollows(cfg.cap, inThink, Round(cfg, m), es + [e], OpenTag);
    CoveredNext(cfg.cap, inThink, es + [e], OpenTag);
    AddPair(es, e, OpenTag);
    EmitEndsPhase(m', e.text);
  }

  lemma EmitEndsPhase(m: Machine, text: string)
    requires Reported(m) && m.started
    ensures Emit(m, text).started <==> text == ""
  {
  }

  lemma RoundTracks(cfg: Config, inThink: bool, m: Machine, es: seq<Event>)
    requires cfg.tags.Valid() && Tracks(cfg.cap, inThink, m, es) && !m.stream.explicit
    ensures Tracks(cfg.cap, inThink, Round(cfg, m), es + RoundEvents(cfg, m.stream))
  {
    match NextTag(cfg.tags, m.stream.inThink, m.stream.buffer)
    case NoTag => ReleaseTracks(cfg, inThink, m, es);
    case OpenAt(_) => OpenTracks(cfg, inThink, m, es);
    case CloseAt(_) =>
      if m.stream.inThink { CloseTracks(cfg, inThink, m, es); } else { StrayTracks(cfg, inThink, m, es); }
  }

  /** An empty text event stands for a loop that does nothing. */
  lemma NothingTracks(cfg: Config, inThink: bool, m: Machine, es: seq<Event>)
    requires Tracks(cfg.cap, inThink, m, es) && !m.stream.explicit
    ensures Tracks(cfg.cap, inThink, m, es + [TextEvent(m.stream.inThink, "")])
  {
    var e := TextEvent(m.stream.inThink, "");
    CoveredNext(cfg.cap, inThink, es, e);
    ThoughtsNext(es, e);
    assert Thoughts(es) + "" == Thoughts(es);
  }

  /** One round of the loop, and the events that the scan finds meanwhile. */
  lemma LoopIsRounds(cfg: Config, m: Machine)
    requires cfg.tags.Valid() && Sound(m) && !m.stream.explicit && m.stream.buffer != ""
    ensures var s, s' := m.stream, Round(cfg, m).stream;
            var es := Scan(cfg.tags, s.inThink, s.buffer).events;
            if NextTag(cfg.tags, s.inThink, s.buffer).NoTag? then
              Loop(cfg, m) == Round(cfg, m) && es == RoundEvents(cfg, s)
            else
              && Loop(cfg, m) == Loop(cfg, Round(cfg, m)) && |s'.buffer| < |s.buffer| && !s'.explicit
              && es == RoundEvents(cfg, s) + Scan(cfg.tags, s'.inThink, s'.buffer).events
  {
    RoundIsStep(cfg, m);
    StepDrains(cfg, m.stream);
    hide Round, Sound;
  }

  lemma {:induction false} LoopTracks(cfg: Config, inThink: bool, m: Machine, es: seq<Event>)
    requires cfg.tags.Valid() && Tracks(cfg.cap, inThink, m, es) && !m.stream.explicit
    ensures Tracks(cfg.cap, inThink, Loop(cfg, m), es + Scan(cfg.tags, m.stream.inThink, m.stream.buffer).events)
    decreases |m.stream.buffer|
  {
    if m.stream.buffer == "" {
      assert NextTag(cfg.tags, m.stream.inThink, "").NoTag? && Safe(cfg.tags, m.stream.inThink, "") == "";
      NothingTracks(cfg, inThink, m, es);
    } else {
      LoopIsRounds(cfg, m);
      RoundTracks(cfg, inThink, m, es);
      hide Tracks, Round, Loop, Scan, RoundEvents;
      var s, m' := m.stream, Round(cfg, m);
      if !NextTag(cfg.tags, s.inThink, s.buffer).NoTag? {
        LoopTracks(cfg, inThink, m', es + RoundEvents(cfg, s));
        AddAll(es, RoundEvents(cfg, s), Scan(cfg.tags, m'.stream.inThink, m'.stream.buffer).events);
      }
    }
  }

  lemma AddAll(es: seq<Event>, fs: seq<Event>, gs: seq<Event>)
    ensures es + fs + gs == es + (fs + gs)
  {
  }

  // ----- runs

  lemma LeavingTracks(cfg: Config, inThink: bool, m: Machine, es: seq<Event>)
    requires Tracks(cfg.cap, inThink, m, es)
    ensures var es' := if m.stream.explicit then es + [ExplicitEnd] else es;
            Tracks(cfg.cap, inThink, LeaveExplicit(m), es')
  {
    LeaveExplicitReported(m);
    if m.stream.explicit {
      var m' := m.(stream := m.stream.(explicit := false));
      PushFollows(cfg.cap, inThink, m', es);
      EndFollows(cfg.cap, inThink, Push(m'), es);
      SilentFollows(cfg.cap, inThink, LeaveExplicit(m), es, ExplicitEnd);
      CoveredNext(cfg.cap, inThink, es, ExplicitEnd);
    }
  }

  lemma ExplicitTracks(cfg: Config, inThink: bool, m: Machine, es: seq<Event>, text: string)
    requires cfg.tags.Valid() && Tracks(cfg.cap, inThink, m, es) && text != ""
    ensures Tracks(cfg.cap, inThink, FeedOne(cfg, m, Input(text, true)), es + [Explicit(text)])
  {
    FeedOneIsFeed(cfg, m, Input(text, true));
    var m' := m.(stream := m.stream.(explicit := true));
    BeginFollows(cfg.cap, inThink, m', es);
    BeginReported(m');
    KeepFollows(cfg.cap, inThink, BeginThink(m'), es, Explicit(text));
    CoveredNext(cfg.cap, inThink, es, Explicit(text));
  }

  lemma OrdinaryTracks(cfg: Config, inThink: bool, m: Machine, es: seq<Event>, text: string)
    requires cfg.tags.Valid() && Tracks(cfg.cap, inThink, m, es) && text != ""
    ensures Tracks(cfg.cap, inThink, FeedOne(cfg, m, Input(text, false)),
                   es + FeedEvents(cfg, m.stream, Input(text, false)))
  {
    LeavingTracks(cfg, inThink, m, es);
    LeaveExplicitReported(m);
    var l, buffer := LeaveExplicit(m), m.stream.buffer + text;
    assert l.stream.buffer == m.stream.buffer && l.stream.inThink == m.stream.inThink;
    hide LeaveExplicit, Tracks, Loop, Scan;
    var es' := if m.stream.explicit then es + [ExplicitEnd] else es;
    BufferAside(cfg.cap, inThink, l, es', buffer);
    LoopTracks(cfg, inThink, l.(stream := l.stream.(buffer := buffer)), es');
    AddAll(es, [ExplicitEnd], Scan(cfg.tags, m.stream.inThink, buffer).events);
  }

  lemma FeedOneTracks(cfg: Config, inThink: bool, m: Machine, es: seq<Event>, i: Input)
    requires cfg.tags.Valid() && Tracks(cfg.cap, inThink, m, es)
    ensures Tracks(cfg.cap, inThink, FeedOne(cfg, m, i), es + FeedEvents(cfg, m.stream, i))
  {
    if i.text == "" {
      assert es + [] == es;
    } else if i.explicit {
      ExplicitTracks(cfg, inThink, m, es, i.text);
    } else {
      OrdinaryTracks(cfg, inThink, m, es, i.text);
    }
  }

  lemma BufferAside(cap: int, inThink: bool, m: Machine, es: seq<Event>, buffer: string)
    requires Tracks(cap, inThink, m, es)
    ensures Tracks(cap, inThink, m.(stream := m.stream.(buffer := buffer)), es)
  {
  }

  lemma FeedEachNext(cfg: Config, m: Machine, inputs: seq<Input>)
    requires cfg.tags.Valid() && Sound(m) && inputs != []
    ensures var m' := FeedOne(cfg, m, inputs[0]);
            && FeedEach(cfg, m, inputs) == FeedEach(cfg, m', inputs[1..])
            && Trace(cfg, m.stream, inputs)
               == FeedEvents(cfg, m.stream, inputs[0]) + Trace(cfg, m'.stream, inputs[1..])
  {
    FeedOneIsFeed(cfg, m, inputs[0]);
    hide FeedOne, Feed, FeedEvents, Sound;
  }

  lemma {:induction false} FeedEachTracks(cfg: Config, inThink: bool, m: Machine, es: seq<Event>, inputs: seq<Input>)
    requires cfg.tags.Valid() && Tracks(cfg.cap, inThink, m, es)
    ensures Tracks(cfg.cap, inThink, FeedEach(cfg, m, inputs), es + Trace(cfg, m.stream, inputs))
    decreases |inputs|
  {
    if inputs == [] {
      assert es + [] == es;
    } else {
      var i := inputs[0];
      FeedOneTracks(cfg, inThink, m, es, i);
      FeedEachNext(cfg, m, inputs);
      hide Tracks, FeedEvents, FeedOne, FeedEach, Trace;
      var m', first := FeedOne(cfg, m, i), FeedEvents(cfg, m.stream, i);
      FeedEachTracks(cfg, inThink, m', es + first, inputs[1..]);
      AddAll(es, first, Trace(cfg, m'.stream, inputs[1..]));
    }
  }

  lemma StartTracks(cap: int, inThink: bool)
    ensures Tracks(cap, inThink, Initial(inThink), [])
  {
    InitialIsSound(inThink);
  }

  /** At every point of every run all thoughts have been heard inside a phase, between a start and its
      end, exactly when every heard thought of a block is covered: since its open tag no text has come
      back from the explicit channel without a new explicit chunk, and its open tag had no text before it
      in the buffer, unless an explicit chunk came since. */
  lemma ThoughtsInsidePhasesIff(cfg: Config, inThink: bool, inputs: seq<Input>)
    requires cfg.tags.Valid()
    ensures InsidePhases(FeedEach(cfg, Initial(inThink), inputs).notices)
       <==> AllCovered(cfg.cap, inThink, Trace(cfg, Start(inThink), inputs))
  {
    StartTracks(cfg.cap, inThink);
    FeedEachTracks(cfg, inThink, Initial(inThink), [], inputs);
    assert [] + Trace(cfg, Start(inThink), inputs) == Trace(cfg, Start(inThink), inputs);
  }

  /** The events of the flush. */
  function FlushEvents(s: Stream): seq<Event> {
    (if s.explicit then [ExplicitEnd] else []) + [TextEvent(s.inThink, s.buffer)]
  }

  lemma FinishFollows(cfg: Config, inThink: bool, m: Machine, es: seq<Event>)
    requires Tracks(cfg.cap, inThink, m, es)
    ensures Follows(cfg.cap, inThink, Finish(cfg, m), es + FlushEvents(m.stream))
  {
    LeavingTracks(cfg, inThink, m, es);
    LeaveExplicitReported(m);
    var l, text := LeaveExplicit(m), m.stream.buffer;
    var es' := if m.stream.explicit then es + [ExplicitEnd] else es;
    var e := l.(stream := l.stream.(buffer := "", unclosed := l.stream.unclosed || l.stream.inThink));
    var ev := TextEvent(m.stream.inThink, text);
    assert es + FlushEvents(m.stream) == es' + [ev];
    hide Covered, AllCovered, InsidePhases;
    if l.stream.inThink {
      KeepFollows(cfg.cap, inThink, e, es', ev);
    } else {
      EmitFollows(cfg.cap, inThink, e, es', text);
    }
    var k := if l.stream.inThink then Keep(cfg.cap, e, text) else Emit(e, text);
    PushFollows(cfg.cap, inThink, k, es' + [ev]);
    EndFollows(cfg.cap, inThink, Push(k), es' + [ev]);
  }

  /** The same after the flush, which may release a last thought. */
  lemma FlushedThoughtsInsidePhasesIff(cfg: Config, inThink: bool, inputs: seq<Input>)
    requires cfg.tags.Valid()
    ensures InsidePhases(Finish(cfg, FeedEach(cfg, Initial(inThink), inputs)).notices)
       <==> AllCovered(cfg.cap, inThink,
              Trace(cfg, Start(inThink), inputs) + FlushEvents(FeedAll(cfg, Start(inThink), inputs)))
  {
    StartTracks(cfg.cap, inThink);
    FeedEachTracks(cfg, inThink, Initial(inThink), [], inputs);
    assert [] + Trace(cfg, Start(inThink), inputs) == Trace(cfg, Start(inThink), inputs);
    InitialIsSound(inThink);
    FeedEachIsFeedAll(cfg, Initial(inThink), inputs);
    FinishFollows(cfg, inThink, FeedEach(cfg, Initial(inThink), inputs), Trace(cfg, Start(inThink), inputs));
  }
}
