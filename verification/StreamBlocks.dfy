/** What the think blocks are: the stretches of thought between the ends of thinking, up to the cap. */
module StreamBlocks {
  import opened StreamSpec
  import opened StreamTheorems

  /** The thoughts of a stream, cut at every close tag and every return from the explicit channel. */
  function Stretches(es: seq<Event>): (r: seq<string>)
    ensures r != []
    decreases |es|
  {
    if es == [] then [""]
    else
      var before, e := Stretches(es[..|es| - 1]), es[|es| - 1];
      var n := |before| - 1;
      if e.Thought? || e.Explicit? then before[..n] + [before[n] + e.text]
      else if e.CloseTag? || e.ExplicitEnd? then before + [""]
      else before
  }

  function Limit(cap: int): nat {
    if cap > 0 then cap else 0
  }

  function Left(room: nat, used: nat): nat {
    if used < room then room - used else 0
  }

  function Take(s: string, n: nat): string {
    if n < |s| then s[..n] else s
  }

  function NotEmpty(s: string): seq<string> {
    if s == "" then [] else [s]
  }

  /** The first `room` characters of the stretches, as far as they are not empty. */
  function Capped(stretches: seq<string>, room: nat): seq<string> {
    if stretches == [] then []
    else NotEmpty(Take(stretches[0], room)) + Capped(stretches[1..], Left(room, |stretches[0]|))
  }

  lemma {:induction false} CappedNext(stretches: seq<string>, last: string, room: nat)
    ensures Capped(stretches + [last], room)
         == Capped(stretches, room) + NotEmpty(Take(last, Left(room, |Concat(stretches)|)))
    decreases |stretches|
  {
    hide NotEmpty, Take;
    if stretches == [] {
      assert stretches + [last] == [last];
      assert Capped([last], room) == NotEmpty(Take(last, room)) + Capped([last][1..], Left(room, |last|));
    } else {
      var all := stretches + [last];
      assert all[0] == stretches[0] && all[1..] == stretches[1..] + [last];
      CappedNext(stretches[1..], last, Left(room, |stretches[0]|));
    }
  }

  /** The closed blocks are the capped stretches before the last one, the open block is the last one. */
  ghost predicate Holds(cap: int, t: Tally, stretches: seq<string>)
    requires stretches != []
  {
    var n, room := |stretches| - 1, Limit(cap);
    var used := |Concat(stretches[..n])|;
    && t.blocks == Capped(stretches[..n], room)
    && t.block == Take(stretches[n], Left(room, used))
    && |t.thinking| == room - Left(room, used + |stretches[n]|)
  }

  lemma RecordHolds(cap: int, t: Tally, stretches: seq<string>, text: string)
    requires stretches != [] && Holds(cap, t, stretches)
    ensures var n := |stretches| - 1;
            Holds(cap, Record(cap, t, text), stretches[..n] + [stretches[n] + text])
  {
    var n := |stretches| - 1;
    var front, last := stretches[..n], stretches[n];
    var next := front + [last + text];
    assert next[..n] == front && next[n] == last + text;
    var left, kept := Left(Limit(cap), |Concat(front)|), Room(cap, t, |text|);
    TakeMore(last, text, left, kept);
  }

  lemma TakeMore(last: string, text: string, left: nat, kept: nat)
    requires kept == if left <= |last| then 0 else if |text| <= left - |last| then |text| else left - |last|
    ensures Take(last + text, left) == Take(last, left) + text[..kept]
  {
  }

  lemma CloseHolds(cap: int, t: Tally, stretches: seq<string>)
    requires stretches != [] && Holds(cap, t, stretches)
    ensures Holds(cap, CloseBlock(t), stretches + [""])
    ensures CloseBlock(t).blocks == Capped(stretches, Limit(cap)) && CloseBlock(t).block == ""
  {
    var n := |stretches| - 1;
    var next := stretches + [""];
    assert next[..n + 1] == stretches && next[n + 1] == "";
    assert stretches == stretches[..n] + [stretches[n]];
    CappedNext(stretches[..n], stretches[n], Limit(cap));
    ConcatConcat(stretches[..n], [stretches[n]]);
    assert Concat([stretches[n]]) == stretches[n] + Concat([]);
  }

  /** At every point the blocks are the capped stretches of the events so far. */
  lemma {:induction false} BlocksAreStretches(cap: int, es: seq<Event>)
    ensures Holds(cap, Run(cap, EMPTY, es), Stretches(es))
    decreases |es|
  {
    if es == [] {
      assert [""][..0] == [];
    } else {
      var n := |es| - 1;
      var before, e := es[..n], es[n];
      assert es == before + [e];
      BlocksAreStretches(cap, before);
      RunAppend(cap, EMPTY, before, [e]);
      var t := Run(cap, EMPTY, before);
      RunOne(cap, t, e);
      hide Holds, Run;
      if e.Thought? || e.Explicit? {
        RecordHolds(cap, t, Stretches(before), e.text);
      } else if e.CloseTag? || e.ExplicitEnd? {
        CloseHolds(cap, t, Stretches(before));
      } else {
        OthersHold(cap, t, e, Stretches(before));
      }
    }
  }

  lemma OthersHold(cap: int, t: Tally, e: Event, stretches: seq<string>)
    requires stretches != [] && Holds(cap, t, stretches)
    requires e.Content? || e.OpenTag? || e.StrayClose?
    ensures Holds(cap, Apply(cap, t, e), stretches)
  {
  }

  /** The blocks of a text parsed as a whole are its stretches of thought that are not empty, in order, as
      far as the cap goes. */
  lemma BatchBlocks(cfg: Config, inThink: bool, text: string)
    requires cfg.tags.Valid()
    ensures Batch(cfg, inThink, text).tally.blocks
         == Capped(Stretches(Parse(cfg.tags, inThink, text).events), Limit(cfg.cap))
  {
    var es := Parse(cfg.tags, inThink, text).events;
    BlocksAreStretches(cfg.cap, es);
    CloseHolds(cfg.cap, Run(cfg.cap, EMPTY, es), Stretches(es));
    hide Holds, Parse;
  }
}
