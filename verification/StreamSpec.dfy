/** What a thinking stream means. The scanner, the whole-text parse and the tally that both feed
    are functions on values; the class in ThinkingStream.dfy is proved against them. */
module StreamSpec {
  import opened Matching

  datatype Tags = Tags(open: string, close: string) {
    predicate Valid() {
      open != "" && close != ""
    }
  }

  /** The tags, and the number of thought characters that are kept. */
  datatype Config = Config(tags: Tags, cap: int)

  /** What the scanner finds, in text order. Explicit is a chunk that arrives on the separate
      thinking channel, ExplicitEnd the return to ordinary text. */
  datatype Event =
    | Content(text: string)
    | Thought(text: string)
    | OpenTag
    | CloseTag
    | StrayClose
    | Explicit(text: string)
    | ExplicitEnd

  // ----- the tally: what is kept of the events

  datatype Tally = Tally(
    block: string,
    blocks: seq<string>,
    clean: string,
    thinking: string,
    discarded: nat,
    stray: nat)

  const EMPTY := Tally("", [], "", "", 0, 0)

  /** Number of the next n thought characters that still fit under the cap. */
  function Room(cap: int, t: Tally, n: nat): (r: nat)
    ensures r <= n
  {
    if |t.thinking| >= cap then 0 else if n <= cap - |t.thinking| then n else cap - |t.thinking|
  }

  function Record(cap: int, t: Tally, text: string): Tally {
    var kept := text[..Room(cap, t, |text|)];
    t.(thinking := t.thinking + kept, block := t.block + kept,
       discarded := t.discarded + (|text| - |kept|))
  }

  function CloseBlock(t: Tally): Tally {
    if t.block == "" then t else t.(blocks := t.blocks + [t.block], block := "")
  }

  function Apply(cap: int, t: Tally, e: Event): Tally {
    match e
    case Content(text) => t.(clean := t.clean + text)
    case Thought(text) => Record(cap, t, text)
    case OpenTag => t
    case CloseTag => CloseBlock(t)
    case StrayClose => t.(stray := t.stray + 1)
    case Explicit(text) => Record(cap, t, text)
    case ExplicitEnd => CloseBlock(t)
  }

  function Run(cap: int, t: Tally, es: seq<Event>): Tally
    decreases |es|
  {
    if es == [] then t else Run(cap, Apply(cap, t, es[0]), es[1..])
  }

  // ----- scanning

  datatype Cut = NoTag | OpenAt(pos: nat) | CloseAt(pos: nat)

  /** The tag that decides the next step. Inside a think block only the close tag is looked for;
      outside, the leftmost tag, the open tag when both start at the same index. */
  function NextTag(tags: Tags, inThink: bool, s: string): (c: Cut)
    ensures c.OpenAt? ==> !inThink && OccursAt(s, tags.open, c.pos)
    ensures c.CloseAt? ==> OccursAt(s, tags.close, c.pos)
  {
    var o := Find(s, tags.open);
    var c := Find(s, tags.close);
    if inThink then
      if c == -1 then NoTag else CloseAt(c)
    else if c != -1 && (o == -1 || c < o) then CloseAt(c)
    else if o != -1 then OpenAt(o)
    else NoTag
  }

  /** Number of trailing characters that may be the start of a tag that the mode waits for. */
  function Hold(tags: Tags, inThink: bool, s: string): (k: nat)
    ensures k <= |s|
  {
    var c := SuffixOverlap(s, tags.close);
    var o := SuffixOverlap(s, tags.open);
    if inThink || o <= c then c else o
  }

  function TextEvent(inThink: bool, text: string): Event {
    if inThink then Thought(text) else Content(text)
  }

  function TagEvent(inThink: bool, c: Cut): Event
    requires !c.NoTag?
  {
    if c.OpenAt? then OpenTag else if inThink then CloseTag else StrayClose
  }

  function TagLength(tags: Tags, c: Cut): nat {
    match c
    case NoTag => 0
    case OpenAt(_) => |tags.open|
    case CloseAt(_) => |tags.close|
  }

  /** The part of s that a scan releases when s holds no tag, and the part that it holds back. */
  function Safe(tags: Tags, inThink: bool, s: string): string {
    s[..|s| - Hold(tags, inThink, s)]
  }

  function Tail(tags: Tags, inThink: bool, s: string): string {
    s[|s| - Hold(tags, inThink, s)..]
  }

  /** The text before the first tag of s, and the text after it. */
  function Before(tags: Tags, inThink: bool, s: string): string
    requires !NextTag(tags, inThink, s).NoTag?
  {
    s[..NextTag(tags, inThink, s).pos]
  }

  function Rest(tags: Tags, inThink: bool, s: string): (r: string)
    requires !NextTag(tags, inThink, s).NoTag?
    ensures |r| + TagLength(tags, NextTag(tags, inThink, s)) <= |s|
  {
    var c := NextTag(tags, inThink, s);
    s[c.pos + TagLength(tags, c)..]
  }

  /** Result of scanning a buffer: the events, the mode after it, and what is held back. */
  datatype Scanned = Scanned(events: seq<Event>, inThink: bool, held: string)

  /** Incremental scan: a tail that may be part of a tag is held back. */
  function Scan(tags: Tags, inThink: bool, s: string): Scanned
    requires tags.Valid()
    decreases |s|
  {
    var c := NextTag(tags, inThink, s);
    if c.NoTag? then
      Scanned([TextEvent(inThink, Safe(tags, inThink, s))], inThink, Tail(tags, inThink, s))
    else
      var r := Scan(tags, c.OpenAt?, Rest(tags, inThink, s));
      Scanned([TextEvent(inThink, Before(tags, inThink, s)), TagEvent(inThink, c)] + r.events, r.inThink, r.held)
  }

  /** Whole-text parse, the reference: split at tags from the left, hold nothing back. */
  function Parse(tags: Tags, inThink: bool, s: string): Scanned
    requires tags.Valid()
    decreases |s|
  {
    var c := NextTag(tags, inThink, s);
    if c.NoTag? then
      Scanned([TextEvent(inThink, s)], inThink, "")
    else
      var r := Parse(tags, c.OpenAt?, Rest(tags, inThink, s));
      Scanned([TextEvent(inThink, Before(tags, inThink, s)), TagEvent(inThink, c)] + r.events, r.inThink, "")
  }

  /** The tally after the text before a tag, and the tag. */
  function AfterTag(cfg: Config, t: Tally, inThink: bool, s: string): Tally
    requires !NextTag(cfg.tags, inThink, s).NoTag?
  {
    var c := NextTag(cfg.tags, inThink, s);
    Apply(cfg.cap, Apply(cfg.cap, t, TextEvent(inThink, Before(cfg.tags, inThink, s))), TagEvent(inThink, c))
  }

  // ----- streams

  /** Everything a stream has accumulated, apart from its notifications. */
  datatype Stream = Stream(
    inThink: bool,
    explicit: bool,
    buffer: string,
    tally: Tally,
    unclosed: bool)

  function Start(inThink: bool): Stream {
    Stream(inThink, false, "", EMPTY, false)
  }

  /** One chunk; explicit chunks come on the separate thinking channel. */
  datatype Input = Input(text: string, explicit: bool)

  /** Events of one chunk. */
  function FeedEvents(cfg: Config, s: Stream, i: Input): seq<Event>
    requires cfg.tags.Valid()
  {
    if i.text == "" then []
    else if i.explicit then [Explicit(i.text)]
    else
      var es := Scan(cfg.tags, s.inThink, s.buffer + i.text).events;
      if s.explicit then [ExplicitEnd] + es else es
  }

  function Feed(cfg: Config, s: Stream, i: Input): Stream
    requires cfg.tags.Valid()
  {
    var tally := Run(cfg.cap, s.tally, FeedEvents(cfg, s, i));
    if i.text == "" then s
    else if i.explicit then s.(explicit := true, tally := tally)
    else
      var r := Scan(cfg.tags, s.inThink, s.buffer + i.text);
      Stream(r.inThink, false, r.held, tally, s.unclosed)
  }

  /** End of stream: the held text is released, an open block is closed. */
  function Flush(cfg: Config, s: Stream): Stream {
    var t := if s.explicit then CloseBlock(s.tally) else s.tally;
    var t' := Apply(cfg.cap, t, TextEvent(s.inThink, s.buffer));
    Stream(s.inThink, false, "", CloseBlock(t'), s.unclosed || s.inThink)
  }

  function FeedAll(cfg: Config, s: Stream, inputs: seq<Input>): Stream
    requires cfg.tags.Valid()
    decreases |inputs|
  {
    if inputs == [] then s else FeedAll(cfg, Feed(cfg, s, inputs[0]), inputs[1..])
  }

  function Trace(cfg: Config, s: Stream, inputs: seq<Input>): seq<Event>
    requires cfg.tags.Valid()
    decreases |inputs|
  {
    if inputs == [] then []
    else FeedEvents(cfg, s, inputs[0]) + Trace(cfg, Feed(cfg, s, inputs[0]), inputs[1..])
  }

  /** One round of the scan loop on the buffer. */
  function Step(cfg: Config, s: Stream): Stream {
    var c := NextTag(cfg.tags, s.inThink, s.buffer);
    if c.NoTag? then
      s.(tally := Apply(cfg.cap, s.tally, TextEvent(s.inThink, Safe(cfg.tags, s.inThink, s.buffer))),
         buffer := Tail(cfg.tags, s.inThink, s.buffer))
    else
      s.(inThink := c.OpenAt?,
         tally := AfterTag(cfg, s.tally, s.inThink, s.buffer),
         buffer := Rest(cfg.tags, s.inThink, s.buffer))
  }

  /** The scan loop run to its end. */
  function Drain(cfg: Config, s: Stream): Stream
    requires cfg.tags.Valid()
  {
    var r := Scan(cfg.tags, s.inThink, s.buffer);
    s.(inThink := r.inThink, tally := Run(cfg.cap, s.tally, r.events), buffer := r.held)
  }

  // ----- the reference results

  function Ordinary(chunks: seq<string>): seq<Input> {
    seq(|chunks|, i requires 0 <= i < |chunks| => Input(chunks[i], false))
  }

  function Concat(parts: seq<string>): string {
    if parts == [] then "" else parts[0] + Concat(parts[1..])
  }

  /** A text streamed in pieces and then flushed. */
  function Streamed(cfg: Config, inThink: bool, chunks: seq<string>): Stream
    requires cfg.tags.Valid()
  {
    Flush(cfg, FeedAll(cfg, Start(inThink), Ordinary(chunks)))
  }

  /** The same text parsed as a whole. */
  function Batch(cfg: Config, inThink: bool, text: string): Stream
    requires cfg.tags.Valid()
  {
    var p := Parse(cfg.tags, inThink, text);
    Stream(p.inThink, false, "", CloseBlock(Run(cfg.cap, EMPTY, p.events)), p.inThink)
  }
}
