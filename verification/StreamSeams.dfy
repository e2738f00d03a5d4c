/** When cleaning a text leaves a tag behind: what is kept before a removed tag and what is kept after it
    can join up to a new tag. */
module StreamSeams {
  import opened Matching
  import opened StreamSpec
  import opened StreamTheorems
  import opened StreamRuns

  // ----- tags across a seam

  /** p occurs in a + b across the end of a. */
  predicate Crosses(a: string, b: string, p: string) {
    exists q :: 0 <= q < |a| && |a| < q + |p| && OccursAt(a + b, p, q)
  }

  /** A tag occurs across the seam between a and b. */
  predicate Seam(tags: Tags, a: string, b: string) {
    Crosses(a, b, tags.open) || Crosses(a, b, tags.close)
  }

  predicate NoTags(tags: Tags, s: string) {
    NextTag(tags, false, s).NoTag?
  }

  lemma NoTagsMeans(tags: Tags, s: string)
    ensures NoTags(tags, s) <==> !Occurs(s, tags.open) && !Occurs(s, tags.close)
  {
    if i :| OccursAt(s, tags.open, i) {
      FindIsLeftmost(s, tags.open, i);
    }
    if i :| OccursAt(s, tags.close, i) {
      FindIsLeftmost(s, tags.close, i);
    }
  }

  lemma OccursInConcat(a: string, b: string, p: string)
    ensures Occurs(a + b, p) <==> Occurs(a, p) || Occurs(b, p) || Crosses(a, b, p)
  {
    if i :| OccursAt(a + b, p, i) {
      if i + |p| <= |a| {
        OccursInPrefix(a, b, p, i);
      } else if |a| <= i {
        OccursInSuffix(a, b, p, i - |a|);
      }
    }
    if i :| OccursAt(a, p, i) {
      OccursInPrefix(a, b, p, i);
    }
    if i :| OccursAt(b, p, i) {
      OccursInSuffix(a, b, p, i);
    }
  }

  lemma NoTagsInConcat(tags: Tags, a: string, b: string)
    ensures NoTags(tags, a + b) <==> NoTags(tags, a) && NoTags(tags, b) && !Seam(tags, a, b)
  {
    NoTagsMeans(tags, a);
    NoTagsMeans(tags, b);
    NoTagsMeans(tags, a + b);
    OccursInConcat(a, b, tags.open);
    OccursInConcat(a, b, tags.close);
    hide NoTags, Crosses, Occurs;
  }

  // ----- walking a text

  /** The content before the next tag of the text. */
  function Piece(tags: Tags, inThink: bool, text: string): string {
    if inThink then ""
    else if NextTag(tags, false, text).NoTag? then text
    else Before(tags, false, text)
  }

  /** Somewhere in the text a tag occurs across the seam between the content kept so far and the next
      piece of content. */
  predicate Seams(tags: Tags, inThink: bool, kept: string, text: string)
    requires tags.Valid()
    decreases |text|
  {
    var c, piece := NextTag(tags, inThink, text), Piece(tags, inThink, text);
    Seam(tags, kept, piece) || (!c.NoTag? && Seams(tags, c.OpenAt?, kept + piece, Rest(tags, inThink, text)))
  }

  lemma PieceHasNoTags(tags: Tags, inThink: bool, text: string)
    requires tags.Valid()
    ensures NoTags(tags, Piece(tags, inThink, text))
  {
    var piece, c := Piece(tags, inThink, text), NextTag(tags, false, text);
    NoTagsMeans(tags, piece);
    if !inThink && !c.NoTag? {
      assert text == piece + text[c.pos..];
      forall p, i | (p == tags.open || p == tags.close) && OccursAt(piece, p, i)
        ensures false
      {
        OccursInPrefix(piece, text[c.pos..], p, i);
        FindIsLeftmost(text, p, i);
        assert false;
      }
    }
  }

  /** All content of the text. */
  function Kept(tags: Tags, inThink: bool, text: string): string
    requires tags.Valid()
  {
    Contents(Parse(tags, inThink, text).events)
  }

  lemma ContentsOfOne(e: Event)
    ensures Contents([e]) == if e.Content? then e.text else ""
  {
    assert Contents([e]) == (if e.Content? then e.text else "") + Contents([]);
  }

  lemma ContentsOfPair(e: Event, f: Event, es: seq<Event>)
    requires !f.Content?
    ensures Contents([e, f] + es) == (if e.Content? then e.text else "") + Contents(es)
  {
    assert ([e, f] + es)[1..] == [f] + es && ([f] + es)[1..] == es;
    assert Contents([f] + es) == "" + Contents(es) == Contents(es);
  }

  /** The content of a text is its first piece and the content after its first tag. */
  lemma KeptInPieces(tags: Tags, inThink: bool, text: string)
    requires tags.Valid()
    ensures var c := NextTag(tags, inThink, text);
            Kept(tags, inThink, text)
            == if c.NoTag? then Piece(tags, inThink, text)
               else Piece(tags, inThink, text) + Kept(tags, c.OpenAt?, Rest(tags, inThink, text))
  {
    hide NextTag, Contents, Rest, Before;
    var c := NextTag(tags, inThink, text);
    if c.NoTag? {
      ContentsOfOne(TextEvent(inThink, text));
    } else {
      ContentsOfPair(TextEvent(inThink, Before(tags, inThink, text)), TagEvent(inThink, c),
                     Parse(tags, c.OpenAt?, Rest(tags, inThink, text)).events);
    }
  }

  lemma SeamsNext(tags: Tags, inThink: bool, kept: string, text: string)
    requires tags.Valid()
    ensures var c, piece := NextTag(tags, inThink, text), Piece(tags, inThink, text);
            && Seams(tags, inThink, kept, text)
               == (Seam(tags, kept, piece)
                   || (!c.NoTag? && Seams(tags, c.OpenAt?, kept + piece, Rest(tags, inThink, text))))
            && (!c.NoTag? ==> |Rest(tags, inThink, text)| < |text|)
  {
    hide NextTag, Seam, Piece;
  }

  /** The content kept of a text holds a tag exactly when a seam of the text does. */
  lemma {:induction false} SeamsAreTags(tags: Tags, inThink: bool, kept: string, text: string)
    requires tags.Valid() && NoTags(tags, kept)
    ensures NoTags(tags, kept + Kept(tags, inThink, text)) <==> !Seams(tags, inThink, kept, text)
    decreases |text|
  {
    SeamsNext(tags, inThink, kept, text);
    PieceHasNoTags(tags, inThink, text);
    KeptInPieces(tags, inThink, text);
    hide NoTags, Seam, Kept, Piece, NextTag, Rest, Seams;
    var c, piece := NextTag(tags, inThink, text), Piece(tags, inThink, text);
    NoTagsInConcat(tags, kept, piece);
    if !c.NoTag? {
      var rest := Kept(tags, c.OpenAt?, Rest(tags, inThink, text));
      assert kept + (piece + rest) == kept + piece + rest;
      NoTagsInConcat(tags, kept + piece, rest);
      if !Seam(tags, kept, piece) {
        SeamsAreTags(tags, c.OpenAt?, kept + piece, Rest(tags, inThink, text));
      }
    }
  }

  lemma CleanedHoldsNoTagIff(cfg: Config, text: string)
    requires cfg.tags.Valid()
    ensures NoTags(cfg.tags, Cleaned(cfg, text)) <==> !Seams(cfg.tags, false, "", text)
  {
    var es := Parse(cfg.tags, false, text).events;
    CleanIsContents(cfg.cap, EMPTY, es);
    assert Cleaned(cfg, text) == "" + Contents(es);
    assert NoTags(cfg.tags, "");
    SeamsAreTags(cfg.tags, false, "", text);
  }

  /** Cleaning a text a second time changes nothing exactly when no tag of the text lies across a seam. */
  lemma CleaningTwiceIff(cfg: Config, text: string)
    requires cfg.tags.Valid()
    ensures Cleaned(cfg, Cleaned(cfg, text)) == Cleaned(cfg, text) <==> !Seams(cfg.tags, false, "", text)
  {
    CleanedHoldsNoTagIff(cfg, text);
    CleanedIsFixedIffNoTag(cfg, Cleaned(cfg, text));
  }

  // ----- a simpler sufficient condition

  /** The content ends in what may be the start of a tag. */
  predicate MayBegin(tags: Tags, kept: string) {
    SuffixOverlap(kept, tags.open) > 0 || SuffixOverlap(kept, tags.close) > 0
  }

  /** Some removed tag of the text is preceded by content that may begin a tag. */
  predicate Touches(tags: Tags, inThink: bool, kept: string, text: string)
    requires tags.Valid()
    decreases |text|
  {
    var c, piece := NextTag(tags, inThink, text), Piece(tags, inThink, text);
    !c.NoTag? && (MayBegin(tags, kept + piece) || Touches(tags, c.OpenAt?, kept + piece, Rest(tags, inThink, text)))
  }

  lemma SeamNeedsOverlap(tags: Tags, a: string, b: string)
    requires Seam(tags, a, b)
    ensures MayBegin(tags, a)
  {
    forall p, q | 0 <= q < |a| && |a| < q + |p| && OccursAt(a + b, p, q)
      ensures SuffixOverlap(a, p) > 0
    {
      CrossingMatchOverlaps(a, b, p, q);
      OverlapIsLongest(a, p, |a| - q);
    }
  }

  lemma {:induction false} SeamsTouch(tags: Tags, inThink: bool, kept: string, text: string)
    requires tags.Valid() && Seams(tags, inThink, kept, text) && !MayBegin(tags, kept)
    ensures Touches(tags, inThink, kept, text)
    decreases |text|
  {
    var c, piece := NextTag(tags, inThink, text), Piece(tags, inThink, text);
    if Seam(tags, kept, piece) {
      SeamNeedsOverlap(tags, kept, piece);
    } else if !MayBegin(tags, kept + piece) {
      SeamsTouch(tags, c.OpenAt?, kept + piece, Rest(tags, inThink, text));
    }
  }

  /** So cleaning is idempotent on every text in which no removed tag follows content that may begin
      one. */
  lemma CleaningTwiceUntouched(cfg: Config, text: string)
    requires cfg.tags.Valid() && !Touches(cfg.tags, false, "", text)
    ensures Cleaned(cfg, Cleaned(cfg, text)) == Cleaned(cfg, text)
  {
    CleaningTwiceIff(cfg, text);
    if Seams(cfg.tags, false, "", text) {
      SeamsTouch(cfg.tags, false, "", text);
    }
  }
}
