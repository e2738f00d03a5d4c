/** BM25 ranking over tokenised documents, on the reals. The logarithm is a parameter. */
module Lexical {
  import opened Wrappers

  datatype Match = Match(index: nat, score: real)

  /** k1 and b of BM25, and the logarithm. */
  datatype Settings = Settings(k1: real, b: real, ln: real -> real)

  /** All that is used of the logarithm. */
  ghost predicate IsLog(ln: real -> real) {
    forall x: real :: x > 1.0 ==> ln(x) > 0.0
  }

  function MaxReal(x: real, y: real): (m: real)
    ensures m >= x && m >= y && (m == x || m == y)
  {
    if x >= y then x else y
  }

  /** Weight of a term that df of the total documents contain. */
  function InverseDocumentFrequency(ln: real -> real, total: nat, df: nat): real {
    ln(MaxReal(0.0, (total as real - df as real + 0.5) / (df as real + 0.5)) + 1.0)
  }

  function Count(tokens: seq<string>, term: string): nat {
    if tokens == [] then 0 else (if tokens[0] == term then 1 else 0) + Count(tokens[1..], term)
  }

  function DocumentFrequency(docs: seq<seq<string>>, term: string): nat {
    if docs == [] then 0 else (if term in docs[0] then 1 else 0) + DocumentFrequency(docs[1..], term)
  }

  function TotalLength(docs: seq<seq<string>>): nat {
    if docs == [] then 0 else |docs[0]| + TotalLength(docs[1..])
  }

  function AverageLength(docs: seq<seq<string>>): real {
    TotalLength(docs) as real / MaxReal(1.0, |docs| as real)
  }

  function Denominator(s: Settings, frequency: nat, length: nat, average: real): real {
    frequency as real + s.k1 * (1.0 - s.b + s.b * (length as real / MaxReal(0.0001, average)))
  }

  /** What a term adds to the score of a document that contains it frequency times. */
  function TermScore(s: Settings, docs: seq<seq<string>>, tokens: seq<string>, term: string): real {
    var frequency := Count(tokens, term);
    if frequency == 0 then 0.0
    else
      InverseDocumentFrequency(s.ln, |docs|, DocumentFrequency(docs, term)) * (frequency as real * (s.k1 + 1.0))
      / MaxReal(0.0001, Denominator(s, frequency, |tokens|, AverageLength(docs)))
  }

  function Score(s: Settings, docs: seq<seq<string>>, tokens: seq<string>, terms: seq<string>): real {
    if terms == [] then 0.0
    else Score(s, docs, tokens, terms[..|terms| - 1]) + TermScore(s, docs, tokens, terms[|terms| - 1])
  }

  /** The terms of a query, each once, in the order of first occurrence. */
  function Terms(query: seq<string>): seq<string> {
    if query == [] then []
    else
      var before, t := query[..|query| - 1], query[|query| - 1];
      Terms(before) + if t in before then [] else [t]
  }

  lemma {:induction false} TermsMeans(query: seq<string>)
    ensures forall t :: t in Terms(query) <==> t in query
  {
    if query != [] {
      TermsMeans(query[..|query| - 1]);
    }
  }

  lemma {:induction false} CountMeans(tokens: seq<string>, term: string)
    ensures Count(tokens, term) > 0 <==> term in tokens
  {
    if tokens != [] {
      CountMeans(tokens[1..], term);
    }
  }

  // ----- the loops

  lemma {:induction false} CountNext(tokens: seq<string>, token: string, term: string)
    ensures Count(tokens + [token], term) == Count(tokens, term) + if token == term then 1 else 0
  {
    if tokens == [] {
      assert [token][1..] == [] && tokens + [token] == [token];
    } else {
      assert (tokens + [token])[1..] == tokens[1..] + [token];
      CountNext(tokens[1..], token, term);
    }
  }

  method TermCounts(tokens: seq<string>) returns (counts: map<string, nat>)
    ensures forall t :: t in counts <==> t in tokens
    ensures forall t :: t in counts ==> counts[t] == Count(tokens, t)
  {
    counts := map[];
    for i := 0 to |tokens|
      invariant forall t :: t in counts <==> t in tokens[..i]
      invariant forall t :: t in counts ==> counts[t] == Count(tokens[..i], t)
    {
      var token := tokens[i];
      assert tokens[..i + 1] == tokens[..i] + [token];
      forall t
        ensures Count(tokens[..i + 1], t) == Count(tokens[..i], t) + if token == t then 1 else 0
      {
        CountNext(tokens[..i], token, t);
      }
      CountMeans(tokens[..i], token);
      counts := counts[token := (if token in counts then counts[token] else 0) + 1];
    }
    assert tokens[..|tokens|] == tokens;
  }

  method ScoreDocument(s: Settings, docs: seq<seq<string>>, tokens: seq<string>, terms: seq<string>) returns (score: real)
    ensures score == Score(s, docs, tokens, terms)
  {
    hide InverseDocumentFrequency, Denominator, AverageLength, DocumentFrequency, MaxReal, Count;
    var counts := TermCounts(tokens);
    score := 0.0;
    for i := 0 to |terms|
      invariant score == Score(s, docs, tokens, terms[..i])
    {
      var term := terms[i];
      CountMeans(tokens, term);
      assert terms[..i + 1][..i] == terms[..i];
      var frequency := if term in counts then counts[term] else 0;
      if frequency == 0 {
        continue;
      }
      var idf := InverseDocumentFrequency(s.ln, |docs|, DocumentFrequency(docs, term));
      var denominator := Denominator(s, frequency, |tokens|, AverageLength(docs));
      score := score + idf * (frequency as real * (s.k1 + 1.0)) / MaxReal(0.0001, denominator);
    }
    assert terms[..|terms|] == terms;
  }

  // ----- the ranking

  /** a comes before b: by higher score, then by lower index. */
  predicate Before(a: Match, b: Match) {
    a.score > b.score || (a.score == b.score && a.index < b.index)
  }

  /** The documents that make it into the ranking, with their scores. */
  predicate Qualifies(s: Settings, docs: seq<seq<string>>, terms: seq<string>, m: Match) {
    m.index < |docs| && docs[m.index] != [] && m.score == Score(s, docs, docs[m.index], terms) && m.score > 0.0
  }

  /** The complete ranking: exactly the qualifying documents, each once, best first. */
  ghost predicate IsRanking(s: Settings, docs: seq<seq<string>>, terms: seq<string>, r: seq<Match>) {
    && (forall m :: m in r <==> Qualifies(s, docs, terms, m))
    && (forall i, j :: 0 <= i < j < |r| ==> Before(r[i], r[j]))
  }

  /** Python's list[:limit]. */
  function UpTo(r: seq<Match>, limit: Option<int>): seq<Match> {
    if limit.None? then r
    else if limit.value >= 0 then if limit.value <= |r| then r[..limit.value] else r
    else if |r| + limit.value >= 0 then r[..|r| + limit.value] else []
  }

  method Bm25Scores(query: seq<string>, docs: seq<seq<string>>, s: Settings, limit: Option<int>)
    returns (matches: seq<Match>)
    ensures exists r: seq<Match> :: IsRanking(s, docs, Terms(query), r) && matches == UpTo(r, limit)
  {
    var terms := Terms(query);
    if terms == [] || docs == [] {
      NothingQualifies(s, docs, terms);
      assert UpTo([], limit) == [];
      return [];
    }
    var ranked: seq<Match> := [];
    for i := 0 to |docs|
      invariant forall m :: m in ranked <==> Qualifies(s, docs, terms, m) && m.index < i
      invariant forall j, k :: 0 <= j < k < |ranked| ==> Before(ranked[j], ranked[k])
    {
      if docs[i] != [] {
        var score := ScoreDocument(s, docs, docs[i], terms);
        if score > 0.0 {
          ranked := Insert(ranked, Match(i, score));
        }
      }
    }
    assert IsRanking(s, docs, terms, ranked);
    return UpTo(ranked, limit);
  }

  lemma NothingQualifies(s: Settings, docs: seq<seq<string>>, terms: seq<string>)
    requires terms == [] || docs == []
    ensures IsRanking(s, docs, terms, [])
  {
  }

  /** One insertion of the sort. */
  method Insert(r: seq<Match>, m: Match) returns (r': seq<Match>)
    requires forall j, k :: 0 <= j < k < |r| ==> Before(r[j], r[k])
    requires forall x :: x in r ==> x.index != m.index
    ensures forall x :: x in r' <==> x in r || x == m
    ensures forall j, k :: 0 <= j < k < |r'| ==> Before(r'[j], r'[k])
  {
    var i := 0;
    while i < |r| && Before(r[i], m)
      invariant 0 <= i <= |r|
      invariant forall j :: 0 <= j < i ==> Before(r[j], m)
    {
      i := i + 1;
    }
    r' := r[..i] + [m] + r[i..];
    if i < |r| {
      assert r[i] in r && Before(m, r[i]);
    }
    forall x
      ensures x in r' <==> x in r || x == m
    {
      assert r == r[..i] + r[i..];
    }
  }

  // ----- properties

  lemma {:induction false} FrequencyBounded(docs: seq<seq<string>>, term: string)
    ensures DocumentFrequency(docs, term) <= |docs|
  {
    if docs != [] {
      FrequencyBounded(docs[1..], term);
    }
  }

  /** The weight of a term is never zero or below, however common the term is. */
  lemma WeightIsPositive(ln: real -> real, total: nat, df: nat)
    requires IsLog(ln) && df <= total
    ensures InverseDocumentFrequency(ln, total, df) > 0.0
  {
    var x, y := total as real - df as real + 0.5, df as real + 0.5;
    assert x > 0.0 && y > 0.0;
    QuotientPositive(x, y);
  }

  lemma QuotientPositive(x: real, y: real)
    requires x > 0.0 && y > 0.0
    ensures x / y > 0.0
  {
  }

  lemma SignOfTerm(w: real, f: real, c: real, d: real)
    requires w > 0.0 && f > 0.0 && d > 0.0
    ensures w * (f * c) / d > 0.0 <==> c > 0.0
  {
    if c > 0.0 {
      assert f * c > 0.0;
      assert w * (f * c) > 0.0;
      QuotientPositive(w * (f * c), d);
    } else {
      assert f * c <= 0.0;
      assert w * (f * c) <= 0.0;
      QuotientNotPositive(w * (f * c), d);
    }
  }

  lemma QuotientNotPositive(x: real, y: real)
    requires x <= 0.0 && y > 0.0
    ensures x / y <= 0.0
  {
  }

  /** A term that occurs adds a positive score exactly when k1 is above -1, whatever b is; one that
      does not occur adds nothing. */
  lemma TermScoreSign(s: Settings, docs: seq<seq<string>>, tokens: seq<string>, term: string)
    requires IsLog(s.ln)
    ensures term !in tokens ==> TermScore(s, docs, tokens, term) == 0.0
    ensures term in tokens ==> (TermScore(s, docs, tokens, term) > 0.0 <==> s.k1 > -1.0)
  {
    CountMeans(tokens, term);
    if term in tokens {
      FrequencyBounded(docs, term);
      WeightIsPositive(s.ln, |docs|, DocumentFrequency(docs, term));
      hide InverseDocumentFrequency, Denominator, AverageLength, Count;
      var frequency := Count(tokens, term);
      SignOfTerm(InverseDocumentFrequency(s.ln, |docs|, DocumentFrequency(docs, term)), frequency as real, s.k1 + 1.0,
                 MaxReal(0.0001, Denominator(s, frequency, |tokens|, AverageLength(docs))));
    }
  }

  lemma {:induction false} ScoreSign(s: Settings, docs: seq<seq<string>>, tokens: seq<string>, terms: seq<string>)
    requires IsLog(s.ln)
    ensures s.k1 > -1.0 ==>
              Score(s, docs, tokens, terms) >= 0.0
              && (Score(s, docs, tokens, terms) > 0.0 <==> exists t :: t in terms && t in tokens)
    ensures s.k1 <= -1.0 ==> Score(s, docs, tokens, terms) <= 0.0
  {
    if terms != [] {
      var before, t := terms[..|terms| - 1], terms[|terms| - 1];
      assert terms == before + [t];
      ScoreSign(s, docs, tokens, before);
      TermScoreSign(s, docs, tokens, t);
      hide TermScore;
    }
  }

  /** The document shares a term with the query. */
  predicate Shares(query: seq<string>, tokens: seq<string>) {
    exists t :: t in query && t in tokens
  }

  /** With k1 above -1 a document is ranked exactly when it contains a query term; otherwise nothing is
      ever ranked. */
  lemma RankedIffShares(s: Settings, query: seq<string>, docs: seq<seq<string>>, r: seq<Match>, i: nat)
    requires IsLog(s.ln) && IsRanking(s, docs, Terms(query), r) && i < |docs|
    ensures (exists m :: m in r && m.index == i) <==> s.k1 > -1.0 && Shares(query, docs[i])
  {
    TermsMeans(query);
    ScoreSign(s, docs, docs[i], Terms(query));
    hide Score, Terms;
    assert Shares(query, docs[i]) <==> exists t :: t in Terms(query) && t in docs[i];
    var m := Match(i, Score(s, docs, docs[i], Terms(query)));
    assert (exists x :: x in r && x.index == i) ==> m in r;
    assert m in r <==> Qualifies(s, docs, Terms(query), m);
  }

  /** The complete ranking is empty exactly when no query term appears in any document or k1 is at most
      -1. */
  lemma EmptyIffNoTermAppears(s: Settings, query: seq<string>, docs: seq<seq<string>>, r: seq<Match>)
    requires IsLog(s.ln) && IsRanking(s, docs, Terms(query), r)
    ensures r == [] <==> s.k1 <= -1.0 || forall d :: d in docs ==> !Shares(query, d)
  {
    if r != [] {
      var m := r[0];
      assert m in r && Qualifies(s, docs, Terms(query), m);
      RankedIffShares(s, query, docs, r, m.index);
      assert docs[m.index] in docs;
    } else {
      forall d | d in docs && s.k1 > -1.0
        ensures !Shares(query, d)
      {
        var i :| 0 <= i < |docs| && docs[i] == d;
        RankedIffShares(s, query, docs, r, i);
      }
    }
  }

  /** The documents that share a term with the query. */
  function Sharing(query: seq<string>, docs: seq<seq<string>>): set<nat> {
    set i: nat | i < |docs| && Shares(query, docs[i])
  }

  function Indices(r: seq<Match>): set<nat> {
    set m | m in r :: m.index
  }

  lemma {:induction false} IndicesSize(r: seq<Match>)
    requires forall i, j :: 0 <= i < j < |r| ==> r[i].index != r[j].index
    ensures |Indices(r)| == |r|
    decreases |r|
  {
    if r != [] {
      var before, last := r[..|r| - 1], r[|r| - 1];
      assert r == before + [last];
      IndicesSize(before);
      assert last.index !in Indices(before);
      assert Indices(r) == Indices(before) + {last.index};
    }
  }

  /** With k1 above -1 the ranking has one match for each document that shares a term. */
  lemma RankingSize(s: Settings, query: seq<string>, docs: seq<seq<string>>, r: seq<Match>)
    requires IsLog(s.ln) && IsRanking(s, docs, Terms(query), r) && s.k1 > -1.0
    ensures |r| == |Sharing(query, docs)|
  {
    forall i, j | 0 <= i < j < |r|
      ensures r[i].index != r[j].index
    {
      assert r[i] in r && r[j] in r && Before(r[i], r[j]);
    }
    IndicesSize(r);
    forall m | m in r
      ensures m.index < |docs|
    {
      assert Qualifies(s, docs, Terms(query), m);
    }
    forall i: nat | i < |docs|
      ensures i in Indices(r) <==> i in Sharing(query, docs)
    {
      RankedIffShares(s, query, docs, r, i);
    }
    assert Indices(r) == Sharing(query, docs);
  }

  /** The documented claim about the list that is returned, and when it holds. An unlimited result, or
      one with a positive limit, is empty exactly when no query term appears in any document, provided
      that k1 is above -1; with a smaller k1 every result is empty. The limit 0 gives the empty result
      always, and a negative limit does when it cuts off as many matches as there are. */
  lemma ResultEmptyIff(s: Settings, query: seq<string>, docs: seq<seq<string>>, r: seq<Match>, limit: Option<int>)
    requires IsLog(s.ln) && IsRanking(s, docs, Terms(query), r)
    ensures UpTo(r, limit) == [] <==>
              || s.k1 <= -1.0
              || (forall d :: d in docs ==> !Shares(query, d))
              || (limit.Some? && limit.value <= 0 && |Sharing(query, docs)| <= -limit.value)
              || limit == Some(0)
  {
    EmptyIffNoTermAppears(s, query, docs, r);
    if s.k1 > -1.0 {
      RankingSize(s, query, docs, r);
    }
    hide IsRanking, IsLog, Sharing, Shares;
    if limit.Some? {
      assert |UpTo(r, limit)| == if limit.value >= 0 then if limit.value <= |r| then limit.value else |r|
                                 else if |r| + limit.value >= 0 then |r| + limit.value else 0;
    }
  }

  lemma NoneIsEmpty(r: seq<Match>)
    ensures (forall m :: m !in r) ==> r == []
  {
    if r != [] {
      assert r[0] in r;
    }
  }

  /** The order leaves no choice: one set of matches has one ranking. */
  lemma {:induction false} RankingIsUnique(a: seq<Match>, b: seq<Match>)
    requires forall m :: m in a <==> m in b
    requires forall i, j :: 0 <= i < j < |a| ==> Before(a[i], a[j])
    requires forall i, j :: 0 <= i < j < |b| ==> Before(b[i], b[j])
    ensures a == b
    decreases |a|
  {
    if a == [] {
      NoneIsEmpty(b);
    } else {
      assert a[0] in a && a[0] in b;
      assert b[0] in b && b[0] in a;
      assert a[0] == b[0];
      forall m
        ensures m in a[1..] <==> m in b[1..]
      {
        if m in a[1..] {
          assert m in a && m != a[0];
        }
        if m in b[1..] {
          assert m in b && m != b[0];
        }
      }
      RankingIsUnique(a[1..], b[1..]);
    }
  }

  /** With k1 not negative and b in [0, 1] no term adds more than its weight times k1 + 1. */
  lemma TermScoreBounded(s: Settings, docs: seq<seq<string>>, tokens: seq<string>, term: string)
    requires IsLog(s.ln) && s.k1 >= 0.0 && 0.0 <= s.b <= 1.0
    ensures TermScore(s, docs, tokens, term)
         <= InverseDocumentFrequency(s.ln, |docs|, DocumentFrequency(docs, term)) * (s.k1 + 1.0)
  {
    FrequencyBounded(docs, term);
    var w := InverseDocumentFrequency(s.ln, |docs|, DocumentFrequency(docs, term));
    WeightIsPositive(s.ln, |docs|, DocumentFrequency(docs, term));
    var f := Count(tokens, term);
    if f > 0 {
      DenominatorIsLarge(s, f, |tokens|, AverageLength(docs));
      hide InverseDocumentFrequency, Denominator, AverageLength, Count, DocumentFrequency;
      Saturates(w, f as real, s.k1 + 1.0, MaxReal(0.0001, Denominator(s, f, |tokens|, AverageLength(docs))));
    } else {
      assert w * (s.k1 + 1.0) >= 0.0;
    }
  }

  lemma DenominatorIsLarge(s: Settings, f: nat, length: nat, average: real)
    requires s.k1 >= 0.0 && 0.0 <= s.b <= 1.0
    ensures Denominator(s, f, length, average) >= f as real
  {
    var ratio := length as real / MaxReal(0.0001, average);
    assert ratio >= 0.0;
    assert s.b * ratio >= 0.0;
    assert s.k1 * (1.0 - s.b + s.b * ratio) >= 0.0;
  }

  lemma Saturates(w: real, f: real, c: real, d: real)
    requires w > 0.0 && f > 0.0 && c > 0.0 && d >= f
    ensures w * (f * c) / d <= w * c
  {
    assert w * (f * c) == (w * c) * f;
    assert w * c > 0.0;
    assert (w * c) * f <= (w * c) * d;
    QuotientBounded(w * (f * c), w * c, d);
  }

  lemma QuotientBounded(x: real, y: real, d: real)
    requires d > 0.0 && x <= y * d
    ensures x / d <= y
  {
    var q := x / d;
    assert q * d == x;
  }
}
