/** Which of two documents BM25 ranks first. */
module LexicalOrder {
  import opened Wrappers
  import opened Lexical

  // ----- what is counted

  lemma {:induction false} CountIsMultiplicity(tokens: seq<string>, term: string)
    ensures Count(tokens, term) == multiset(tokens)[term]
  {
    if tokens != [] {
      assert tokens == [tokens[0]] + tokens[1..];
      CountIsMultiplicity(tokens[1..], term);
    }
  }

  /** The documents that contain the term. */
  function Holding(docs: seq<seq<string>>, term: string): set<nat> {
    set i: nat | i < |docs| && term in docs[i]
  }

  lemma {:induction false} FrequencyNext(docs: seq<seq<string>>, d: seq<string>, term: string)
    ensures DocumentFrequency(docs + [d], term) == DocumentFrequency(docs, term) + if term in d then 1 else 0
    decreases |docs|
  {
    if docs == [] {
      assert docs + [d] == [d] && [d][1..] == [];
      assert DocumentFrequency([d], term) == (if term in d then 1 else 0) + DocumentFrequency([], term);
    } else {
      assert (docs + [d])[1..] == docs[1..] + [d];
      FrequencyNext(docs[1..], d, term);
    }
  }

  lemma {:induction false} FrequencyIsHolding(docs: seq<seq<string>>, term: string)
    ensures DocumentFrequency(docs, term) == |Holding(docs, term)|
    decreases |docs|
  {
    if docs == [] {
      assert Holding(docs, term) == {};
    } else {
      var n := |docs| - 1;
      var before, d := docs[..n], docs[n];
      assert docs == before + [d];
      FrequencyIsHolding(before, term);
      FrequencyNext(before, d, term);
      assert Holding(docs, term) == Holding(before, term) + if term in d then {n} else {};
      assert n !in Holding(before, term);
    }
  }

  /** Each term of the query once. */
  lemma {:induction false} TermsOnce(query: seq<string>)
    ensures forall i, j :: 0 <= i < j < |Terms(query)| ==> Terms(query)[i] != Terms(query)[j]
    decreases |query|
  {
    if query != [] {
      var before, t := query[..|query| - 1], query[|query| - 1];
      TermsOnce(before);
      TermsMeans(before);
      assert forall i :: 0 <= i < |Terms(before)| ==> Terms(before)[i] in Terms(before);
    }
  }

  // ----- weights

  ghost predicate Increasing(ln: real -> real) {
    forall x: real, y: real :: 1.0 <= x < y ==> ln(x) < ln(y)
  }

  lemma PositiveFactor(a: real, y: real)
    requires y > 0.0 && a * y > 0.0
    ensures a > 0.0
  {
  }

  lemma ProductLess(a: real, y: real, y': real)
    requires a > 0.0 && y < y'
    ensures a * y < a * y'
  {
  }

  lemma QuotientIs(x: real, y: real) returns (q: real)
    requires x > 0.0 && y > 0.0
    ensures q == x / y && q * y == x && q > 0.0
  {
    q := x / y;
    assert q * y == x;
    PositiveFactor(q, y);
  }

  lemma SmallerDivisor(n: real, d: real, d': real)
    requires n > 0.0 && 0.0 < d < d'
    ensures n / d > n / d' > 0.0
  {
    var q := QuotientIs(n, d);
    var q' := QuotientIs(n, d');
    ProductLess(q', d, d');
    assert (q - q') * d == q * d - q' * d;
    PositiveFactor(q - q', d);
  }

  lemma GreaterDividend(n: real, n': real, d: real)
    requires n > n' > 0.0 && d > 0.0
    ensures n / d > n' / d
  {
    var q := QuotientIs(n, d);
    var q' := QuotientIs(n', d);
    assert (q - q') * d == q * d - q' * d;
    PositiveFactor(q - q', d);
  }

  lemma QuotientsOrdered(x: real, y: real, x': real, y': real)
    requires x > x' > 0.0 && 0.0 < y < y'
    ensures x / y > x' / y' > 0.0
  {
    GreaterDividend(x, x', y);
    SmallerDivisor(x', y, y');
  }

  /** The rarer a term, the greater its weight. */
  lemma RarerWeighsMore(ln: real -> real, total: nat, df: nat, df': nat)
    requires Increasing(ln) && df < df' <= total
    ensures InverseDocumentFrequency(ln, total, df) > InverseDocumentFrequency(ln, total, df')
  {
    var x, y := total as real - df as real + 0.5, df as real + 0.5;
    var x', y' := total as real - df' as real + 0.5, df' as real + 0.5;
    QuotientsOrdered(x, y, x', y');
    assert 1.0 <= x' / y' + 1.0 < x / y + 1.0;
  }

  /** For a frequency within the total the floor of the ratio has no effect. */
  lemma WeightIs(ln: real -> real, total: nat, df: nat)
    requires df <= total
    ensures InverseDocumentFrequency(ln, total, df)
         == ln(1.0 + (total as real - df as real + 0.5) / (df as real + 0.5))
  {
    QuotientPositive(total as real - df as real + 0.5, df as real + 0.5);
  }

  lemma {:induction false} TotalLengthAdds(a: seq<seq<string>>, b: seq<seq<string>>)
    ensures TotalLength(a + b) == TotalLength(a) + TotalLength(b)
    ensures forall d: seq<string> :: TotalLength([d]) == |d|
    decreases |a|
  {
    forall d: seq<string>
      ensures TotalLength([d]) == |d|
    {
      assert [d][1..] == [];
    }
    if a == [] {
      assert a + b == b;
    } else {
      assert (a + b)[1..] == a[1..] + b;
      TotalLengthAdds(a[1..], b);
    }
  }

  /** The average length, times the number of documents, is their total length. */
  lemma AverageMeans(docs: seq<seq<string>>)
    requires docs != []
    ensures AverageLength(docs) * |docs| as real == TotalLength(docs) as real
  {
    hide TotalLength;
    var n := |docs| as real;
    assert MaxReal(1.0, n) == n;
  }

  // ----- documents with one term of the query

  /** The term is the only one of the query that the document contains. */
  predicate OnlyTerm(query: seq<string>, tokens: seq<string>, term: string) {
    term in query && term in tokens && forall u :: u in query && u in tokens ==> u == term
  }

  lemma {:induction false} ScoreOfOne(s: Settings, docs: seq<seq<string>>, tokens: seq<string>,
                                      terms: seq<string>, term: string)
    requires forall i, j :: 0 <= i < j < |terms| ==> terms[i] != terms[j]
    requires forall u :: u in terms && u in tokens ==> u == term
    ensures Score(s, docs, tokens, terms) == if term in terms then TermScore(s, docs, tokens, term) else 0.0
    decreases |terms|
  {
    if terms != [] {
      var before, last := terms[..|terms| - 1], terms[|terms| - 1];
      assert terms == before + [last];
      ScoreOfOne(s, docs, tokens, before, term);
      CountMeans(tokens, last);
      hide InverseDocumentFrequency, Denominator, AverageLength, Count;
    }
  }

  lemma ScoreOfOnly(s: Settings, docs: seq<seq<string>>, query: seq<string>, tokens: seq<string>, term: string)
    requires OnlyTerm(query, tokens, term)
    ensures Score(s, docs, tokens, Terms(query)) == TermScore(s, docs, tokens, term)
  {
    TermsOnce(query);
    TermsMeans(query);
    hide Score, TermScore, Terms;
    ScoreOfOne(s, docs, tokens, Terms(query), term);
  }

  /** The part of the denominator that depends on the length. */
  function Norm(s: Settings, docs: seq<seq<string>>, length: nat): real {
    Scale(s.k1, s.b, length as real / MaxReal(0.0001, AverageLength(docs)))
  }

  function Scale(k1: real, b: real, ratio: real): real {
    k1 * (1.0 - b + b * ratio)
  }

  function Weight(s: Settings, docs: seq<seq<string>>, term: string): real {
    InverseDocumentFrequency(s.ln, |docs|, |Holding(docs, term)|)
  }

  /** What a term of weight w adds: w * f * c / d. */
  function Share(w: real, f: real, c: real, d: real): real
    requires d > 0.0
  {
    w * (f * c) / d
  }

  lemma DenominatorIs(s: Settings, docs: seq<seq<string>>, f: nat, length: nat)
    ensures Denominator(s, f, length, AverageLength(docs)) == f as real + Norm(s, docs, length)
  {
    hide AverageLength;
  }

  lemma TermScoreShare(s: Settings, docs: seq<seq<string>>, tokens: seq<string>, term: string)
    requires Count(tokens, term) > 0
    ensures var f := Count(tokens, term);
            TermScore(s, docs, tokens, term)
            == Share(InverseDocumentFrequency(s.ln, |docs|, DocumentFrequency(docs, term)), f as real, s.k1 + 1.0,
                     MaxReal(0.0001, Denominator(s, f, |tokens|, AverageLength(docs))))
  {
    hide InverseDocumentFrequency, AverageLength, Count, DocumentFrequency, Denominator;
  }

  lemma TermScoreIs(s: Settings, docs: seq<seq<string>>, tokens: seq<string>, term: string)
    requires term in tokens
    ensures multiset(tokens)[term] >= 1
    ensures var f := multiset(tokens)[term] as real;
            TermScore(s, docs, tokens, term)
            == Share(Weight(s, docs, term), f, s.k1 + 1.0, MaxReal(0.0001, f + Norm(s, docs, |tokens|)))
  {
    CountIsMultiplicity(tokens, term);
    TermScoreShare(s, docs, tokens, term);
    FrequencyIsHolding(docs, term);
    DenominatorIs(s, docs, Count(tokens, term), |tokens|);
    hide InverseDocumentFrequency, AverageLength, Count, DocumentFrequency, Denominator, Norm, Share, TermScore;
  }

  lemma WeightPositive(s: Settings, docs: seq<seq<string>>, term: string)
    requires IsLog(s.ln)
    ensures Weight(s, docs, term) > 0.0 && |Holding(docs, term)| <= |docs|
  {
    FrequencyBounded(docs, term);
    FrequencyIsHolding(docs, term);
    WeightIsPositive(s.ln, |docs|, |Holding(docs, term)|);
  }

  // ----- the ranking

  /** Document i comes before document j, and both are there. */
  ghost predicate Ahead(r: seq<Match>, i: nat, j: nat) {
    exists p, q :: 0 <= p < q < |r| && r[p].index == i && r[q].index == j
  }

  /** Of two documents with positive scores the one with the higher score comes first, of equal ones the
      first in the input. */
  lemma HigherIsAhead(s: Settings, query: seq<string>, docs: seq<seq<string>>, r: seq<Match>, i: nat, j: nat)
    requires IsRanking(s, docs, Terms(query), r) && i < |docs| && j < |docs| && docs[i] != [] && docs[j] != []
    requires var x, y := Score(s, docs, docs[i], Terms(query)), Score(s, docs, docs[j], Terms(query));
             x > 0.0 && y > 0.0 && (x > y || (x == y && i < j))
    ensures Ahead(r, i, j)
  {
    hide Score, Terms;
    var m, n := Match(i, Score(s, docs, docs[i], Terms(query))), Match(j, Score(s, docs, docs[j], Terms(query)));
    assert Qualifies(s, docs, Terms(query), m) && Qualifies(s, docs, Terms(query), n);
    assert m in r && n in r;
    var p :| 0 <= p < |r| && r[p] == m;
    var q :| 0 <= q < |r| && r[q] == n;
    assert q < p ==> Before(r[q], r[p]);
  }

  lemma OnlyTermScores(s: Settings, query: seq<string>, docs: seq<seq<string>>, i: nat, term: string)
    requires IsLog(s.ln) && s.k1 > -1.0 && i < |docs| && OnlyTerm(query, docs[i], term)
    ensures var f := multiset(docs[i])[term] as real;
            && f >= 1.0 && Score(s, docs, docs[i], Terms(query)) > 0.0
            && Score(s, docs, docs[i], Terms(query))
               == Share(Weight(s, docs, term), f, s.k1 + 1.0, MaxReal(0.0001, f + Norm(s, docs, |docs[i]|)))
  {
    ScoreOfOnly(s, docs, query, docs[i], term);
    TermScoreIs(s, docs, docs[i], term);
    TermScoreSign(s, docs, docs[i], term);
    hide Score, TermScore, Weight, Norm, Share, IsLog, Terms;
  }

  lemma HeavierScoresMore(w: real, w': real, f: real, c: real, d: real)
    requires w > w' > 0.0 && f > 0.0 && c > 0.0 && d > 0.0
    ensures Share(w, f, c, d) > Share(w', f, c, d)
  {
    ProductLess(f, 0.0, c);
    ProductLess(f * c, w', w);
    ProductLess(w', 0.0, f * c);
    GreaterDividend(w * (f * c), w' * (f * c), d);
  }

  /** Of two documents of one length that hold one query term each, equally often, the one with the rarer
      term comes first. */
  lemma RarerFirst(s: Settings, query: seq<string>, docs: seq<seq<string>>, r: seq<Match>,
                   i: nat, j: nat, t: string, u: string)
    requires IsLog(s.ln) && Increasing(s.ln) && s.k1 > -1.0 && IsRanking(s, docs, Terms(query), r)
    requires i < |docs| && j < |docs| && |docs[i]| == |docs[j]|
    requires OnlyTerm(query, docs[i], t) && OnlyTerm(query, docs[j], u)
    requires multiset(docs[i])[t] == multiset(docs[j])[u] && |Holding(docs, t)| < |Holding(docs, u)|
    ensures Ahead(r, i, j)
  {
    OnlyTermScores(s, query, docs, i, t);
    OnlyTermScores(s, query, docs, j, u);
    WeightPositive(s, docs, u);
    RarerWeighsMore(s.ln, |docs|, |Holding(docs, t)|, |Holding(docs, u)|);
    assert Weight(s, docs, t) > Weight(s, docs, u);
    hide Score, Weight, Norm, Terms, Ahead, Share;
    var f := multiset(docs[i])[t] as real;
    HeavierScoresMore(Weight(s, docs, t), Weight(s, docs, u), f, s.k1 + 1.0,
                      MaxReal(0.0001, f + Norm(s, docs, |docs[i]|)));
    HigherIsAhead(s, query, docs, r, i, j);
  }

  lemma ShareIs(length: nat, average: real) returns (ratio: real)
    requires length > 0
    ensures ratio == length as real / MaxReal(0.0001, average) && ratio > 0.0
  {
    ratio := length as real / MaxReal(0.0001, average);
    assert ratio * MaxReal(0.0001, average) == length as real;
  }

  lemma FactorPositive(b: real, ratio: real)
    requires 0.0 <= b <= 1.0 && ratio > 0.0
    ensures 1.0 - b + b * ratio > 0.0
  {
    if b == 0.0 {
      assert b * ratio == 0.0;
    } else {
      ProductLess(b, 0.0, ratio);
    }
  }

  lemma ScalePositive(k1: real, b: real, ratio: real)
    requires k1 > 0.0 && 0.0 <= b <= 1.0 && ratio > 0.0
    ensures Scale(k1, b, ratio) > 0.0
  {
    FactorPositive(b, ratio);
    ProductLess(k1, 0.0, 1.0 - b + b * ratio);
  }

  lemma ScaleGrows(k1: real, b: real, x: real, y: real)
    requires k1 > 0.0 && b > 0.0 && x < y
    ensures Scale(k1, b, x) < Scale(k1, b, y)
  {
    ProductLess(b, 0.0, y - x);
    ProductLess(k1, 0.0, b * (y - x));
    assert Scale(k1, b, y) - Scale(k1, b, x) == k1 * (b * (y - x));
  }

  lemma NormPositive(s: Settings, docs: seq<seq<string>>, length: nat)
    requires s.k1 > 0.0 && 0.0 <= s.b <= 1.0 && length > 0
    ensures Norm(s, docs, length) > 0.0
  {
    hide AverageLength, Scale;
    var ratio := ShareIs(length, AverageLength(docs));
    ScalePositive(s.k1, s.b, ratio);
  }

  lemma NormGrows(s: Settings, docs: seq<seq<string>>, shorter: nat, longer: nat)
    requires s.k1 > 0.0 && 0.0 < s.b <= 1.0 && 0 < shorter < longer
    ensures Norm(s, docs, shorter) < Norm(s, docs, longer)
  {
    hide AverageLength, Scale;
    var average := MaxReal(0.0001, AverageLength(docs));
    GreaterDividend(longer as real, shorter as real, average);
    ScaleGrows(s.k1, s.b, shorter as real / average, longer as real / average);
  }

  lemma MoreShares(w: real, f: real, f': real, c: real, k: real)
    requires w > 0.0 && f > f' > 0.0 && c > 0.0 && k > 0.0
    ensures Share(w, f, c, f + k) > Share(w, f', c, f' + k)
  {
    var a := w * c;
    ProductLess(w, 0.0, c);
    assert w * (f * c) == a * f && w * (f' * c) == a * f';
    ProductLess(a, 0.0, f);
    ProductLess(a, 0.0, f');
    var q := QuotientIs(a * f, f + k);
    var q' := QuotientIs(a * f', f' + k);
    SharesApart(q, q', a, f, f', k);
  }

  lemma SharesApart(q: real, q': real, a: real, f: real, f': real, k: real)
    requires q * (f + k) == a * f && q' * (f' + k) == a * f' && a > 0.0 && k > 0.0 && f > f' > 0.0
    ensures q > q'
  {
    // (q - q') * (f + k) * (f' + k) == a * k * (f - f')
    assert q * (f + k) * (f' + k) == a * f * (f' + k);
    assert q' * (f' + k) * (f + k) == a * f' * (f + k);
    assert a * f * (f' + k) - a * f' * (f + k) == (a * k) * (f - f');
    ProductLess(a, 0.0, k);
    ProductLess(a * k, 0.0, f - f');
    ProductLess(f + k, 0.0, f' + k);
    assert (q - q') * ((f + k) * (f' + k)) == q * (f + k) * (f' + k) - q' * (f' + k) * (f + k);
    PositiveFactor(q - q', (f + k) * (f' + k));
  }

  lemma ShorterShares(w: real, f: real, c: real, d: real, d': real)
    requires w > 0.0 && f > 0.0 && c > 0.0 && 0.0 < d < d'
    ensures Share(w, f, c, d) > Share(w, f, c, d')
  {
    ProductLess(f, 0.0, c);
    ProductLess(w, 0.0, f * c);
    SmallerDivisor(w * (f * c), d, d');
  }

  /** Of two documents of one length that hold one query term each, equally rare ones, the one with more
      occurrences comes first. */
  lemma MoreFirst(s: Settings, query: seq<string>, docs: seq<seq<string>>, r: seq<Match>,
                  i: nat, j: nat, t: string, u: string)
    requires IsLog(s.ln) && s.k1 > 0.0 && 0.0 <= s.b <= 1.0 && IsRanking(s, docs, Terms(query), r)
    requires i < |docs| && j < |docs| && |docs[i]| == |docs[j]|
    requires OnlyTerm(query, docs[i], t) && OnlyTerm(query, docs[j], u)
    requires multiset(docs[i])[t] > multiset(docs[j])[u] && |Holding(docs, t)| == |Holding(docs, u)|
    ensures Ahead(r, i, j)
  {
    OnlyTermScores(s, query, docs, i, t);
    OnlyTermScores(s, query, docs, j, u);
    WeightPositive(s, docs, t);
    NormPositive(s, docs, |docs[i]|);
    assert Weight(s, docs, t) == Weight(s, docs, u);
    hide Score, Weight, Norm, Terms, Ahead, Share;
    MoreShares(Weight(s, docs, t), multiset(docs[i])[t] as real, multiset(docs[j])[u] as real, s.k1 + 1.0,
               Norm(s, docs, |docs[i]|));
    HigherIsAhead(s, query, docs, r, i, j);
  }

  /** Of two documents that hold one query term each, equally rare ones and equally often, the shorter one
      comes first. */
  lemma ShorterFirst(s: Settings, query: seq<string>, docs: seq<seq<string>>, r: seq<Match>,
                     i: nat, j: nat, t: string, u: string)
    requires IsLog(s.ln) && s.k1 > 0.0 && 0.0 < s.b <= 1.0 && IsRanking(s, docs, Terms(query), r)
    requires i < |docs| && j < |docs| && |docs[i]| < |docs[j]|
    requires OnlyTerm(query, docs[i], t) && OnlyTerm(query, docs[j], u)
    requires multiset(docs[i])[t] == multiset(docs[j])[u] && |Holding(docs, t)| == |Holding(docs, u)|
    ensures Ahead(r, i, j)
  {
    OnlyTermScores(s, query, docs, i, t);
    OnlyTermScores(s, query, docs, j, u);
    WeightPositive(s, docs, t);
    NormPositive(s, docs, |docs[i]|);
    NormGrows(s, docs, |docs[i]|, |docs[j]|);
    assert Weight(s, docs, t) == Weight(s, docs, u);
    hide Score, Weight, Norm, Terms, Ahead, Share;
    var f := multiset(docs[i])[t] as real;
    ShorterShares(Weight(s, docs, t), f, s.k1 + 1.0, f + Norm(s, docs, |docs[i]|), f + Norm(s, docs, |docs[j]|));
    HigherIsAhead(s, query, docs, r, i, j);
  }

  // ----- the returned list

  /** The result is a front of the ranking: all of it without a limit, up to a limit that is not negative,
      and all but the last ones for a negative limit. */
  lemma UpToIsFront(r: seq<Match>, limit: Option<int>)
    ensures UpTo(r, limit) <= r
    ensures |UpTo(r, limit)|
         == match limit
            case None => |r|
            case Some(n) => if n >= |r| then |r| else if n >= 0 then n else if |r| + n >= 0 then |r| + n else 0
  {
  }

  /** So what comes first in the ranking comes first in the result: if the second document is returned, so
      is the first, before it. */
  lemma AheadInResult(r: seq<Match>, limit: Option<int>, i: nat, j: nat)
    requires Ahead(r, i, j) && (forall p, q :: 0 <= p < q < |r| ==> r[p].index != r[q].index)
    ensures (exists m :: m in UpTo(r, limit) && m.index == j) <==> Ahead(UpTo(r, limit), i, j)
  {
    UpToIsFront(r, limit);
    var front := UpTo(r, limit);
    hide UpTo;
    assert forall k :: 0 <= k < |front| ==> front[k] == r[k];
    var p, q :| 0 <= p < q < |r| && r[p].index == i && r[q].index == j;
    if m :| m in front && m.index == j {
      var k :| 0 <= k < |front| && front[k] == m;
      assert k == q;
      assert front[p].index == i && front[q].index == j;
    }
  }

  /** A ranking lists no document twice. */
  lemma RankedOnce(s: Settings, query: seq<string>, docs: seq<seq<string>>, r: seq<Match>)
    requires IsRanking(s, docs, Terms(query), r)
    ensures forall p, q :: 0 <= p < q < |r| ==> r[p].index != r[q].index
  {
    hide Score, Terms;
    forall p, q | 0 <= p < q < |r|
      ensures r[p].index != r[q].index
    {
      assert Before(r[p], r[q]);
      assert Qualifies(s, docs, Terms(query), r[p]) && Qualifies(s, docs, Terms(query), r[q]);
    }
  }
}
