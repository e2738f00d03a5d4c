/** Tool calls collected from a long text through overlapping pages. */
module ToolPaging {
  import opened Matching
  import opened PyText

  const PAGE_SIZE: nat := 32 * 1024
  const OVERLAP: nat := 1024

  datatype Call = Call(toolName: string, arguments: string, rawSyntax: string)

  function KeyOf(c: Call): (string, string) {
    (c.toolName, c.rawSyntax)
  }

  // ----- first of each key

  /** The calls whose key no earlier call has. */
  function Firsts(calls: seq<Call>): seq<Call> {
    if calls == [] then []
    else
      var before, c := calls[..|calls| - 1], calls[|calls| - 1];
      Firsts(before) + if KeyOf(c) in Keys(before) then [] else [c]
  }

  function Keys(calls: seq<Call>): set<(string, string)> {
    set c | c in calls :: KeyOf(c)
  }

  lemma FirstsNext(calls: seq<Call>, c: Call)
    ensures Firsts(calls + [c]) == Firsts(calls) + if KeyOf(c) in Keys(calls) then [] else [c]
    ensures Keys(calls + [c]) == Keys(calls) + {KeyOf(c)}
  {
    assert (calls + [c])[..|calls|] == calls;
  }

  predicate IsFirst(calls: seq<Call>, i: nat) {
    i < |calls| && forall j :: 0 <= j < i ==> KeyOf(calls[j]) != KeyOf(calls[i])
  }

  /** at lists, in order, exactly the positions where a key is seen for the first time. */
  ghost predicate FirstPositions(calls: seq<Call>, at: seq<nat>) {
    && (forall k :: 0 <= k < |at| ==> IsFirst(calls, at[k]))
    && (forall i: nat :: IsFirst(calls, i) ==> i in at)
    && (forall k, l :: 0 <= k < l < |at| ==> at[k] < at[l])
  }

  lemma LastIsFirst(before: seq<Call>, c: Call)
    ensures IsFirst(before + [c], |before|) <==> KeyOf(c) !in Keys(before)
  {
    if KeyOf(c) in Keys(before) {
      var x :| x in before && KeyOf(x) == KeyOf(c);
      var j :| 0 <= j < |before| && before[j] == x;
      assert (before + [c])[j] == x;
    } else {
      forall j | 0 <= j < |before|
        ensures KeyOf(before[j]) != KeyOf(c)
      {
        assert before[j] in before;
      }
    }
  }

  lemma EarlierFirsts(before: seq<Call>, c: Call, i: nat)
    requires i < |before|
    ensures IsFirst(before + [c], i) <==> IsFirst(before, i)
  {
    assert forall j :: 0 <= j <= i ==> (before + [c])[j] == before[j];
  }

  lemma FirstPositionsNext(before: seq<Call>, c: Call, at: seq<nat>)
    requires FirstPositions(before, at)
    ensures FirstPositions(before + [c], at + if KeyOf(c) in Keys(before) then [] else [|before|])
  {
    LastIsFirst(before, c);
    forall i: nat | i < |before|
      ensures IsFirst(before + [c], i) <==> IsFirst(before, i)
    {
      EarlierFirsts(before, c, i);
    }
  }

  /** Firsts returns the calls at the first position of each key, in first-seen order. */
  lemma {:induction false} FirstsMeans(calls: seq<Call>) returns (at: seq<nat>)
    ensures FirstPositions(calls, at)
    ensures |Firsts(calls)| == |at|
    ensures forall k :: 0 <= k < |at| ==> at[k] < |calls| && Firsts(calls)[k] == calls[at[k]]
  {
    if calls == [] {
      at := [];
    } else {
      var m := |calls| - 1;
      var before, c := calls[..m], calls[m];
      assert calls == before + [c];
      at := FirstsMeans(before);
      FirstPositionsNext(before, c, at);
      hide FirstPositions, Keys;
      if KeyOf(c) in Keys(before) {
        assert at + [] == at;
      } else {
        at := at + [m];
      }
    }
  }

  /** So no key is missing and none comes twice. */
  lemma FirstsKeys(calls: seq<Call>)
    ensures Keys(Firsts(calls)) == Keys(calls)
    ensures forall k, l :: 0 <= k < l < |Firsts(calls)| ==> KeyOf(Firsts(calls)[k]) != KeyOf(Firsts(calls)[l])
  {
    FirstsKeysCovered(calls);
    var at := FirstsMeans(calls);
    forall k, l | 0 <= k < l < |Firsts(calls)|
      ensures KeyOf(Firsts(calls)[k]) != KeyOf(Firsts(calls)[l])
    {
      assert IsFirst(calls, at[l]) && at[k] < at[l];
    }
  }

  lemma {:induction false} FirstsKeysCovered(calls: seq<Call>)
    ensures Keys(Firsts(calls)) == Keys(calls)
  {
    if calls != [] {
      var before, c := calls[..|calls| - 1], calls[|calls| - 1];
      assert calls == before + [c];
      FirstsKeysCovered(before);
      FirstsNext(before, c);
      FirstsNext(Firsts(before), c);
      assert Firsts(before) + [] == Firsts(before);
    }
  }

  /** In terms of the fields: calls that differ in name or raw syntax are both returned, calls that agree
      in both are returned once, and it is the first of them. */
  lemma FirstsByFields(calls: seq<Call>) returns (at: seq<nat>)
    ensures |at| == |Firsts(calls)|
    ensures forall k :: 0 <= k < |at| ==> at[k] < |calls| && Firsts(calls)[k] == calls[at[k]]
    ensures forall k, l :: 0 <= k < l < |at| ==> at[k] < at[l]
    ensures forall i: nat :: i in at <==>
              i < |calls| && forall j :: 0 <= j < i ==>
                calls[j].toolName != calls[i].toolName || calls[j].rawSyntax != calls[i].rawSyntax
    ensures forall c :: c in calls ==>
              exists r :: r in Firsts(calls) && r.toolName == c.toolName && r.rawSyntax == c.rawSyntax
  {
    at := FirstsMeans(calls);
    FirstsKeys(calls);
    forall c | c in calls
      ensures exists r :: r in Firsts(calls) && r.toolName == c.toolName && r.rawSyntax == c.rawSyntax
    {
      KeyIsHeld(calls, c);
      KeyHeldBy(Firsts(calls), KeyOf(c));
    }
    hide Firsts;
  }

  lemma {:induction false} KeyIsHeld(calls: seq<Call>, c: Call)
    requires c in calls
    ensures KeyOf(c) in Keys(calls)
  {
    if c != calls[0] {
      KeyIsHeld(calls[1..], c);
    }
  }

  lemma {:induction false} KeyHeldBy(calls: seq<Call>, key: (string, string))
    requires key in Keys(calls)
    ensures exists r :: r in calls && KeyOf(r) == key
  {
  }

  // ----- pages

  function Page(text: string, offset: nat, size: nat): string
    requires offset <= |text|
  {
    if offset + size <= |text| then text[offset..offset + size] else text[offset..]
  }

  /** The pages from offset on, each overlapping the next. */
  function Pages(text: string, offset: nat, size: nat, overlap: nat): seq<string>
    requires overlap < size
    decreases if offset < |text| then |text| - offset else 0
  {
    if offset >= |text| then []
    else [Page(text, offset, size)] + Pages(text, offset + (size - overlap), size, overlap)
  }

  /** All calls found on the pages, page by page. */
  function Found(extract: string -> seq<Call>, pages: seq<string>): seq<Call> {
    if pages == [] then [] else extract(pages[0]) + Found(extract, pages[1..])
  }

  /** Page by page, in order: what page k adds stands between what the pages before and after it add. */
  lemma {:induction false} FoundInOrder(extract: string -> seq<Call>, pages: seq<string>, k: nat)
    requires k < |pages|
    ensures Found(extract, pages)
         == Found(extract, pages[..k]) + (extract(pages[k]) + Found(extract, pages[k + 1..]))
    decreases k
  {
    if k == 0 {
      assert pages[..0] == [];
      assert [] + Found(extract, pages) == Found(extract, pages);
    } else {
      FoundInOrder(extract, pages[1..], k - 1);
      assert pages[..k][1..] == pages[1..][..k - 1] && pages[1..][k..] == pages[k + 1..];
      var first, before := extract(pages[0]), Found(extract, pages[1..][..k - 1]);
      var rest := extract(pages[k]) + Found(extract, pages[k + 1..]);
      assert first + (before + rest) == first + before + rest;
    }
  }

  /** Page k holds the characters from k steps on, as many as a page takes. */
  lemma {:induction false} PageIs(text: string, offset: nat, size: nat, overlap: nat, k: nat, distance: nat)
    requires overlap < size && k < |Pages(text, offset, size, overlap)| && distance == k * (size - overlap)
    ensures offset + distance < |text|
    ensures var end := if offset + distance + size <= |text| then offset + distance + size else |text|;
            Pages(text, offset, size, overlap)[k] == text[offset + distance..end]
    decreases k
  {
    if k > 0 {
      var step := size - overlap;
      OneStepLess(k, step);
      PageIs(text, offset + step, size, overlap, k - 1, distance - step);
    }
  }

  /** Collects the calls of a text, on one page if it fits and otherwise on overlapping pages. */
  method ExtractToolInvocations(text: string, extract: string -> seq<Call>) returns (allCalls: seq<Call>)
    ensures Trim(text) == "" ==> allCalls == []
    ensures Trim(text) != "" && |text| <= PAGE_SIZE ==> allCalls == extract(text)
    ensures Trim(text) != "" && |text| > PAGE_SIZE ==>
              allCalls == Firsts(FoundFrom(extract, text, 0))
  {
    if text == "" || Trim(text) == "" {
      return [];
    }
    if |text| <= PAGE_SIZE {
      return extract(text);
    }
    allCalls := CollectFromPages(text, extract);
  }

  /** The calls on the pages from offset on. */
  function FoundFrom(extract: string -> seq<Call>, text: string, offset: nat): seq<Call> {
    Found(extract, Pages(text, offset, PAGE_SIZE, OVERLAP))
  }

  lemma NextPage(extract: string -> seq<Call>, text: string, offset: nat, sofar: seq<Call>)
    ensures offset >= |text| ==> sofar + FoundFrom(extract, text, offset) == sofar
    ensures offset < |text| ==>
              sofar + FoundFrom(extract, text, offset) ==
              sofar + extract(Page(text, offset, PAGE_SIZE)) + FoundFrom(extract, text, offset + (PAGE_SIZE - OVERLAP))
  {
    if offset < |text| {
      assert Pages(text, offset, PAGE_SIZE, OVERLAP)[1..] == Pages(text, offset + (PAGE_SIZE - OVERLAP), PAGE_SIZE, OVERLAP);
    }
  }

  method CollectFromPages(text: string, extract: string -> seq<Call>) returns (allCalls: seq<Call>)
    ensures allCalls == Firsts(FoundFrom(extract, text, 0))
  {
    allCalls := [];
    var seenCalls: set<(string, string)> := {};
    var offset := 0;
    var step := PAGE_SIZE - OVERLAP;
    ghost var sofar: seq<Call> := [];
    assert Firsts(sofar) == [] && Keys(sofar) == {};
    assert sofar + FoundFrom(extract, text, 0) == FoundFrom(extract, text, 0);
    hide Firsts, Keys, FoundFrom;
    while offset < |text|
      invariant offset >= 0 && allCalls == Firsts(sofar) && seenCalls == Keys(sofar)
      invariant sofar + FoundFrom(extract, text, offset) == FoundFrom(extract, text, 0)
    {
      NextPage(extract, text, offset, sofar);
      var chunkCalls := extract(Page(text, offset, PAGE_SIZE));
      allCalls, seenCalls := AddNew(sofar, chunkCalls, allCalls, seenCalls);
      sofar := sofar + chunkCalls;
      offset := offset + step;
    }
    NextPage(extract, text, offset, sofar);
  }

  /** Adds to the calls collected from `earlier` those of `calls` that have a new key. */
  method AddNew(ghost earlier: seq<Call>, calls: seq<Call>, collected: seq<Call>, seen: set<(string, string)>)
    returns (allCalls: seq<Call>, seenCalls: set<(string, string)>)
    requires collected == Firsts(earlier) && seen == Keys(earlier)
    ensures allCalls == Firsts(earlier + calls) && seenCalls == Keys(earlier + calls)
  {
    hide Firsts, Keys;
    allCalls, seenCalls := collected, seen;
    assert earlier + calls[..0] == earlier;
    for i := 0 to |calls|
      invariant allCalls == Firsts(earlier + calls[..i]) && seenCalls == Keys(earlier + calls[..i])
    {
      var call := calls[i];
      FirstsNext(earlier + calls[..i], call);
      assert earlier + calls[..i + 1] == (earlier + calls[..i]) + [call];
      var key := KeyOf(call);
      if key !in seenCalls {
        seenCalls := seenCalls + {key};
        allCalls := allCalls + [call];
      }
    }
    assert calls[..|calls|] == calls;
  }

  // ----- coverage

  /** Page k of a text of length n holds all of the length characters at a. */
  predicate Holds(size: nat, overlap: nat, n: nat, k: nat, a: nat, length: nat)
    requires overlap < size
  {
    k * (size - overlap) < n && k * (size - overlap) <= a && a + length <= k * (size - overlap) + size
  }

  /** Some page of a text of length n holds the span. */
  ghost predicate OnSomePage(size: nat, overlap: nat, n: nat, a: nat, length: nat)
    requires overlap < size
  {
    exists k: nat :: Holds(size, overlap, n, k, a, length)
  }

  /** In every text, every span of that length lies wholly inside one page. */
  ghost predicate Covers(size: nat, overlap: nat, length: nat)
    requires overlap < size
  {
    forall n: nat, a: nat :: a + length <= n ==> OnSomePage(size, overlap, n, a, length)
  }

  /** Pages cover all spans of a length exactly when it is at most one more than the overlap. */
  lemma CoversIffWithinOverlap(size: nat, overlap: nat, length: nat)
    requires overlap < size && length > 0
    ensures Covers(size, overlap, length) <==> length <= overlap + 1
  {
    var step := size - overlap;
    if length <= overlap + 1 {
      forall n: nat, a: nat | a + length <= n
        ensures OnSomePage(size, overlap, n, a, length)
      {
        assert a == a / step * step + a % step;
        assert Holds(size, overlap, n, a / step, a, length);
      }
    } else {
      var a, n := step - 1, step - 1 + length;
      forall k: nat
        ensures !Holds(size, overlap, n, k, a, length)
      {
        if k >= 1 {
          assert k * step >= step;
        }
      }
      assert !OnSomePage(size, overlap, n, a, length);
    }
  }

  lemma OneStepLess(k: nat, step: nat)
    requires k > 0
    ensures k * step == step + (k - 1) * step && (k - 1) * step >= 0
  {
  }

  lemma {:induction false} PageIsListed(text: string, offset: nat, size: nat, overlap: nat, k: nat, distance: nat)
    requires overlap < size && distance == k * (size - overlap) && offset + distance < |text|
    ensures Page(text, offset + distance, size) in Pages(text, offset, size, overlap)
    decreases k
  {
    if k > 0 {
      var step := size - overlap;
      OneStepLess(k, step);
      PageIsListed(text, offset + step, size, overlap, k - 1, distance - step);
    }
  }

  lemma {:induction false} FoundOnPage(extract: string -> seq<Call>, pages: seq<string>, page: string)
    requires page in pages
    ensures Keys(extract(page)) <= Keys(Found(extract, pages))
  {
    var here, rest := extract(pages[0]), Found(extract, pages[1..]);
    assert Keys(here + rest) == Keys(here) + Keys(rest);
    if page != pages[0] {
      FoundOnPage(extract, pages[1..], page);
    }
  }

  /** In a long text, every span of at most OVERLAP + 1 characters lies on one page, and every call
      that the extractor finds on that page is in the result. */
  lemma ShortSpansAreSeenWhole(text: string, a: nat, length: nat, extract: string -> seq<Call>)
    requires |text| > PAGE_SIZE && 0 < length <= OVERLAP + 1 && a + length <= |text|
    ensures exists page: string ::
              && page in Pages(text, 0, PAGE_SIZE, OVERLAP)
              && Occurs(page, text[a..a + length])
              && Keys(extract(page)) <= Keys(Firsts(Found(extract, Pages(text, 0, PAGE_SIZE, OVERLAP))))
  {
    hide Firsts, Keys, Found, Pages, Page;
    var offset := PageOfSpan(text, PAGE_SIZE, OVERLAP, a, length);
    SpanOnPage(text, offset, PAGE_SIZE, a, length);
    FoundOnPage(extract, Pages(text, 0, PAGE_SIZE, OVERLAP), Page(text, offset, PAGE_SIZE));
    FirstsKeys(Found(extract, Pages(text, 0, PAGE_SIZE, OVERLAP)));
  }

  lemma PageOfSpan(text: string, size: nat, overlap: nat, a: nat, length: nat) returns (offset: nat)
    requires overlap < size && 0 < length <= overlap + 1 && a + length <= |text|
    ensures offset <= a && a + length <= offset + size
    ensures Page(text, offset, size) in Pages(text, 0, size, overlap)
  {
    hide Pages, Page;
    CoversIffWithinOverlap(size, overlap, length);
    assert OnSomePage(size, overlap, |text|, a, length);
    var k: nat :| Holds(size, overlap, |text|, k, a, length);
    offset := k * (size - overlap);
    PageIsListed(text, 0, size, overlap, k, offset);
  }

  lemma SpanOnPage(text: string, offset: nat, size: nat, a: nat, length: nat)
    requires offset <= a && a + length <= offset + size && a + length <= |text|
    ensures Occurs(Page(text, offset, size), text[a..a + length])
  {
    var page, i := Page(text, offset, size), a - offset;
    forall j | 0 <= j < length
      ensures page[i..][j] == text[a..][j]
    {
    }
    assert page[i..i + length] == text[a..a + length];
    assert OccursAt(page, text[a..a + length], i);
  }

  /** Nothing else is listed: each page begins at a multiple of the step, inside the text. */
  lemma {:induction false} ListedIsPage(text: string, offset: nat, size: nat, overlap: nat, page: string)
    returns (k: nat, distance: nat)
    requires overlap < size && page in Pages(text, offset, size, overlap)
    ensures distance == k * (size - overlap) && offset + distance < |text|
    ensures page == Page(text, offset + distance, size)
    decreases if offset < |text| then |text| - offset else 0
  {
    var step := size - overlap;
    if page == Page(text, offset, size) {
      k, distance := 0, 0;
    } else {
      k, distance := ListedIsPage(text, offset + step, size, overlap, page);
      OneStepLess(k + 1, step);
      k, distance := k + 1, distance + step;
    }
  }

  /** In every text, every span of that length occurs in one of the pages. */
  ghost predicate SeenWhole(size: nat, overlap: nat, length: nat)
    requires overlap < size
  {
    forall text: string, a: nat :: a + length <= |text| ==> SpanIsSeen(text, size, overlap, a, length)
  }

  ghost predicate SpanIsSeen(text: string, size: nat, overlap: nat, a: nat, length: nat)
    requires overlap < size && a + length <= |text|
  {
    exists page: string :: page in Pages(text, 0, size, overlap) && Occurs(page, text[a..a + length])
  }

  /** A text of that length that is 'x' but for its last characters: 'b' begins a span, 'c' ends it. */
  function Marked(a: nat, length: nat): string {
    seq(a + length, i => if i == a then 'b' else if i == a + length - 1 then 'c' else 'x')
  }

  lemma MarkedSpanIsCut(size: nat, overlap: nat, length: nat)
    requires overlap < size && length > overlap + 1
    ensures !SpanIsSeen(Marked(size - overlap - 1, length), size, overlap, size - overlap - 1, length)
  {
    var a := size - overlap - 1;
    var text := Marked(a, length);
    var span := text[a..a + length];
    forall page: string | page in Pages(text, 0, size, overlap)
      ensures !Occurs(page, span)
    {
      var k, offset := ListedIsPage(text, 0, size, overlap, page);
      if k > 0 {
        OneStepLess(k, size - overlap);
      }
      forall i: nat
        ensures !OccursAt(page, span, i)
      {
        if i + length <= |page| {
          assert page[i..i + length][0] == text[offset + i];
          assert span[0] == 'b';
        }
      }
    }
  }

  /** On the pages themselves: every span of a length, in every text, is on one of them exactly when the
      length is at most one more than the overlap. */
  lemma SeenWholeIffWithinOverlap(size: nat, overlap: nat, length: nat)
    requires overlap < size && length > 0
    ensures SeenWhole(size, overlap, length) <==> length <= overlap + 1
  {
    hide Pages, Page;
    if length <= overlap + 1 {
      forall text: string, a: nat | a + length <= |text|
        ensures SpanIsSeen(text, size, overlap, a, length)
      {
        var offset := PageOfSpan(text, size, overlap, a, length);
        SpanOnPage(text, offset, size, a, length);
      }
    } else {
      MarkedSpanIsCut(size, overlap, length);
    }
  }
}
