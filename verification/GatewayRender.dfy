/** Rendering of the gateway config: in the model list, weights are removed and token limits are set to
    the context length of the deployment's service. */
module GatewayRender {
  import opened Wrappers

  /** A token limit line, split around its number. */
  datatype Tokens = Tokens(prefix: string, value: int, suffix: string)

  /** A line with what the five line patterns say about it. `text` is the line itself when it is no
      token limit line. */
  datatype RawLine = RawLine(
    modelList: bool,
    header: bool,
    entry: bool,
    weight: bool,
    service: Option<string>,
    tokens: Option<Tokens>,
    text: string)

  /** A weight line is no entry start, no model_list line, and names no service. */
  predicate Proper(l: RawLine) {
    l.weight ==> !l.modelList && !l.entry && l.service.None?
  }

  type Line = l: RawLine | Proper(l) witness RawLine(false, false, false, false, None, None, "")

  type Lengths = map<string, int>

  // ----- one deployment entry

  /** The first service that a line of the block names. */
  function ServiceOf(block: seq<Line>): Option<string> {
    if block == [] then None else if block[0].service.Some? then block[0].service else ServiceOf(block[1..])
  }

  /** The length to use for a block: the one of its service, if both are known. */
  function LengthOf(block: seq<Line>, lengths: Lengths): Option<int> {
    var s := ServiceOf(block);
    if s.Some? && s.value in lengths then Some(lengths[s.value]) else None
  }

  function Aligned(l: Line, length: Option<int>): (r: Line)
    ensures r.weight == l.weight && r.service == l.service && r.modelList == l.modelList
    ensures r.header == l.header && r.entry == l.entry
  {
    if l.tokens.Some? && length.Some? then l.(tokens := Some(l.tokens.value.(value := length.value))) else l
  }

  function LinesOut(block: seq<Line>, length: Option<int>): seq<Line> {
    if block == [] then []
    else (if block[0].weight then [] else [Aligned(block[0], length)]) + LinesOut(block[1..], length)
  }

  function ProcessBlock(block: seq<Line>, lengths: Lengths): seq<Line> {
    LinesOut(block, LengthOf(block, lengths))
  }

  method ProcessDeploymentBlock(block: seq<Line>, lengths: Lengths) returns (result: seq<Line>)
    ensures result == ProcessBlock(block, lengths)
    ensures Processed(block, lengths, result)
  {
    ProcessBlockMeans(block, lengths);
    hide Processed;
    var svc: Option<string> := None;
    var n := 0;
    while n < |block|
      invariant 0 <= n <= |block|
      invariant svc == None && ServiceOf(block) == ServiceOf(block[n..])
    {
      assert block[n..][1..] == block[n + 1..];
      if block[n].service.Some? {
        svc := block[n].service;
        break;
      }
      n := n + 1;
    }
    assert svc == ServiceOf(block);
    result := [];
    ghost var length := LengthOf(block, lengths);
    assert block[..0] == [];
    for i := 0 to |block|
      invariant result == LinesOut(block[..i], length)
    {
      var line := block[i];
      assert block[..i + 1] == block[..i] + [line];
      LinesOutAppend(block[..i], [line], length);
      assert LinesOut([line], length) == (if line.weight then [] else [Aligned(line, length)]) + LinesOut([], length);
      if line.weight {
        continue;
      }
      if line.tokens.Some? && svc.Some? && svc.value in lengths {
        result := result + [line.(tokens := Some(line.tokens.value.(value := lengths[svc.value])))];
        continue;
      }
      result := result + [line];
    }
    assert block[..|block|] == block;
  }

  lemma {:induction false} LinesOutAppend(a: seq<Line>, b: seq<Line>, length: Option<int>)
    ensures LinesOut(a + b, length) == LinesOut(a, length) + LinesOut(b, length)
  {
    if a == [] {
      assert a + b == b;
    } else {
      assert (a + b)[1..] == a[1..] + b;
      LinesOutAppend(a[1..], b, length);
    }
  }

  /** No weight line is left, and a token limit line of a known service holds that service's length. */
  lemma {:induction false} LinesOutMeans(block: seq<Line>, length: Option<int>)
    ensures forall l :: l in LinesOut(block, length) ==>
              !l.weight && (l.tokens.Some? && length.Some? ==> l.tokens.value.value == length.value)
    ensures ServiceOf(LinesOut(block, length)) == ServiceOf(block)
  {
    if block != [] {
      LinesOutMeans(block[1..], length);
      var rest := LinesOut(block[1..], length);
      if block[0].weight {
        assert [] + rest == rest;
      } else {
        assert ([Aligned(block[0], length)] + rest)[1..] == rest;
      }
    }
  }

  lemma {:induction false} LinesOutFixed(block: seq<Line>, length: Option<int>)
    requires forall l :: l in block ==>
               !l.weight && (l.tokens.Some? && length.Some? ==> l.tokens.value.value == length.value)
    ensures LinesOut(block, length) == block
  {
    if block != [] {
      assert block == [block[0]] + block[1..];
      LinesOutFixed(block[1..], length);
    }
  }

  /** Processing a processed block changes nothing. */
  lemma ProcessTwice(block: seq<Line>, lengths: Lengths)
    ensures ProcessBlock(ProcessBlock(block, lengths), lengths) == ProcessBlock(block, lengths)
  {
    LinesOutMeans(block, LengthOf(block, lengths));
    LinesOutFixed(ProcessBlock(block, lengths), LengthOf(block, lengths));
  }

  // ----- what processing means

  /** Line i is the first of the block that names a service. */
  predicate FirstNames(block: seq<Line>, i: int) {
    0 <= i < |block| && block[i].service.Some? && forall j :: 0 <= j < i ==> block[j].service.None?
  }

  /** l with its token limit, if it has one, set to v, and nothing else changed. */
  predicate SetTo(l: Line, v: int, r: Line) {
    match l.tokens
    case None => r == l
    case Some(t) => r == RawLine(l.modelList, l.header, l.entry, l.weight, l.service,
                                 Some(Tokens(t.prefix, v, t.suffix)), l.text)
  }

  /** at lists, in order, the places of the lines that are no weight lines. */
  ghost predicate KeptAt(block: seq<Line>, at: seq<nat>) {
    && (forall k, l :: 0 <= k < l < |at| ==> at[k] < at[l])
    && (forall i: nat :: i in at <==> i < |block| && !block[i].weight)
  }

  /** result is the block without its weight lines, with every token limit set to v, or, without a v,
      otherwise as it was. */
  ghost predicate Rewritten(block: seq<Line>, v: Option<int>, result: seq<Line>) {
    exists at: seq<nat> :: KeptAt(block, at) && RewrittenAt(block, v, at, result)
  }

  ghost predicate RewrittenAt(block: seq<Line>, v: Option<int>, at: seq<nat>, result: seq<Line>) {
    && |at| == |result|
    && forall k :: 0 <= k < |at| ==>
         at[k] < |block| && if v.Some? then SetTo(block[at[k]], v.value, result[k]) else result[k] == block[at[k]]
  }

  /** If the first service that the block names has a known length, every token limit is set to it;
      otherwise, all values stay. Weight lines go either way. */
  ghost predicate Processed(block: seq<Line>, lengths: Lengths, result: seq<Line>) {
    && (forall i :: FirstNames(block, i) && block[i].service.value in lengths ==>
          Rewritten(block, Some(lengths[block[i].service.value]), result))
    && ((forall i :: FirstNames(block, i) ==> block[i].service.value !in lengths) ==>
          Rewritten(block, None, result))
  }

  lemma KeptAtNext(block: seq<Line>, l: Line, at: seq<nat>)
    requires KeptAt(block, at)
    ensures KeptAt(block + [l], if l.weight then at else at + [|block|])
  {
    var all, n := block + [l], |block|;
    var at' := if l.weight then at else at + [n];
    assert forall k :: 0 <= k < |at| ==> at[k] in at;
    assert forall i: nat :: i in at' <==> i in at || (i == n && !l.weight);
    assert forall i: nat :: i < n ==> all[i] == block[i];
  }

  lemma AlignedSets(l: Line, v: Option<int>)
    ensures if v.Some? then SetTo(l, v.value, Aligned(l, v)) else Aligned(l, v) == l
  {
  }

  lemma RewrittenNext(block: seq<Line>, l: Line, v: Option<int>, at: seq<nat>, result: seq<Line>)
    requires RewrittenAt(block, v, at, result)
    ensures RewrittenAt(block + [l], v, if l.weight then at else at + [|block|],
                        result + if l.weight then [] else [Aligned(l, v)])
  {
    AlignedSets(l, v);
    hide SetTo;
    assert forall i: nat :: i < |block| ==> (block + [l])[i] == block[i];
  }

  lemma LinesOutOne(l: Line, v: Option<int>)
    ensures LinesOut([l], v) == if l.weight then [] else [Aligned(l, v)]
  {
    assert LinesOut([l], v) == (if l.weight then [] else [Aligned(l, v)]) + LinesOut([l][1..], v);
  }

  lemma {:induction false} LinesOutRewritten(block: seq<Line>, v: Option<int>)
    ensures Rewritten(block, v, LinesOut(block, v))
    decreases |block|
  {
    if block == [] {
      var none: seq<nat> := [];
      assert KeptAt(block, none) && RewrittenAt(block, v, none, []);
    } else {
      var n := |block| - 1;
      var before, l := block[..n], block[n];
      assert block == before + [l];
      LinesOutRewritten(before, v);
      LinesOutAppend(before, [l], v);
      LinesOutOne(l, v);
      hide KeptAt, RewrittenAt, LinesOut;
      var at: seq<nat> :| KeptAt(before, at) && RewrittenAt(before, v, at, LinesOut(before, v));
      KeptAtNext(before, l, at);
      RewrittenNext(before, l, v, at, LinesOut(before, v));
    }
  }

  lemma {:induction false} ServiceOfMeans(block: seq<Line>)
    ensures forall i :: FirstNames(block, i) ==> ServiceOf(block) == block[i].service
    ensures ServiceOf(block).Some? ==> exists i :: FirstNames(block, i)
    decreases |block|
  {
    if block != [] {
      var rest := block[1..];
      ServiceOfMeans(rest);
      forall i | FirstNames(block, i)
        ensures ServiceOf(block) == block[i].service
      {
        if i > 0 {
          assert block[0].service.None?;
          assert FirstNames(rest, i - 1);
        }
      }
      if block[0].service.Some? {
        assert FirstNames(block, 0);
      } else if ServiceOf(rest).Some? {
        var i :| FirstNames(rest, i);
        forall j | 0 <= j < i + 1
          ensures block[j].service.None?
        {
          assert j > 0 ==> block[j] == rest[j - 1];
        }
        assert FirstNames(block, i + 1);
      }
    }
  }

  lemma ProcessBlockMeans(block: seq<Line>, lengths: Lengths)
    ensures Processed(block, lengths, ProcessBlock(block, lengths))
  {
    ServiceOfMeans(block);
    LinesOutRewritten(block, LengthOf(block, lengths));
    hide Rewritten, LinesOut, ServiceOf;
    if ServiceOf(block).Some? {
      var i :| FirstNames(block, i);
      assert ServiceOf(block) == block[i].service;
    }
  }

  // ----- the loop

  /** What the loop still puts out: inside a list, `block` is pending. */
  function RenderFrom(ls: seq<Line>, inList: bool, block: seq<Line>, lengths: Lengths): seq<Line>
    decreases |ls|
  {
    if ls == [] then ProcessBlock(block, lengths)
    else
      var l, rest := ls[0], ls[1..];
      if l.modelList then [l] + RenderFrom(rest, true, block, lengths)
      else if !inList then [l] + RenderFrom(rest, false, block, lengths)
      else if l.header then ProcessBlock(block, lengths) + ([l] + RenderFrom(rest, false, [], lengths))
      else if l.entry then ProcessBlock(block, lengths) + RenderFrom(rest, true, [l], lengths)
      else RenderFrom(rest, true, block + [l], lengths)
  }

  function Render(ls: seq<Line>, lengths: Lengths): seq<Line> {
    RenderFrom(ls, false, [], lengths)
  }

  method RenderGatewayConfig(lines: seq<Line>, lengths: Lengths) returns (output: seq<Line>)
    ensures output == Render(lines, lengths)
  {
    output := [];
    var inModelList := false;
    var currentBlock: seq<Line> := [];
    assert lines[0..] == lines;
    assert output + Render(lines, lengths) == Render(lines, lengths);
    hide ProcessBlock;
    for i := 0 to |lines|
      invariant output + RenderFrom(lines[i..], inModelList, currentBlock, lengths) == Render(lines, lengths)
    {
      var line := lines[i];
      assert lines[i..][1..] == lines[i + 1..];
      ghost var after := lines[i + 1..];
      if line.modelList {
        Regroup(output, [line], RenderFrom(after, true, currentBlock, lengths));
        inModelList := true;
        output := output + [line];
        continue;
      }
      if inModelList {
        if line.header {
          inModelList := false;
          var done := ProcessDeploymentBlock(currentBlock, lengths);
          Regroup(output, done, [line] + RenderFrom(after, false, [], lengths));
          Regroup(output + done, [line], RenderFrom(after, false, [], lengths));
          output := output + done;
          currentBlock := [];
          output := output + [line];
          continue;
        }
        if line.entry {
          var done := ProcessDeploymentBlock(currentBlock, lengths);
          Regroup(output, done, RenderFrom(after, true, [line], lengths));
          output := output + done;
          currentBlock := [line];
          continue;
        }
        currentBlock := currentBlock + [line];
      } else {
        Regroup(output, [line], RenderFrom(after, false, currentBlock, lengths));
        output := output + [line];
      }
    }
    assert lines[|lines|..] == [];
    if currentBlock != [] {
      var done := ProcessDeploymentBlock(currentBlock, lengths);
      output := output + done;
    } else {
      EmptyBlock(lengths);
      assert output + [] == output;
    }
  }

  lemma EmptyBlock(lengths: Lengths)
    ensures ProcessBlock([], lengths) == []
  {
  }

  lemma Regroup(a: seq<Line>, b: seq<Line>, c: seq<Line>)
    ensures a + (b + c) == (a + b) + c
  {
  }

  // ----- the reference: split, process each entry, join

  predicate Boundary(l: Line) {
    l.modelList || l.header || l.entry
  }

  /** Number of lines before the first boundary. */
  function Extent(ls: seq<Line>): (n: nat)
    ensures n <= |ls|
    ensures n < |ls| ==> Boundary(ls[n])
    ensures forall i :: 0 <= i < n ==> !Boundary(ls[i])
  {
    if ls == [] || Boundary(ls[0]) then 0 else 1 + Extent(ls[1..])
  }

  /** Lines outside the list, model_list lines and section headers stay as they are; inside the list an
      entry with all lines up to the next boundary is processed as a whole. */
  function Reference(ls: seq<Line>, inList: bool, lengths: Lengths): seq<Line>
    decreases |ls|
  {
    if ls == [] then []
    else if ls[0].modelList then [ls[0]] + Reference(ls[1..], true, lengths)
    else if !inList || ls[0].header then [ls[0]] + Reference(ls[1..], false, lengths)
    else
      var n := 1 + Extent(ls[1..]);
      ProcessBlock(ls[..n], lengths) + Reference(ls[n..], true, lengths)
  }

  /** Inside the list, a model_list line is met while a line that will be kept is pending: the loop puts
      the model_list line out first. */
  predicate Overtakes(ls: seq<Line>, inList: bool, block: seq<Line>)
    decreases |ls|
  {
    ls != [] &&
    var l, rest := ls[0], ls[1..];
    if l.modelList then HasKept(block) || Overtakes(rest, true, block)
    else if !inList then Overtakes(rest, false, block)
    else if l.header then Overtakes(rest, false, [])
    else if l.entry then Overtakes(rest, true, [l])
    else Overtakes(rest, true, block + [l])
  }

  predicate HasKept(block: seq<Line>) {
    exists l :: l in block && !l.weight
  }

  /** A pending block: it starts with any line that is neither model_list nor header, and goes on with
      lines that are no boundary. */
  predicate Pending(block: seq<Line>) {
    && (block != [] ==> !block[0].modelList && !block[0].header)
    && forall i :: 1 <= i < |block| ==> !Boundary(block[i])
  }

  // ----- blocks in the reference

  lemma {:induction false} ExtentOfAppend(a: seq<Line>, tail: seq<Line>)
    requires forall i :: 0 <= i < |a| ==> !Boundary(a[i])
    ensures Extent(a + tail) == |a| + Extent(tail)
  {
    if a == [] {
      assert a + tail == tail;
    } else {
      assert (a + tail)[1..] == a[1..] + tail;
      ExtentOfAppend(a[1..], tail);
    }
  }

  lemma ReferenceOfEntry(ls: seq<Line>, lengths: Lengths)
    requires ls != [] && !ls[0].modelList && !ls[0].header
    ensures var n := 1 + Extent(ls[1..]);
            Reference(ls, true, lengths) == ProcessBlock(ls[..n], lengths) + Reference(ls[n..], true, lengths)
  {
  }

  /** A pending block before a tail takes the lines of the tail up to its first boundary along. */
  lemma ReferenceOfBlock(block: seq<Line>, tail: seq<Line>, lengths: Lengths)
    requires Pending(block) && block != []
    ensures var n := Extent(tail);
            Reference(block + tail, true, lengths)
            == ProcessBlock(block + tail[..n], lengths) + Reference(tail[n..], true, lengths)
  {
    hide ProcessBlock, Reference;
    var ls, n := block + tail, Extent(tail);
    ReferenceOfEntry(ls, lengths);
    assert ls[1..] == block[1..] + tail;
    ExtentOfAppend(block[1..], tail);
    assert ls[..|block| + n] == block + tail[..n];
    assert ls[|block| + n..] == tail[n..];
  }

  lemma ReferenceOfClosedBlock(block: seq<Line>, tail: seq<Line>, lengths: Lengths)
    requires Pending(block) && (tail == [] || Boundary(tail[0]))
    ensures Reference(block + tail, true, lengths) == ProcessBlock(block, lengths) + Reference(tail, true, lengths)
  {
    if block == [] {
      EmptyBlock(lengths);
      assert block + tail == tail;
      assert [] + Reference(tail, true, lengths) == Reference(tail, true, lengths);
    } else {
      ReferenceOfBlock(block, tail, lengths);
      assert block + tail[..0] == block && tail[0..] == tail;
    }
  }

  lemma {:induction false} NoServiceNoLines(block: seq<Line>, more: seq<Line>, lengths: Lengths)
    requires !HasKept(block)
    ensures ServiceOf(block + more) == ServiceOf(more)
    ensures ProcessBlock(block + more, lengths) == ProcessBlock(more, lengths)
    decreases |block|
  {
    if block == [] {
      assert block + more == more;
    } else {
      assert (block + more)[1..] == block[1..] + more;
      assert block[0] in block && block[0].weight;
      assert !HasKept(block[1..]);
      NoServiceNoLines(block[1..], more, lengths);
      assert forall x: seq<Line> :: [] + x == x;
    }
  }

  /** Lines before the first boundary are processed, whether or not there are any. */
  lemma ReferenceOfLines(rest: seq<Line>, lengths: Lengths)
    ensures var n := Extent(rest);
            Reference(rest, true, lengths) == ProcessBlock(rest[..n], lengths) + Reference(rest[n..], true, lengths)
  {
    var n := Extent(rest);
    assert rest[..n] + rest[n..] == rest;
    ReferenceOfClosedBlock(rest[..n], rest[n..], lengths);
  }

  /** A pending block of nothing but weight lines leaves no trace. */
  lemma WeightsVanish(block: seq<Line>, rest: seq<Line>, lengths: Lengths)
    requires Pending(block) && !HasKept(block)
    ensures Reference(block + rest, true, lengths) == Reference(rest, true, lengths)
  {
    hide ProcessBlock, Reference;
    if block == [] {
      assert block + rest == rest;
    } else {
      ReferenceOfBlock(block, rest, lengths);
      NoServiceNoLines(block, rest[..Extent(rest)], lengths);
      ReferenceOfLines(rest, lengths);
    }
  }

  // ----- loop and reference

  lemma Cancel(p: seq<Line>, a: seq<Line>, b: seq<Line>)
    ensures p + a == p + b <==> a == b
  {
    if p + a == p + b {
      assert a == (p + a)[|p|..] == (p + b)[|p|..] == b;
    }
  }

  lemma KeptComesFirst(block: seq<Line>, lengths: Lengths)
    requires Pending(block) && HasKept(block)
    ensures ProcessBlock(block, lengths) != [] && !ProcessBlock(block, lengths)[0].modelList
  {
    FirstKept(block, LengthOf(block, lengths));
  }

  lemma {:induction false} FirstKept(block: seq<Line>, length: Option<int>)
    requires HasKept(block) && forall i :: 0 <= i < |block| ==> !block[i].modelList
    ensures LinesOut(block, length) != [] && !LinesOut(block, length)[0].modelList
  {
    if block[0].weight {
      var l :| l in block && !l.weight;
      assert l in block[1..];
      FirstKept(block[1..], length);
    }
  }

  /** The pending-block loop is splitting, processing and joining exactly when no model_list line
      overtakes a pending line. */
  lemma {:induction false} LoopIsReferenceIff(ls: seq<Line>, inList: bool, block: seq<Line>, lengths: Lengths)
    requires Pending(block) && (!inList ==> block == [])
    ensures RenderFrom(ls, inList, block, lengths) == Reference(block + ls, inList, lengths)
       <==> !Overtakes(ls, inList, block)
    decreases |ls|
  {
    hide ProcessBlock;
    if ls == [] {
      assert block + ls == block;
      ReferenceOfClosedBlock(block, [], lengths);
      assert ProcessBlock(block, lengths) + [] == ProcessBlock(block, lengths);
      EmptyBlock(lengths);
    } else {
      var l, rest := ls[0], ls[1..];
      assert ls == [l] + rest;
      assert block == [] ==> block + ls == ls;
      if l.modelList {
        ListLine(ls, inList, block, lengths);
        LoopIsReferenceIff(rest, true, block, lengths);
      } else if !inList {
        LoopIsReferenceIff(rest, false, [], lengths);
        assert [] + rest == rest;
        Cancel([l], RenderFrom(rest, false, [], lengths), Reference(rest, false, lengths));
      } else if l.header {
        ReferenceOfClosedBlock(block, ls, lengths);
        LoopIsReferenceIff(rest, false, [], lengths);
        assert [] + rest == rest;
        Cancel([l], RenderFrom(rest, false, [], lengths), Reference(rest, false, lengths));
        Cancel(ProcessBlock(block, lengths), [l] + RenderFrom(rest, false, [], lengths),
               [l] + Reference(rest, false, lengths));
      } else if l.entry {
        ReferenceOfClosedBlock(block, ls, lengths);
        LoopIsReferenceIff(rest, true, [l], lengths);
        Cancel(ProcessBlock(block, lengths), RenderFrom(rest, true, [l], lengths), Reference(ls, true, lengths));
      } else {
        assert (block + [l]) + rest == block + ls;
        LoopIsReferenceIff(rest, true, block + [l], lengths);
      }
    }
  }

  /** The model_list line: what the loop and the reference put out next. */
  lemma ListLine(ls: seq<Line>, inList: bool, block: seq<Line>, lengths: Lengths)
    requires ls != [] && ls[0].modelList && Pending(block) && (!inList ==> block == [])
    ensures var l, rest := ls[0], ls[1..];
            if HasKept(block) then
              RenderFrom(ls, inList, block, lengths) != Reference(block + ls, inList, lengths)
            else
              (RenderFrom(ls, inList, block, lengths) == Reference(block + ls, inList, lengths)
               <==> RenderFrom(rest, true, block, lengths) == Reference(block + rest, true, lengths))
  {
    var l, rest := ls[0], ls[1..];
    if HasKept(block) {
      ReferenceOfClosedBlock(block, ls, lengths);
      KeptComesFirst(block, lengths);
      hide ProcessBlock;
      assert (ProcessBlock(block, lengths) + Reference(ls, true, lengths))[0] == ProcessBlock(block, lengths)[0];
      assert RenderFrom(ls, inList, block, lengths)[0] == l;
    } else {
      WeightsVanish(block, rest, lengths);
      if inList {
        WeightsVanish(block, ls, lengths);
      } else {
        assert block + ls == ls;
      }
      Cancel([l], RenderFrom(rest, true, block, lengths), Reference(rest, true, lengths));
    }
  }

  /** For whole files. */
  lemma RenderIsReferenceIff(ls: seq<Line>, lengths: Lengths)
    ensures Render(ls, lengths) == Reference(ls, false, lengths) <==> !Overtakes(ls, false, [])
  {
    LoopIsReferenceIff(ls, false, [], lengths);
    assert [] + ls == ls;
  }

  // ----- what the reference does to lines

  /** The lines that are kept: all but the weight lines inside the list. */
  function Kept(ls: seq<Line>, inList: bool): seq<Line> {
    if ls == [] then []
    else if ls[0].modelList then [ls[0]] + Kept(ls[1..], true)
    else if !inList || ls[0].header then [ls[0]] + Kept(ls[1..], false)
    else (if ls[0].weight then [] else [ls[0]]) + Kept(ls[1..], true)
  }

  /** The line without its token limit. */
  function Blank(l: Line): Line {
    if l.tokens.Some? then l.(tokens := Some(l.tokens.value.(value := 0))) else l
  }

  function Blanked(ls: seq<Line>): seq<Line> {
    if ls == [] then [] else [Blank(ls[0])] + Blanked(ls[1..])
  }

  lemma {:induction false} BlankedAppend(a: seq<Line>, b: seq<Line>)
    ensures Blanked(a + b) == Blanked(a) + Blanked(b)
  {
    if a == [] {
      assert a + b == b;
    } else {
      assert (a + b)[1..] == a[1..] + b;
      BlankedAppend(a[1..], b);
    }
  }

  lemma KeptOfPlain(l: Line, rest: seq<Line>, inList: bool)
    requires l.modelList || !inList || l.header
    ensures Kept([l] + rest, inList) == [l] + Kept(rest, l.modelList)
  {
    assert ([l] + rest)[1..] == rest;
  }

  /** Inside the list only weight lines vanish and only token limits change; outside nothing does; and
      all lines keep their order. */
  lemma {:induction false} ReferenceKeepsLines(ls: seq<Line>, inList: bool, lengths: Lengths)
    ensures Blanked(Reference(ls, inList, lengths)) == Blanked(Kept(ls, inList))
    decreases |ls|
  {
    if ls != [] {
      var l, rest := ls[0], ls[1..];
      assert [l] + rest == ls;
      if l.modelList || !inList || l.header {
        ReferenceOfPlain(l, rest, inList, lengths);
        KeptOfPlain(l, rest, inList);
        hide Reference, Kept, Blanked;
        ReferenceKeepsLines(rest, l.modelList, lengths);
        BlankedAppend([l], Reference(rest, l.modelList, lengths));
        BlankedAppend([l], Kept(rest, l.modelList));
      } else {
        var n := 1 + Extent(rest);
        ReferenceOfEntry(ls, lengths);
        NoListInPart(ls, n);
        hide Reference, Kept, Blanked, Extent;
        ReferenceKeepsLines(ls[n..], true, lengths);
        BlankedAppend(ProcessBlock(ls[..n], lengths), Reference(ls[n..], true, lengths));
        assert ls == ls[..n] + ls[n..];
        BlockKeepsLines(ls[..n], ls[n..], LengthOf(ls[..n], lengths));
      }
    }
  }

  lemma {:induction false} BlockKeepsLines(block: seq<Line>, tail: seq<Line>, length: Option<int>)
    requires forall i :: 0 <= i < |block| ==> !block[i].modelList && !block[i].header
    ensures Blanked(Kept(block + tail, true)) == Blanked(LinesOut(block, length)) + Blanked(Kept(tail, true))
    decreases |block|
  {
    if block == [] {
      assert block + tail == tail;
      assert [] + Blanked(Kept(tail, true)) == Blanked(Kept(tail, true));
    } else {
      assert (block + tail)[1..] == block[1..] + tail;
      BlockKeepsLines(block[1..], tail, length);
      BlankedCons(block[0], Kept(block[1..] + tail, true));
      BlankedCons(Aligned(block[0], length), LinesOut(block[1..], length));
      hide Blanked;
      assert Blank(Aligned(block[0], length)) == Blank(block[0]);
      if block[0].weight {
        assert [] + Kept(block[1..] + tail, true) == Kept(block[1..] + tail, true);
        assert [] + LinesOut(block[1..], length) == LinesOut(block[1..], length);
      } else {
        Regroup([Blank(block[0])], Blanked(LinesOut(block[1..], length)), Blanked(Kept(tail, true)));
      }
    }
  }

  lemma BlankedCons(l: Line, ls: seq<Line>)
    ensures Blanked([l] + ls) == [Blank(l)] + Blanked(ls)
  {
    assert ([l] + ls)[1..] == ls;
  }

  /** How often the line x occurs, token limits left out. */
  function Times(x: Line, ls: seq<Line>): nat {
    multiset(Blanked(ls))[x]
  }

  lemma TimesAppend(x: Line, a: seq<Line>, b: seq<Line>)
    ensures Times(x, a + b) == Times(x, a) + Times(x, b)
  {
    BlankedAppend(a, b);
  }

  lemma {:induction false} LengthIsBlanked(block: seq<Line>, length: Option<int>)
    ensures Blanked(LinesOut(block, length)) == Blanked(LinesOut(block, None))
  {
    if block != [] {
      LengthIsBlanked(block[1..], length);
      if !block[0].weight {
        BlankedCons(Aligned(block[0], length), LinesOut(block[1..], length));
        BlankedCons(Aligned(block[0], None), LinesOut(block[1..], None));
      } else {
        assert [] + LinesOut(block[1..], length) == LinesOut(block[1..], length);
        assert [] + LinesOut(block[1..], None) == LinesOut(block[1..], None);
      }
    }
  }

  /** The lines of a pending block that will be put out. */
  function Pended(x: Line, block: seq<Line>): nat {
    Times(x, LinesOut(block, None))
  }

  lemma PendedNext(x: Line, block: seq<Line>, l: Line)
    ensures Pended(x, block + [l]) == Pended(x, block) + Times(x, if l.weight then [] else [l])
  {
    LinesOutAppend(block, [l], None);
    assert [l][1..] == [];
    var own := if l.weight then [] else [l];
    assert LinesOut([l], None) == own + LinesOut([], None) == own;
    TimesAppend(x, LinesOut(block, None), own);
  }

  lemma PendedOut(x: Line, block: seq<Line>, lengths: Lengths)
    ensures Times(x, ProcessBlock(block, lengths)) == Pended(x, block)
  {
    LengthIsBlanked(block, LengthOf(block, lengths));
  }

  lemma KeptNext(x: Line, l: Line, rest: seq<Line>, inList: bool)
    ensures Times(x, Kept([l] + rest, inList))
         == if l.modelList || !inList || l.header then Times(x, [l]) + Times(x, Kept(rest, l.modelList))
            else Times(x, if l.weight then [] else [l]) + Times(x, Kept(rest, true))
  {
    assert ([l] + rest)[1..] == rest;
    TimesAppend(x, [l], Kept(rest, l.modelList));
    TimesAppend(x, if l.weight then [] else [l], Kept(rest, true));
  }

  lemma RenderNext(x: Line, l: Line, rest: seq<Line>, inList: bool, block: seq<Line>, lengths: Lengths)
    ensures Times(x, RenderFrom([l] + rest, inList, block, lengths))
         == if l.modelList || !inList then Times(x, [l]) + Times(x, RenderFrom(rest, l.modelList, block, lengths))
            else if l.header then Pended(x, block) + (Times(x, [l]) + Times(x, RenderFrom(rest, false, [], lengths)))
            else if l.entry then Pended(x, block) + Times(x, RenderFrom(rest, true, [l], lengths))
            else Times(x, RenderFrom(rest, true, block + [l], lengths))
  {
    RenderCons(l, rest, inList, block, lengths);
    PendedOut(x, block, lengths);
    hide ProcessBlock, Times, Pended, RenderFrom;
    if l.modelList || !inList {
      TimesAppend(x, [l], RenderFrom(rest, l.modelList, block, lengths));
    } else if l.header {
      TimesAppend(x, [l], RenderFrom(rest, false, [], lengths));
      TimesAppend(x, ProcessBlock(block, lengths), [l] + RenderFrom(rest, false, [], lengths));
    } else if l.entry {
      TimesAppend(x, ProcessBlock(block, lengths), RenderFrom(rest, true, [l], lengths));
    }
  }

  /** With or without overtaking, the loop loses and invents no line: it puts out the pending lines and
      the lines still to come, except the weight lines inside the list. */
  lemma {:induction false} LoopKeepsLines(x: Line, ls: seq<Line>, inList: bool, block: seq<Line>, lengths: Lengths)
    requires !inList ==> block == []
    ensures Times(x, RenderFrom(ls, inList, block, lengths)) == Pended(x, block) + Times(x, Kept(ls, inList))
    decreases |ls|
  {
    NothingPended(x);
    PendedOut(x, block, lengths);
    if ls != [] {
      var l, rest := ls[0], ls[1..];
      assert [l] + rest == ls && [] + [l] == [l];
      RenderNext(x, l, rest, inList, block, lengths);
      KeptNext(x, l, rest, inList);
      PendedNext(x, [], l);
      PendedNext(x, block, l);
      hide RenderFrom, Kept, ProcessBlock, Pended, Times;
      if l.modelList || !inList {
        LoopKeepsLines(x, rest, l.modelList, block, lengths);
      } else if l.header {
        LoopKeepsLines(x, rest, false, [], lengths);
      } else if l.entry {
        LoopKeepsLines(x, rest, true, [l], lengths);
      } else {
        LoopKeepsLines(x, rest, true, block + [l], lengths);
      }
    }
  }

  lemma NothingPended(x: Line)
    ensures Pended(x, []) == 0
  {
  }

  /** For whole files. */
  lemma RenderLosesNoLine(x: Line, ls: seq<Line>, lengths: Lengths)
    ensures Times(x, Render(ls, lengths)) == Times(x, Kept(ls, false))
  {
    LoopKeepsLines(x, ls, false, [], lengths);
    NothingPended(x);
  }

  // ----- rendering twice

  lemma {:induction false} LinesOutParts(block: seq<Line>, length: Option<int>)
    ensures forall o :: o in LinesOut(block, length) ==>
              exists l :: l in block && !l.weight && o == Aligned(l, length)
    decreases |block|
  {
    if block != [] {
      LinesOutParts(block[1..], length);
    }
  }

  /** A processed block is again a pending block. */
  lemma {:induction false} ProcessedIsPending(block: seq<Line>, length: Option<int>)
    requires Pending(block)
    ensures Pending(LinesOut(block, length))
  {
    if block != [] {
      LinesOutParts(block[1..], length);
      var rest := LinesOut(block[1..], length);
      forall o | o in rest
        ensures !Boundary(o)
      {
        var l :| l in block[1..] && !l.weight && o == Aligned(l, length);
        assert !Boundary(l);
      }
      assert forall i :: 0 <= i < |rest| ==> rest[i] in rest;
    }
  }

  lemma EntryComesFirst(block: seq<Line>, lengths: Lengths)
    requires block != [] && block[0].entry
    ensures var p := ProcessBlock(block, lengths);
            p != [] && p[0].entry && p[0].modelList == block[0].modelList && p[0].header == block[0].header
  {
  }

  /** While an entry is pending, the loop puts out a boundary next. */
  lemma {:induction false} NextIsBoundary(ls: seq<Line>, block: seq<Line>, lengths: Lengths)
    requires Pending(block) && block != [] && block[0].entry
    ensures var r := RenderFrom(ls, true, block, lengths);
            && r != [] && Boundary(r[0])
            && (!Overtakes(ls, true, block) ==> r[0].entry && !r[0].modelList && !r[0].header)
    decreases |ls|
  {
    EntryComesFirst(block, lengths);
    hide ProcessBlock;
    if ls != [] && !Boundary(ls[0]) {
      NextIsBoundary(ls[1..], block + [ls[0]], lengths);
    } else {
      assert block[0] in block;
    }
  }

  /** Whatever was rendered, splitting, processing and joining it again changes nothing. */
  lemma {:induction false} RenderedIsSettled(ls: seq<Line>, inList: bool, block: seq<Line>, lengths: Lengths)
    requires Pending(block) && (!inList ==> block == [])
    ensures var out := RenderFrom(ls, inList, block, lengths); Reference(out, inList, lengths) == out
    decreases |ls|
  {
    if ls == [] {
      SettledBlock(block, [], lengths);
      assert ProcessBlock(block, lengths) + [] == ProcessBlock(block, lengths);
      if !inList {
        EmptyBlock(lengths);
      }
    } else {
      var l, rest := ls[0], ls[1..];
      if l.modelList {
        RenderedIsSettled(rest, true, block, lengths);
        assert ([l] + RenderFrom(rest, true, block, lengths))[1..] == RenderFrom(rest, true, block, lengths);
      } else if !inList {
        RenderedIsSettled(rest, false, [], lengths);
        assert ([l] + RenderFrom(rest, false, [], lengths))[1..] == RenderFrom(rest, false, [], lengths);
      } else if l.header {
        RenderedIsSettled(rest, false, [], lengths);
        var tail := [l] + RenderFrom(rest, false, [], lengths);
        assert tail[1..] == RenderFrom(rest, false, [], lengths);
        SettledBlock(block, tail, lengths);
      } else if l.entry {
        RenderedIsSettled(rest, true, [l], lengths);
        NextIsBoundary(rest, [l], lengths);
        SettledBlock(block, RenderFrom(rest, true, [l], lengths), lengths);
      } else {
        RenderedIsSettled(rest, true, block + [l], lengths);
      }
    }
  }

  lemma SettledBlock(block: seq<Line>, tail: seq<Line>, lengths: Lengths)
    requires Pending(block) && (tail == [] || Boundary(tail[0]))
    requires Reference(tail, true, lengths) == tail
    ensures Reference(ProcessBlock(block, lengths) + tail, true, lengths) == ProcessBlock(block, lengths) + tail
  {
    ProcessedIsPending(block, LengthOf(block, lengths));
    ReferenceOfClosedBlock(ProcessBlock(block, lengths), tail, lengths);
    ProcessTwice(block, lengths);
  }

  /** A rendered file stays as it is when it is rendered again, exactly when no model_list line in it
      overtakes a pending line. */
  lemma RenderTwiceIff(ls: seq<Line>, lengths: Lengths)
    ensures var once := Render(ls, lengths);
            Render(once, lengths) == once <==> !Overtakes(once, false, [])
  {
    RenderedIsSettled(ls, false, [], lengths);
    RenderIsReferenceIff(Render(ls, lengths), lengths);
  }

  function One(b: bool): nat {
    if b then 1 else 0
  }

  function Max(a: nat, b: nat): nat {
    if a >= b then a else b
  }

  function Less(n: nat): nat {
    if n > 0 then n - 1 else 0
  }

  /** The number of blocks of kept lines that a model_list line stands below in its section, at most. So
      far `out` such blocks were put out; `pending` says that the pending block has a kept line. */
  function Depth(ls: seq<Line>, inList: bool, pending: bool, out: nat): nat
    decreases |ls|
  {
    if ls == [] then 0
    else
      var l, rest := ls[0], ls[1..];
      if l.modelList then Max(out + One(pending), Depth(rest, true, pending, out))
      else if !inList then Depth(rest, false, pending, out)
      else if l.header then Depth(rest, false, false, 0)
      else if l.entry then Depth(rest, true, true, out + One(pending))
      else Depth(rest, true, pending || !l.weight, out)
  }

  function DepthOf(ls: seq<Line>): nat {
    Depth(ls, false, false, 0)
  }

  lemma KeptOfNext(block: seq<Line>, l: Line)
    ensures HasKept(block + [l]) <==> HasKept(block) || !l.weight
    ensures HasKept([l]) <==> !l.weight
    ensures !HasKept([])
  {
    assert l in block + [l] && l in [l];
    if HasKept(block) {
      var k :| k in block && !k.weight;
      assert k in block + [l];
    }
  }

  /** A model_list line overtakes exactly when one stands below a block. */
  lemma {:induction false} OvertakesIffDeep(ls: seq<Line>, inList: bool, block: seq<Line>, out: nat)
    requires out > 0 ==> HasKept(block)
    ensures Overtakes(ls, inList, block) <==> Depth(ls, inList, HasKept(block), out) > 0
    decreases |ls|
  {
    if ls != [] {
      var l, rest := ls[0], ls[1..];
      KeptOfNext(block, l);
      hide HasKept;
      if l.modelList {
        OvertakesIffDeep(rest, true, block, out);
      } else if !inList {
        OvertakesIffDeep(rest, false, block, out);
      } else if l.header {
        OvertakesIffDeep(rest, false, [], 0);
      } else if l.entry {
        OvertakesIffDeep(rest, true, [l], out + One(HasKept(block)));
      } else {
        OvertakesIffDeep(rest, true, block + [l], out);
      }
    }
  }

  lemma {:induction false} DepthAfterLines(lines: seq<Line>, tail: seq<Line>, pending: bool, out: nat)
    requires forall i :: 0 <= i < |lines| ==> !Boundary(lines[i])
    ensures Depth(lines + tail, true, pending, out) == Depth(tail, true, pending || HasKept(lines), out)
    decreases |lines|
  {
    if lines == [] {
      assert lines + tail == tail;
    } else {
      assert (lines + tail)[1..] == lines[1..] + tail;
      DepthAfterLines(lines[1..], tail, pending || !lines[0].weight, out);
      KeptOfCons(lines);
    }
  }

  lemma KeptOfCons(lines: seq<Line>)
    requires lines != []
    ensures HasKept(lines) <==> !lines[0].weight || HasKept(lines[1..])
  {
    assert lines[0] in lines;
    if HasKept(lines[1..]) {
      var k :| k in lines[1..] && !k.weight;
      assert k in lines;
    }
  }

  /** A block p that is read: an entry puts out what was pending, other lines join it. */
  lemma DepthAfterBlock(p: seq<Line>, tail: seq<Line>, pending: bool, out: nat)
    requires Pending(p)
    ensures Depth(p + tail, true, pending, out)
         == if p != [] && p[0].entry then Depth(tail, true, true, out + One(pending))
            else Depth(tail, true, pending || HasKept(p), out)
  {
    if p == [] {
      assert p + tail == tail;
    } else {
      assert (p + tail)[1..] == p[1..] + tail;
      KeptOfCons(p);
      if p[0].entry {
        DepthAfterLines(p[1..], tail, true, out + One(pending));
      } else {
        DepthAfterLines(p[1..], tail, pending || !p[0].weight, out);
      }
    }
  }

  lemma {:induction false} OnlyWeights(block: seq<Line>, length: Option<int>)
    ensures !HasKept(block) ==> LinesOut(block, length) == []
  {
    if block != [] && !HasKept(block) {
      assert block[0] in block;
      assert forall l :: l in block[1..] ==> l in block;
      OnlyWeights(block[1..], length);
    }
  }

  /** Processing keeps whether a block has a kept line and whether it begins with an entry. */
  lemma ProcessedAlike(block: seq<Line>, lengths: Lengths)
    requires Pending(block)
    ensures var p := ProcessBlock(block, lengths);
            && Pending(p) && (HasKept(p) <==> HasKept(block))
            && (block != [] && block[0].entry ==> p != [] && p[0].entry)
            && (block == [] || !block[0].entry ==> p == [] || !p[0].entry)
  {
    var p, length := ProcessBlock(block, lengths), LengthOf(block, lengths);
    ProcessedIsPending(block, length);
    LinesOutParts(block, length);
    OnlyWeights(block, length);
    if HasKept(block) {
      KeptComesFirst(block, lengths);
      assert p[0] in p;
    }
    if p != [] && !block[0].entry {
      assert p[0] in p;
      var l :| l in block && !l.weight && p[0] == Aligned(l, length);
      assert !l.entry;
    }
  }

  /** What has been put out of a section is `out` blocks and what is `pending` when it is read again; the
      pending block of the loop is an entry as soon as there is any. */
  predicate Follows(block: seq<Line>, pending: bool, out: nat) {
    (!pending && out == 0) || (block != [] && block[0].entry)
  }

  lemma DepthCons(l: Line, rest: seq<Line>, inList: bool, pending: bool, out: nat)
    ensures Depth([l] + rest, inList, pending, out)
         == if l.modelList then Max(out + One(pending), Depth(rest, true, pending, out))
            else if !inList then Depth(rest, false, pending, out)
            else if l.header then Depth(rest, false, false, 0)
            else if l.entry then Depth(rest, true, true, out + One(pending))
            else Depth(rest, true, pending || !l.weight, out)
  {
    assert ([l] + rest)[1..] == rest;
  }

  lemma RenderCons(l: Line, rest: seq<Line>, inList: bool, block: seq<Line>, lengths: Lengths)
    ensures RenderFrom([l] + rest, inList, block, lengths)
         == if l.modelList then [l] + RenderFrom(rest, true, block, lengths)
            else if !inList then [l] + RenderFrom(rest, false, block, lengths)
            else if l.header then ProcessBlock(block, lengths) + ([l] + RenderFrom(rest, false, [], lengths))
            else if l.entry then ProcessBlock(block, lengths) + RenderFrom(rest, true, [l], lengths)
            else RenderFrom(rest, true, block + [l], lengths)
  {
    assert ([l] + rest)[1..] == rest;
  }

  lemma EntryIsKept(block: seq<Line>)
    requires block != [] && block[0].entry
    ensures HasKept(block)
  {
    KeptOfCons(block);
  }

  /** The pending block of the loop after a line of the list that puts nothing out, or an entry. */
  lemma StillFollows(block: seq<Line>, l: Line, pending: bool, out: nat)
    requires Pending(block) && Follows(block, pending, out) && !l.modelList && !l.header
    ensures !l.entry ==> Pending(block + [l]) && Follows(block + [l], pending, out)
    ensures Pending([l]) && (l.entry ==> forall b, n :: Follows([l], b, n))
    ensures Pending([]) && Follows([], false, 0)
  {
  }

  lemma ReadAgain(block: seq<Line>, tail: seq<Line>, lengths: Lengths, pending: bool, out: nat)
    requires Pending(block) && Follows(block, pending, out)
    ensures Depth(ProcessBlock(block, lengths) + tail, true, pending, out)
         == if block != [] && block[0].entry then Depth(tail, true, true, out + One(pending))
            else Depth(tail, true, HasKept(block), out)
  {
    ProcessedAlike(block, lengths);
    hide Depth, ProcessBlock, HasKept;
    DepthAfterBlock(ProcessBlock(block, lengths), tail, pending, out);
  }

  /** Rendering lifts every model_list line by one block. */
  lemma {:induction false} RenderLifts(ls: seq<Line>, inList: bool, block: seq<Line>, lengths: Lengths,
                                       pending: bool, out: nat)
    requires Pending(block) && (!inList ==> block == []) && Follows(block, pending, out)
    ensures Depth(RenderFrom(ls, inList, block, lengths), inList, pending, out)
         == Less(Depth(ls, inList, HasKept(block), out + One(pending)))
    decreases |ls|
  {
    if ls == [] {
      LiftsEnd(inList, block, lengths, pending, out);
      EmptyBlock(lengths);
    } else {
      var l, rest := ls[0], ls[1..];
      assert [l] + rest == ls;
      var entry := block != [] && block[0].entry;
      if entry {
        EntryIsKept(block);
      }
      KeptOfNext(block, l);
      DepthCons(l, rest, inList, HasKept(block), out + One(pending));
      RenderCons(l, rest, inList, block, lengths);
      if !l.modelList && !l.header {
        StillFollows(block, l, pending, out);
      }
      hide Depth, RenderFrom, ProcessBlock, HasKept, Pending;
      if l.modelList {
        RenderLifts(rest, true, block, lengths, pending, out);
        DepthCons(l, RenderFrom(rest, true, block, lengths), inList, pending, out);
      } else if !inList {
        RenderLifts(rest, false, [], lengths, pending, out);
        DepthCons(l, RenderFrom(rest, false, [], lengths), inList, pending, out);
      } else if l.header {
        RenderLifts(rest, false, [], lengths, false, 0);
        var tail := [l] + RenderFrom(rest, false, [], lengths);
        ReadAgain(block, tail, lengths, pending, out);
        DepthCons(l, RenderFrom(rest, false, [], lengths), true, entry || HasKept(block),
                  if entry then out + One(pending) else out);
      } else if l.entry {
        ReadAgain(block, RenderFrom(rest, true, [l], lengths), lengths, pending, out);
        RenderLifts(rest, true, [l], lengths, entry || HasKept(block), if entry then out + One(pending) else out);
      } else {
        RenderLifts(rest, true, block + [l], lengths, pending, out);
      }
    }
  }

  lemma LiftsEnd(inList: bool, block: seq<Line>, lengths: Lengths, pending: bool, out: nat)
    requires Pending(block) && (!inList ==> block == [])
    ensures Depth(ProcessBlock(block, lengths), inList, pending, out) == 0
  {
    ProcessedAlike(block, lengths);
    EmptyBlock(lengths);
    var p := ProcessBlock(block, lengths);
    if inList {
      assert p + [] == p;
      DepthAfterBlock(p, [], pending, out);
    }
  }

  /** For whole files. */
  lemma RenderLiftsFile(ls: seq<Line>, lengths: Lengths)
    ensures DepthOf(Render(ls, lengths)) == Less(DepthOf(ls))
    ensures Overtakes(ls, false, []) <==> DepthOf(ls) > 0
  {
    RenderLifts(ls, false, [], lengths, false, 0);
    OvertakesIffDeep(ls, false, [], 0);
    assert !HasKept([]);
  }

  /** Rendering is idempotent on a file exactly when no model_list line of the file stands below two blocks
      of its section. */
  lemma RenderIsIdempotentIff(ls: seq<Line>, lengths: Lengths)
    ensures Render(Render(ls, lengths), lengths) == Render(ls, lengths) <==> DepthOf(ls) <= 1
  {
    RenderTwiceIff(ls, lengths);
    RenderLiftsFile(ls, lengths);
    RenderLiftsFile(Render(ls, lengths), lengths);
  }

  /** So rendering is idempotent on every file in which nothing is overtaken. */
  lemma RenderIsIdempotent(ls: seq<Line>, lengths: Lengths)
    requires !Overtakes(ls, false, [])
    ensures Render(Render(ls, lengths), lengths) == Render(ls, lengths)
  {
    RenderLiftsFile(ls, lengths);
    RenderIsIdempotentIff(ls, lengths);
  }

  // ----- values, over whole files

  /** Whether the lines after ls are in a list. */
  function ListAfter(ls: seq<Line>, inList: bool): bool
    decreases |ls|
  {
    if ls == [] then inList
    else ListAfter(ls[1..], ls[0].modelList || (inList && !ls[0].header))
  }

  /** An entry with all its lines. */
  predicate Entire(block: seq<Line>, post: seq<Line>) {
    && block != [] && block[0].entry && !block[0].modelList && !block[0].header
    && (forall i :: 1 <= i < |block| ==> !Boundary(block[i]))
    && (post == [] || Boundary(post[0]))
  }

  lemma {:induction false} ListContinues(block: seq<Line>, rest: seq<Line>)
    requires forall i :: 0 <= i < |block| ==> !block[i].modelList && !block[i].header
    ensures ListAfter(block + rest, true) == ListAfter(rest, true)
    decreases |block|
  {
    if block == [] {
      assert block + rest == rest;
    } else {
      assert (block + rest)[1..] == block[1..] + rest;
      ListContinues(block[1..], rest);
    }
  }

  lemma {:induction false} ExtentBefore(a: seq<Line>, tail: seq<Line>)
    requires tail == [] || Boundary(tail[0]) || Extent(a) < |a|
    ensures Extent(a + tail) == Extent(a)
    decreases |a|
  {
    if a == [] {
      assert a + tail == tail;
    } else if !Boundary(a[0]) {
      assert (a + tail)[1..] == a[1..] + tail;
      ExtentBefore(a[1..], tail);
    }
  }

  lemma ReferenceOfPlain(l: Line, rest: seq<Line>, inList: bool, lengths: Lengths)
    requires l.modelList || !inList || l.header
    ensures Reference([l] + rest, inList, lengths) == [l] + Reference(rest, l.modelList, lengths)
    ensures ListAfter([l] + rest, inList) == ListAfter(rest, l.modelList)
  {
    assert ([l] + rest)[1..] == rest;
  }

  lemma NoListInPart(pre: seq<Line>, n: nat)
    requires pre != [] && !pre[0].modelList && !pre[0].header && n == 1 + Extent(pre[1..])
    ensures forall i :: 0 <= i < n ==> !pre[..n][i].modelList && !pre[..n][i].header
  {
    forall i | 0 <= i < n
      ensures !pre[..n][i].modelList && !pre[..n][i].header
    {
      if i > 0 {
        assert pre[i] == pre[1..][i - 1] && !Boundary(pre[1..][i - 1]);
      }
    }
  }

  lemma BlockOfPart(pre: seq<Line>, n: nat)
    requires pre != [] && !pre[0].modelList && !pre[0].header && n == 1 + Extent(pre[1..])
    ensures ListAfter(pre, true) == ListAfter(pre[n..], true)
    ensures n == |pre| ==> ListAfter(pre, true)
  {
    NoListInPart(pre, n);
    hide Extent;
    assert pre == pre[..n] + pre[n..];
    ListContinues(pre[..n], pre[n..]);
    assert n == |pre| ==> pre[n..] == [];
  }

  lemma SlicesOfPart(pre: seq<Line>, tail: seq<Line>, n: nat)
    requires 1 <= n <= |pre|
    ensures (pre + tail)[..n] == pre[..n] && (pre + tail)[n..] == pre[n..] + tail
    ensures (pre + tail)[0] == pre[0] && (pre + tail)[1..] == pre[1..] + tail
  {
  }

  lemma ReferenceOfPart(pre: seq<Line>, tail: seq<Line>, n: nat, lengths: Lengths)
    requires pre != [] && !pre[0].modelList && !pre[0].header && n == 1 + Extent(pre[1..])
    requires tail == [] || Boundary(tail[0]) || n < |pre|
    ensures Reference(pre, true, lengths) == ProcessBlock(pre[..n], lengths) + Reference(pre[n..], true, lengths)
    ensures Reference(pre + tail, true, lengths)
         == ProcessBlock(pre[..n], lengths) + Reference(pre[n..] + tail, true, lengths)
  {
    ExtentBefore(pre[1..], tail);
    SlicesOfPart(pre, tail, n);
    hide Reference, ProcessBlock, Extent;
    ReferenceOfEntry(pre, lengths);
    ReferenceOfEntry(pre + tail, lengths);
  }

  /** The reference works in parts: a file may be cut before a boundary, and anywhere outside a list. */
  lemma {:induction false} ReferenceParts(pre: seq<Line>, tail: seq<Line>, inList: bool, lengths: Lengths)
    requires tail == [] || Boundary(tail[0]) || !ListAfter(pre, inList)
    ensures Reference(pre + tail, inList, lengths)
         == Reference(pre, inList, lengths) + Reference(tail, ListAfter(pre, inList), lengths)
    decreases |pre|
  {
    if pre == [] {
      assert pre + tail == tail;
      assert [] + Reference(tail, inList, lengths) == Reference(tail, inList, lengths);
    } else if pre[0].modelList || !inList || pre[0].header {
      var l, rest := pre[0], pre[1..];
      assert [l] + rest == pre && [l] + (rest + tail) == pre + tail;
      ReferenceOfPlain(l, rest, inList, lengths);
      ReferenceOfPlain(l, rest + tail, inList, lengths);
      hide Reference, ListAfter;
      ReferenceParts(rest, tail, l.modelList, lengths);
      Regroup([l], Reference(rest, l.modelList, lengths), Reference(tail, ListAfter(rest, l.modelList), lengths));
    } else {
      var n := 1 + Extent(pre[1..]);
      BlockOfPart(pre, n);
      ReferenceOfPart(pre, tail, n, lengths);
      hide Reference, ListAfter, ProcessBlock, Extent;
      ReferenceParts(pre[n..], tail, true, lengths);
      Regroup(ProcessBlock(pre[..n], lengths), Reference(pre[n..], true, lengths),
              Reference(tail, ListAfter(pre[n..], true), lengths));
    }
  }

  lemma ReferenceOfEntire(block: seq<Line>, post: seq<Line>, lengths: Lengths)
    requires Entire(block, post)
    ensures Reference(block + post, true, lengths) == ProcessBlock(block, lengths) + Reference(post, true, lengths)
  {
    ReferenceOfClosedBlock(block, post, lengths);
  }

  /** In a file in which nothing is overtaken, every entry of the list is put out in its place, processed by
      the first service that it names. */
  lemma RenderPlaces(pre: seq<Line>, block: seq<Line>, post: seq<Line>, lengths: Lengths)
    returns (middle: seq<Line>)
    requires !Overtakes(pre + (block + post), false, []) && ListAfter(pre, false) && Entire(block, post)
    ensures Processed(block, lengths, middle)
    ensures Render(pre + (block + post), lengths)
         == Reference(pre, false, lengths) + (middle + Reference(post, true, lengths))
  {
    middle := ProcessBlock(block, lengths);
    ProcessBlockMeans(block, lengths);
    RenderIsReferenceIff(pre + (block + post), lengths);
    assert (block + post)[0] == block[0];
    hide Processed, ProcessBlock, Reference, Render, Overtakes;
    ReferenceParts(pre, block + post, false, lengths);
    ReferenceOfEntire(block, post, lengths);
  }

  /** And every line outside the list, every model_list line and every section header is put out as it is. */
  lemma RenderLeaves(pre: seq<Line>, l: Line, post: seq<Line>, lengths: Lengths)
    requires !Overtakes(pre + ([l] + post), false, [])
    requires l.modelList || l.header || !ListAfter(pre, false)
    ensures Render(pre + ([l] + post), lengths)
         == Reference(pre, false, lengths) + ([l] + Reference(post, l.modelList, lengths))
  {
    RenderIsReferenceIff(pre + ([l] + post), lengths);
    assert ([l] + post)[0] == l && ([l] + post)[1..] == post;
    ReferenceParts(pre, [l] + post, false, lengths);
    hide Render, Overtakes;
  }

  lemma {:induction false} LinesOutNotLonger(block: seq<Line>, length: Option<int>)
    ensures |LinesOut(block, length)| <= |block|
  {
    if block != [] {
      LinesOutNotLonger(block[1..], length);
    }
  }

  lemma {:induction false} ReferenceNotLonger(ls: seq<Line>, inList: bool, lengths: Lengths)
    ensures |Reference(ls, inList, lengths)| <= |ls|
    decreases |ls|
  {
    if ls != [] {
      if ls[0].modelList || !inList || ls[0].header {
        ReferenceNotLonger(ls[1..], ls[0].modelList, lengths);
      } else {
        var n := 1 + Extent(ls[1..]);
        ReferenceNotLonger(ls[n..], true, lengths);
        LinesOutNotLonger(ls[..n], LengthOf(ls[..n], lengths));
      }
    }
  }

  lemma PartsEqual(a: seq<Line>, b: seq<Line>, c: seq<Line>, a': seq<Line>, b': seq<Line>, c': seq<Line>)
    requires a + (b + c) == a' + (b' + c') && |a| == |a'| && |b| == |b'|
    ensures b == b'
  {
    var all := a + (b + c);
    assert b == all[|a|..|a| + |b|] == b';
  }

  /** In every rendered file every entry of the list is as processing by its own service leaves it: it has
      no weight line, and if the first service that it names has a known length, all its token limits are
      that length. */
  lemma RenderedEntries(ls: seq<Line>, lengths: Lengths, pre: seq<Line>, block: seq<Line>, post: seq<Line>)
    requires Render(ls, lengths) == pre + (block + post) && ListAfter(pre, false) && Entire(block, post)
    ensures Processed(block, lengths, block)
  {
    RenderedIsSettled(ls, false, [], lengths);
    ProcessBlockMeans(block, lengths);
    LinesOutNotLonger(block, LengthOf(block, lengths));
    ReferenceNotLonger(pre, false, lengths);
    ReferenceNotLonger(post, true, lengths);
    assert (block + post)[0] == block[0];
    var middle := ProcessBlock(block, lengths);
    hide Processed, ProcessBlock, Reference, RenderFrom;
    ReferenceParts(pre, block + post, false, lengths);
    ReferenceOfEntire(block, post, lengths);
    PartsEqual(pre, block, post, Reference(pre, false, lengths), middle, Reference(post, true, lengths));
  }

  // ----- rendering again and again

  function Repeated(ls: seq<Line>, lengths: Lengths, n: nat): seq<Line> {
    if n == 0 then ls else Render(Repeated(ls, lengths, n - 1), lengths)
  }

  lemma {:induction false} RepeatedLifts(ls: seq<Line>, lengths: Lengths, n: nat)
    ensures DepthOf(Repeated(ls, lengths, n)) == if DepthOf(ls) >= n then DepthOf(ls) - n else 0
  {
    if n > 0 {
      hide Render, DepthOf;
      RepeatedLifts(ls, lengths, n - 1);
      RenderLiftsFile(Repeated(ls, lengths, n - 1), lengths);
    }
  }

  /** After n renderings, and at least one, another changes nothing exactly when no model_list line of the
      file stands below more than n blocks. */
  lemma RenderingSettlesIff(ls: seq<Line>, lengths: Lengths, n: nat)
    requires n > 0
    ensures Render(Repeated(ls, lengths, n), lengths) == Repeated(ls, lengths, n) <==> DepthOf(ls) <= n
  {
    hide Render, DepthOf;
    RenderTwiceIff(Repeated(ls, lengths, n - 1), lengths);
    RenderLiftsFile(Repeated(ls, lengths, n), lengths);
    RepeatedLifts(ls, lengths, n);
  }

  function Entries(ls: seq<Line>): nat {
    if ls == [] then 0 else One(ls[0].entry) + Entries(ls[1..])
  }

  lemma {:induction false} DepthIsBounded(ls: seq<Line>, inList: bool, pending: bool, out: nat)
    ensures Depth(ls, inList, pending, out) <= out + 1 + Entries(ls)
    decreases |ls|
  {
    if ls != [] {
      var l, rest := ls[0], ls[1..];
      if l.modelList {
        DepthIsBounded(rest, true, pending, out);
      } else if !inList {
        DepthIsBounded(rest, false, pending, out);
      } else if l.header {
        DepthIsBounded(rest, false, false, 0);
      } else if l.entry {
        DepthIsBounded(rest, true, true, out + One(pending));
      } else {
        DepthIsBounded(rest, true, pending || !l.weight, out);
      }
    }
  }

  /** So repeated rendering settles on every file, after at most one rendering more than it has entries. */
  lemma RenderingSettles(ls: seq<Line>, lengths: Lengths)
    ensures Render(Repeated(ls, lengths, Entries(ls) + 1), lengths) == Repeated(ls, lengths, Entries(ls) + 1)
  {
    hide Render, Repeated, Entries, Depth;
    DepthIsBounded(ls, false, false, 0);
    RenderingSettlesIff(ls, lengths, Entries(ls) + 1);
  }

  /** A second model_list line after two entries moves up by one entry with every rendering. */
  lemma NestedListMovesUp(list: Line, a: Line, b: Line, lengths: Lengths)
    requires list.modelList && Entry(a) && Entry(b)
    ensures Render([list, a, b, list], lengths) == [list, a, list, b]
    ensures Render(Render([list, a, b, list], lengths), lengths) == [list, list, a, b]
  {
    Blocks(a, lengths);
    Blocks(b, lengths);
    hide ProcessBlock;
    Passes([a, b, list], list, false, [], lengths);
    Starts([b, list], a, [], lengths);
    Starts([list], b, [a], lengths);
    Passes([], list, true, [b], lengths);
    var once := [list, a, list, b];
    assert Render([list, a, b, list], lengths) == once;
    Passes([a, list, b], list, false, [], lengths);
    Starts([list, b], a, [], lengths);
    Passes([b], list, true, [a], lengths);
    Starts([], b, [a], lengths);
  }

  /** An entry line with nothing in it to change. */
  predicate Entry(l: Line) {
    l.entry && !l.modelList && !l.header && !l.weight && l.tokens.None?
  }

  lemma Blocks(l: Line, lengths: Lengths)
    requires Entry(l)
    ensures ProcessBlock([l], lengths) == [l] && ProcessBlock([], lengths) == []
  {
    var length := LengthOf([l], lengths);
    assert [l][1..] == [];
    assert LinesOut([l], length) == [l] + LinesOut([], length);
  }

  lemma Passes(rest: seq<Line>, list: Line, inList: bool, block: seq<Line>, lengths: Lengths)
    requires list.modelList
    ensures RenderFrom([list] + rest, inList, block, lengths) == [list] + RenderFrom(rest, true, block, lengths)
  {
    assert ([list] + rest)[1..] == rest;
  }

  lemma Starts(rest: seq<Line>, l: Line, block: seq<Line>, lengths: Lengths)
    requires Entry(l)
    ensures RenderFrom([l] + rest, true, block, lengths)
         == ProcessBlock(block, lengths) + RenderFrom(rest, true, [l], lengths)
  {
    assert ([l] + rest)[1..] == rest;
  }
}
