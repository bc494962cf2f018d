/** `extractScenarioSource` of e2e/src/scenario.ts, after its imports are stripped and before
    its newlines are collapsed: find every `scenario(...)` block, drop those of other scenarios. */
module ScenarioSource {
  import opened Options
  import opened Texts
  import opened TextEdits

  const NEEDLE := "scenario("
  const OPEN := |NEEDLE| - 1

  datatype Block = Block(start: nat, end: nat, mine: bool)

  /** Opening minus closing parentheses of source[from..to]. */
  function Depth(source: string, from: nat, to: nat): int
    requires from <= to <= |source|
  {
    if from == to then 0
    else
      Depth(source, from, to - 1) + (if source[to - 1] == '(' then 1 else if source[to - 1] == ')' then -1 else 0)
  }

  /** The parenthesis at `open` is first balanced by the one at `close`. */
  predicate Closes(source: string, open: nat, close: nat) {
    && open <= close < |source| && source[close] == ')' && Depth(source, open, close + 1) == 0
    && forall m :: open < m <= close ==> Depth(source, open, m) > 0
  }

  function EndAfter(source: string, close: nat): nat {
    if close + 1 < |source| && source[close + 1] == ';' then close + 2 else close + 1
  }

  function Quoted(name: string): string { "\"" + name + "\"" }

  /** A block runs from the needle to the parenthesis that first balances its own, and takes a
      semicolon right behind it; it is mine when it quotes the name. */
  ghost predicate IsBlock(source: string, name: string, b: Block) {
    && OccursAt(source, NEEDLE, b.start)
    && (exists close :: Closes(source, b.start + OPEN, close) && b.end == EndAfter(source, close))
    && b.end <= |source|
    && b.mine == Includes(source[b.start..b.end], Quoted(name))
  }

  predicate Ordered(blocks: seq<Block>, lo: nat, hi: nat) {
    if blocks == [] then lo <= hi
    else lo <= blocks[0].start < blocks[0].end && Ordered(blocks[1..], blocks[0].end, hi)
  }

  predicate Covers(b: Block, k: int) { b.start <= k && k + |NEEDLE| <= b.end }

  /** The blocks of a source from a position on: ordered and disjoint, each a block, and every
      occurrence of the needle wholly inside one of them. */
  ghost predicate IsScan(source: string, name: string, lo: nat, hi: nat, blocks: seq<Block>) {
    && Ordered(blocks, lo, hi)
    && (forall b :: b in blocks ==> IsBlock(source, name, b))
    && forall k :: lo <= k < hi && OccursAt(source, NEEDLE, k) ==> exists b :: b in blocks && Covers(b, k)
  }

  ghost predicate NeverCloses(source: string, open: nat) {
    forall close :: !Closes(source, open, close)
  }

  ghost predicate Unbalanced(source: string, k: nat) {
    OccursAt(source, NEEDLE, k) && NeverCloses(source, k + OPEN)
  }

  // ----- where a block ends, in characters

  /** Opening minus closing parentheses. */
  function Excess(s: string): int { multiset(s)['('] as int - multiset(s)[')'] as int }

  lemma {:induction false} DepthIsExcess(source: string, open: nat, m: nat)
    requires open <= m <= |source|
    ensures Depth(source, open, m) == Excess(source[open..m])
    decreases m
  {
    if open < m {
      DepthIsExcess(source, open, m - 1);
      assert source[open..m] == source[open..m - 1] + [source[m - 1]];
    }
  }

  /** The text from `open` to `close` is the shortest in which as many parentheses close as open. */
  predicate ShortestBalanced(source: string, open: nat, close: nat) {
    && open <= close < |source| && source[close] == ')' && Excess(source[open..close + 1]) == 0
    && forall m :: open < m <= close ==> Excess(source[open..m]) > 0
  }

  /** What a block is, in characters: from `scenario(` to the parenthesis that balances its own,
      with the semicolon right behind it if there is one; mine when it holds the quoted name. */
  ghost predicate ReadsAsBlock(source: string, name: string, b: Block) {
    && OccursAt(source, "scenario(", b.start) && b.start <= b.end <= |source|
    && (b.mine <==> Includes(source[b.start..b.end], "\"" + name + "\""))
    && exists close :: ShortestBalanced(source, b.start + 8, close) && EndsBehind(source, close, b.end)
  }

  /** The end behind a closing parenthesis: past a semicolon that follows, never in front of one. */
  predicate EndsBehind(source: string, close: nat, end: nat) {
    if close + 1 < |source| && source[close + 1] == ';' then end == close + 2 else end == close + 1
  }

  lemma {:induction false} BlocksReadAsBlocks(source: string, name: string, b: Block)
    ensures IsBlock(source, name, b) <==> ReadsAsBlock(source, name, b)
  {
    forall open: nat, close: nat
      ensures Closes(source, open, close) <==> ShortestBalanced(source, open, close)
    {
      forall m: nat | open <= m <= |source|
        ensures Depth(source, open, m) == Excess(source[open..m])
      {
        DepthIsExcess(source, open, m);
      }
    }
    hide Closes, ShortestBalanced, OccursAt, Includes;
    assert OPEN == 8;
    if IsBlock(source, name, b) {
      var close: nat :| Closes(source, b.start + OPEN, close) && b.end == EndAfter(source, close);
      assert ShortestBalanced(source, b.start + 8, close) && EndsBehind(source, close, b.end);
    }
    if ReadsAsBlock(source, name, b) {
      var close: nat :| ShortestBalanced(source, b.start + 8, close) && EndsBehind(source, close, b.end);
      assert Closes(source, b.start + OPEN, close) && b.end == EndAfter(source, close);
    }
  }

  lemma {:induction false} OrderedBounds(blocks: seq<Block>, lo: nat, hi: nat)
    requires Ordered(blocks, lo, hi)
    ensures lo <= hi && forall b :: b in blocks ==> lo <= b.start < b.end <= hi
    decreases blocks
  {
    if blocks != [] {
      OrderedBounds(blocks[1..], blocks[0].end, hi);
    }
  }

  lemma {:induction false} OrderedAppend(blocks: seq<Block>, lo: nat, mid: nat, b: Block)
    requires Ordered(blocks, lo, mid) && mid <= b.start < b.end
    ensures Ordered(blocks + [b], lo, b.end)
    decreases blocks
  {
    OrderedBounds(blocks, lo, mid);
    if blocks != [] {
      OrderedAppend(blocks[1..], blocks[0].end, mid, b);
      assert (blocks + [b])[1..] == blocks[1..] + [b];
    }
  }

  /** An occurrence that starts inside a block ends inside it: a block ends in a character the
      needle does not hold. */
  lemma OccurrenceStaysInBlock(source: string, name: string, b: Block, k: int)
    requires IsBlock(source, name, b) && OccursAt(source, NEEDLE, k) && b.start <= k < b.end
    ensures Covers(b, k)
  {
  }

  lemma {:induction false} ScanExtends(source: string, name: string, hi: nat, blocks: seq<Block>, b: Block)
    requires IsScan(source, name, 0, hi, blocks) && IsBlock(source, name, b) && hi <= b.start < b.end
    requires forall k :: hi <= k < b.start ==> !OccursAt(source, NEEDLE, k)
    ensures IsScan(source, name, 0, b.end, blocks + [b])
  {
    OrderedAppend(blocks, 0, hi, b);
    forall k | 0 <= k < b.end && OccursAt(source, NEEDLE, k)
      ensures exists c :: c in blocks + [b] && Covers(c, k)
    {
      if k < hi {
        var c :| c in blocks && Covers(c, k);
        assert c in blocks + [b];
      } else {
        OccurrenceStaysInBlock(source, name, b, k);
        assert b in blocks + [b];
      }
    }
  }

  /** Walks the parentheses from `open` to the one that balances it. */
  method FindClose(source: string, open: nat) returns (close: Option<nat>)
    requires open < |source| && source[open] == '('
    ensures close.Some? ==> Closes(source, open, close.value)
    ensures close.None? ==> NeverCloses(source, open)
  {
    var depth := 0;
    for i := open to |source|
      invariant depth == Depth(source, open, i)
      invariant forall m :: open < m <= i ==> Depth(source, open, m) > 0
      invariant i > open ==> depth > 0
    {
      if source[i] == '(' {
        depth := depth + 1;
      } else if source[i] == ')' {
        depth := depth - 1;
        if depth == 0 { return Some(i); }
      }
    }
    close := None;
  }

  /** Scans the whole source: terminates with its blocks, or bails out at the first needle
      outside earlier blocks whose parenthesis never closes. */
  method ScanBlocks(source: string, name: string) returns (r: Option<seq<Block>>)
    ensures r.Some? ==> IsScan(source, name, 0, |source|, r.value)
    ensures r.Some? ==> forall b :: b in r.value ==> ReadsAsBlock(source, name, b)
    ensures r.None? ==> exists blocks, k: nat :: IsScan(source, name, 0, k, blocks) && Unbalanced(source, k)
  {
    var blocks := [];
    var index := 0;
    while true
      invariant index <= |source|
      invariant IsScan(source, name, 0, index, blocks)
      decreases |source| - index
    {
      var at := IndexOf(source, NEEDLE, index);
      if at == -1 {
        FinalGap(source, name, index, blocks);
        forall b | b in blocks
          ensures ReadsAsBlock(source, name, b)
        {
          BlocksReadAsBlocks(source, name, b);
        }
        return Some(blocks);
      }
      assert source[at..at + |NEEDLE|][OPEN] == '(';
      var close := FindClose(source, at + OPEN);
      if close.None? {
        assert IsScan(source, name, 0, at, blocks) by { GapExtends(source, name, index, at, blocks); }
        assert Unbalanced(source, at);
        return None;
      }
      var end := EndAfter(source, close.value);
      var found := IndexOf(source[at..end], Quoted(name), 0);
      var b := Block(at, end, found != -1);
      assert IsBlock(source, name, b);
      ScanExtends(source, name, index, blocks, b);
      blocks, index := blocks + [b], end;
    }
  }

  lemma {:induction false} OrderedWiden(blocks: seq<Block>, lo: nat, hi: nat, more: nat)
    requires Ordered(blocks, lo, hi) && hi <= more
    ensures Ordered(blocks, lo, more)
    decreases blocks
  {
    if blocks != [] {
      OrderedWiden(blocks[1..], blocks[0].end, hi, more);
    }
  }

  lemma {:induction false} GapExtends(source: string, name: string, hi: nat, more: nat, blocks: seq<Block>)
    requires IsScan(source, name, 0, hi, blocks) && hi <= more
    requires forall k :: hi <= k < more ==> !OccursAt(source, NEEDLE, k)
    ensures IsScan(source, name, 0, more, blocks)
  {
    OrderedWiden(blocks, 0, hi, more);
  }

  lemma {:induction false} FinalGap(source: string, name: string, hi: nat, blocks: seq<Block>)
    requires IsScan(source, name, 0, hi, blocks) && hi <= |source|
    requires forall k :: hi <= k ==> !OccursAt(source, NEEDLE, k)
    ensures IsScan(source, name, 0, |source|, blocks)
  {
    GapExtends(source, name, hi, |source|, blocks);
  }

  // ----- the scan is determined by what it promises

  lemma BlockIsDetermined(source: string, name: string, a: Block, b: Block)
    requires IsBlock(source, name, a) && IsBlock(source, name, b) && a.start == b.start
    ensures a == b
  {
  }

  /** No occurrence lies in front of the first block. */
  lemma {:induction false} FirstBlockIsFirst(source: string, name: string, lo: nat, hi: nat, blocks: seq<Block>, k: nat)
    requires IsScan(source, name, lo, hi, blocks) && lo <= k < hi && OccursAt(source, NEEDLE, k)
    ensures blocks != [] && blocks[0].start <= k && IsBlock(source, name, blocks[0])
    ensures lo <= blocks[0].start < blocks[0].end <= hi && OccursAt(source, NEEDLE, blocks[0].start)
  {
    OrderedBounds(blocks, lo, hi);
    var c :| c in blocks && Covers(c, k);
    assert blocks[0] in blocks;
    if c != blocks[0] {
      OrderedBounds(blocks[1..], blocks[0].end, hi);
      assert c in blocks[1..];
    }
  }

  lemma ScanTail(source: string, name: string, lo: nat, hi: nat, blocks: seq<Block>)
    requires IsScan(source, name, lo, hi, blocks) && blocks != []
    ensures IsScan(source, name, blocks[0].end, hi, blocks[1..])
  {
  }

  /** A source has at most one list of blocks: the promises leave the scanner no choice. */
  lemma {:induction false} ScanIsUnique(source: string, name: string, lo: nat, hi: nat, a: seq<Block>, b: seq<Block>)
    requires IsScan(source, name, lo, hi, a) && IsScan(source, name, lo, hi, b)
    ensures a == b
    decreases a
  {
    OrderedBounds(a, lo, hi);
    OrderedBounds(b, lo, hi);
    if a != [] {
      assert a[0] in a;
      FirstBlockIsFirst(source, name, lo, hi, b, a[0].start);
      FirstBlockIsFirst(source, name, lo, hi, a, b[0].start);
      BlockIsDetermined(source, name, a[0], b[0]);
      ScanTail(source, name, lo, hi, a);
      ScanTail(source, name, lo, hi, b);
      ScanIsUnique(source, name, a[0].end, hi, a[1..], b[1..]);
    }
  }

  lemma BlockIsBalanced(source: string, name: string, b: Block)
    requires IsBlock(source, name, b)
    ensures !Unbalanced(source, b.start)
  {
  }

  lemma {:induction false} NeedleOfUnbalanced(source: string, k: nat)
    requires Unbalanced(source, k)
    ensures OccursAt(source, NEEDLE, k) && k < |source|
  {
    assert |NEEDLE| > 0;
  }

  /** The first block of a scan that starts before k is the first block of a scan up to k. */
  lemma {:induction false} SameFirstBlock(source: string, name: string, lo: nat, k: nat, part: seq<Block>,
                                          blocks: seq<Block>)
    requires IsScan(source, name, lo, k, part) && IsScan(source, name, lo, |source|, blocks) && k <= |source|
    requires blocks != [] && lo <= blocks[0].start < k && IsBlock(source, name, blocks[0])
    ensures part != [] && part[0] == blocks[0]
  {
    hide IsScan, OccursAt, Closes, Ordered;
    FirstBlockIsFirst(source, name, lo, k, part, blocks[0].start);
    FirstBlockIsFirst(source, name, lo, |source|, blocks, part[0].start);
    BlockIsDetermined(source, name, part[0], blocks[0]);
  }

  /** Where a partial scan meets a needle that never closes, the source has no scan at all. */
  lemma {:induction false} BailMeansNoScan(source: string, name: string, lo: nat, k: nat, part: seq<Block>,
                                           blocks: seq<Block>)
    requires IsScan(source, name, lo, k, part) && Unbalanced(source, k)
    ensures !IsScan(source, name, lo, |source|, blocks)
    decreases part
  {
    OrderedBounds(part, lo, k);
    NeedleOfUnbalanced(source, k);
    hide IsScan, OccursAt, Ordered, IsBlock, Unbalanced;
    if IsScan(source, name, lo, |source|, blocks) {
      FirstBlockIsFirst(source, name, lo, |source|, blocks, k);
      BlockIsBalanced(source, name, blocks[0]);
      SameFirstBlock(source, name, lo, k, part, blocks);
      ScanTail(source, name, lo, k, part);
      ScanTail(source, name, lo, |source|, blocks);
      BailMeansNoScan(source, name, blocks[0].end, k, part[1..], blocks[1..]);
    }
  }

  // ----- dropping the others

  /** The gaps and the blocks of mine, in order. */
  function Kept(source: string, from: nat, blocks: seq<Block>): string
    requires from <= |source| && Ordered(blocks, from, |source|)
    decreases blocks
  {
    if blocks == [] then source[from..]
    else
      OrderedBounds(blocks, from, |source|);
      var b := blocks[0];
      source[from..b.start] + (if b.mine then source[b.start..b.end] else "") + Kept(source, b.end, blocks[1..])
  }

  function Removals(blocks: seq<Block>): seq<Edit> {
    if blocks == [] then []
    else (if blocks[0].mine then [] else [Edit(blocks[0].start, blocks[0].end, "")]) + Removals(blocks[1..])
  }

  lemma {:induction false} RemovalsAscend(blocks: seq<Block>, lo: nat, hi: nat)
    requires Ordered(blocks, lo, hi)
    ensures Ascending(Removals(blocks), lo, hi)
    decreases blocks
  {
    OrderedBounds(blocks, lo, hi);
    if blocks != [] {
      RemovalsAscend(blocks[1..], blocks[0].end, hi);
      AscendingBounds(Removals(blocks[1..]), blocks[0].end, hi);
      if !blocks[0].mine {
        assert Removals(blocks)[1..] == Removals(blocks[1..]);
      } else {
        assert Removals(blocks) == Removals(blocks[1..]);
      }
    }
  }

  lemma {:induction false} RemovalsKeep(source: string, from: nat, blocks: seq<Block>)
    requires from <= |source| && Ordered(blocks, from, |source|)
    ensures Ascending(Removals(blocks), from, |source|)
    ensures Substitute(source, from, Removals(blocks)) == Kept(source, from, blocks)
    decreases blocks
  {
    RemovalsAscend(blocks, from, |source|);
    if blocks != [] {
      OrderedBounds(blocks, from, |source|);
      var b := blocks[0];
      RemovalsKeep(source, b.end, blocks[1..]);
      if b.mine {
        assert Removals(blocks) == Removals(blocks[1..]);
        SubstituteSkips(source, from, b.end, Removals(blocks[1..]));
        assert source[from..b.end] == source[from..b.start] + source[b.start..b.end];
      } else {
        assert Removals(blocks)[1..] == Removals(blocks[1..]);
        SubstituteStep(source, from, Removals(blocks));
      }
    }
  }

  lemma {:induction false} CutIsSplice(out: string, start: nat, end: nat, rest: seq<Edit>)
    ensures SpliceAll(out, [Edit(start, end, "")] + rest) == SpliceAll(SliceTo(out, start) + SliceFrom(out, end), rest)
  {
    var e := Edit(start, end, "");
    assert ([e] + rest)[1..] == rest;
    assert Splice(out, e) == SliceTo(out, start) + SliceFrom(out, end);
  }

  /** Cutting the other blocks out from the right leaves exactly the gaps and my blocks. */
  method DropOthers(source: string, blocks: seq<Block>) returns (out: string)
    requires Ordered(blocks, 0, |source|)
    ensures out == Kept(source, 0, blocks)
  {
    out := source;
    RemovalsKeep(source, 0, blocks);
    SpliceFromRightIsSubstitute(source, Removals(blocks));
    ghost var whole := SpliceAll(source, Reversed(Removals(blocks)));
    var i := |blocks|;
    assert blocks[..i] == blocks;
    while i > 0
      invariant 0 <= i <= |blocks|
      invariant whole == SpliceAll(out, Reversed(Removals(blocks[..i])))
    {
      hide SpliceAll, Reversed, Removals, Kept, Substitute, Ordered, Ascending;
      i := i - 1;
      RemovalsOfLast(blocks[..i + 1]);
      assert blocks[..i + 1][..i] == blocks[..i];
      ghost var rest := Reversed(Removals(blocks[..i]));
      assert [] + rest == rest;
      if !blocks[i].mine {
        CutIsSplice(out, blocks[i].start, blocks[i].end, rest);
        out := SliceTo(out, blocks[i].start) + SliceFrom(out, blocks[i].end);
      }
    }
  }

  lemma {:induction false} RemovalsOfLast(blocks: seq<Block>)
    requires blocks != []
    ensures var n := |blocks| - 1;
      Reversed(Removals(blocks)) ==
        (if blocks[n].mine then [] else [Edit(blocks[n].start, blocks[n].end, "")]) + Reversed(Removals(blocks[..n]))
    decreases blocks
  {
    var n := |blocks| - 1;
    RemovalsJoin(blocks[..n], blocks[n]);
    assert blocks == blocks[..n] + [blocks[n]];
    var r := Removals(blocks[..n]);
    if !blocks[n].mine {
      assert (r + [Edit(blocks[n].start, blocks[n].end, "")])[..|r|] == r;
    } else {
      assert r + [] == r;
    }
  }

  lemma {:induction false} RemovalsJoin(blocks: seq<Block>, b: Block)
    ensures Removals(blocks + [b]) == Removals(blocks) + (if b.mine then [] else [Edit(b.start, b.end, "")])
    decreases blocks
  {
    if blocks == [] {
      assert blocks + [b] == [b];
    } else {
      RemovalsJoin(blocks[1..], b);
      assert (blocks + [b])[1..] == blocks[1..] + [b];
    }
  }

  /** The whole extraction: a text exactly when the source scans and some block is mine, and then
      the source with exactly the other scenarios' blocks gone. */
  method Extract(source: string, name: string) returns (r: Option<string>)
    ensures r.Some?
            <==> exists blocks :: IsScan(source, name, 0, |source|, blocks) && exists b: Block :: b in blocks && b.mine
    ensures r.Some? ==> forall blocks :: IsScan(source, name, 0, |source|, blocks) ==>
            r.value == Kept(source, 0, blocks)
  {
    var scanned := ScanBlocks(source, name);
    if scanned.None? {
      ghost var part, k: nat :| IsScan(source, name, 0, k, part) && Unbalanced(source, k);
      forall blocks {
        BailMeansNoScan(source, name, 0, k, part, blocks);
      }
      return None;
    }
    var blocks := scanned.value;
    forall other | IsScan(source, name, 0, |source|, other)
      ensures other == blocks
    {
      ScanIsUnique(source, name, 0, |source|, other, blocks);
    }
    if forall b :: b in blocks ==> !b.mine { return None; }
    var out := DropOthers(source, blocks);
    r := Some(out);
  }
}
