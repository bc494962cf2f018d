/** `applyEdits` of scripts/migrate-schema-class.ts: edits spliced in from the right, against
    the simultaneous substitution they stand for. */
module TextEdits {

  datatype Edit = Edit(start: nat, end: nat, replacement: string)

  // ----- the code's splice

  /** JavaScript's `slice(0, n)` and `slice(n)`, which clamp to the text. */
  function SliceTo(text: string, n: nat): string { if n < |text| then text[..n] else text }
  function SliceFrom(text: string, n: nat): string { if n < |text| then text[n..] else "" }

  function Splice(text: string, e: Edit): string {
    SliceTo(text, e.start) + e.replacement + SliceFrom(text, e.end)
  }

  function SpliceAll(text: string, edits: seq<Edit>): string
    decreases edits
  {
    if edits == [] then text else SpliceAll(Splice(text, edits[0]), edits[1..])
  }

  /** A stable sort by descending start: equal starts keep their order. */
  function Insert(e: Edit, sorted: seq<Edit>): (r: seq<Edit>)
    ensures multiset(r) == multiset(sorted) + multiset{e}
  {
    if sorted == [] || sorted[0].start < e.start then
      [e] + sorted
    else
      assert sorted == [sorted[0]] + sorted[1..];
      [sorted[0]] + Insert(e, sorted[1..])
  }

  function SortDescending(edits: seq<Edit>): (r: seq<Edit>)
    ensures multiset(r) == multiset(edits)
  {
    if edits == [] then []
    else
      var n := |edits| - 1;
      assert edits == edits[..n] + [edits[n]];
      Insert(edits[n], SortDescending(edits[..n]))
  }

  method ApplyEdits(text: string, edits: seq<Edit>) returns (out: string)
    ensures out == SpliceAll(text, SortDescending(edits))
  {
    var sorted := SortDescending(edits);
    out := text;
    for i := 0 to |sorted|
      invariant SpliceAll(text, sorted) == SpliceAll(out, sorted[i..])
    {
      out := Splice(out, sorted[i]);
      assert sorted[i..][1..] == sorted[i + 1..];
    }
  }

  // ----- simultaneous substitution

  predicate Disjoint(a: Edit, b: Edit) { a.end <= b.start || b.end <= a.start }

  predicate PairwiseDisjoint(edits: seq<Edit>) {
    forall i, j :: 0 <= i < j < |edits| ==> Disjoint(edits[i], edits[j])
  }

  predicate NonEmpty(edits: seq<Edit>) {
    forall e :: e in edits ==> e.start < e.end
  }

  /** In order from left to right within [lo, hi], none overlapping the next. */
  predicate Ascending(edits: seq<Edit>, lo: int, hi: int) {
    if edits == [] then lo <= hi
    else lo <= edits[0].start < edits[0].end && Ascending(edits[1..], edits[0].end, hi)
  }

  /** Left to right: the gaps verbatim, each span replaced. */
  function Substitute(text: string, from: nat, edits: seq<Edit>): string
    requires from <= |text| && Ascending(edits, from, |text|)
    decreases edits
  {
    if edits == [] then text[from..]
    else
      AscendingBounds(edits, from, |text|);
      text[from..edits[0].start] + edits[0].replacement + Substitute(text, edits[0].end, edits[1..])
  }

  lemma {:induction false} AscendingBounds(edits: seq<Edit>, lo: int, hi: int)
    requires Ascending(edits, lo, hi)
    ensures lo <= hi && NonEmpty(edits)
    ensures forall e :: e in edits ==> lo <= e.start < e.end <= hi
    ensures PairwiseDisjoint(edits)
    decreases edits
  {
    if edits != [] {
      AscendingBounds(edits[1..], edits[0].end, hi);
    }
  }

  function Growth(edits: seq<Edit>): int {
    if edits == [] then 0
    else |edits[0].replacement| - (edits[0].end - edits[0].start) + Growth(edits[1..])
  }

  lemma {:induction false} SubstituteLength(text: string, from: nat, edits: seq<Edit>)
    requires from <= |text| && Ascending(edits, from, |text|)
    ensures |Substitute(text, from, edits)| == |text| - from + Growth(edits)
    decreases edits
  {
    if edits != [] {
      AscendingBounds(edits, from, |text|);
      SubstituteLength(text, edits[0].end, edits[1..]);
    }
  }

  // ----- splicing is substitution

  lemma {:induction false} AscendingInit(edits: seq<Edit>, lo: int, hi: int)
    requires Ascending(edits, lo, hi) && edits != []
    ensures var n := |edits| - 1; lo <= edits[n].start < edits[n].end <= hi && Ascending(edits[..n], lo, edits[n].start)
    decreases edits
  {
    AscendingBounds(edits, lo, hi);
    if |edits| > 1 {
      AscendingInit(edits[1..], edits[0].end, hi);
      assert edits[1..][..|edits| - 2] == edits[..|edits| - 1][1..];
    }
  }

  lemma {:induction false} AscendingWiden(edits: seq<Edit>, lo: int, hi: int, more: int)
    requires Ascending(edits, lo, hi) && hi <= more
    ensures Ascending(edits, lo, more)
    decreases edits
  {
    if edits != [] {
      AscendingWiden(edits[1..], edits[0].end, hi, more);
    }
  }

  lemma AscendingFrom(a: seq<Edit>, lo: int, mid: int, hi: int)
    requires lo <= mid && Ascending(a, mid, hi)
    ensures Ascending(a, lo, hi)
  {
  }

  lemma {:induction false} SubstituteStep(text: string, from: nat, edits: seq<Edit>)
    requires from <= |text| && Ascending(edits, from, |text|) && edits != []
    ensures var e := edits[0];
      && from <= e.start < e.end <= |text| && Ascending(edits[1..], e.end, |text|)
      && Substitute(text, from, edits) == text[from..e.start] + e.replacement + Substitute(text, e.end, edits[1..])
  {
    AscendingBounds(edits, from, |text|);
  }

  lemma {:induction false} SubstituteOne(text: string, from: nat, e: Edit)
    requires from <= e.start < e.end <= |text|
    ensures from <= |Splice(text, e)| && Ascending([e], from, |text|) && Ascending([], from, |Splice(text, e)|)
    ensures Substitute(text, from, [e]) == Substitute(Splice(text, e), from, [])
  {
    SpliceKeepsFront(text, e, from);
    assert [e][1..] == [];
    assert Ascending([], e.end, |text|);
    SubstituteStep(text, from, [e]);
  }

  /** Taking the rightmost edit first does not disturb the others. */
  lemma {:induction false} SubstituteLastFirst(text: string, from: nat, edits: seq<Edit>)
    requires from <= |text| && Ascending(edits, from, |text|) && edits != []
    ensures var n := |edits| - 1; var spliced := Splice(text, edits[n]);
      && from <= |spliced| && Ascending(edits[..n], from, |spliced|)
      && Substitute(text, from, edits) == Substitute(spliced, from, edits[..n])
    decreases edits
  {
    hide Splice, Substitute, Ascending;
    var n := |edits| - 1;
    var last := edits[n];
    AscendingInit(edits, from, |text|);
    SpliceKeepsFront(text, last, from);
    var spliced := Splice(text, last);
    AscendingWiden(edits[..n], from, last.start, |spliced|);
    if n == 0 {
      SubstituteOne(text, from, last);
      assert edits == [last] && edits[..n] == [];
    } else {
      var e := edits[0];
      SubstituteStep(text, from, edits);
      SubstituteStep(spliced, from, edits[..n]);
      AscendingBounds(edits[..n], from, last.start);
      SpliceKeepsGap(text, last, from, e.start);
      SubstituteLastFirst(text, e.end, edits[1..]);
      assert edits[1..][..n - 1] == edits[..n][1..];
    }
  }

  lemma SpliceKeepsFront(text: string, e: Edit, from: nat)
    requires from <= e.start <= e.end <= |text|
    ensures e.start <= |Splice(text, e)|
    ensures Splice(text, e)[from..] == text[from..e.start] + e.replacement + text[e.end..]
  {
  }

  lemma SpliceKeepsGap(text: string, e: Edit, from: nat, to: nat)
    requires from <= to <= e.start <= e.end <= |text|
    ensures to <= |Splice(text, e)| && Splice(text, e)[from..to] == text[from..to]
  {
  }

  /** A gap in front of the first edit is copied. */
  lemma {:induction false} SubstituteSkips(text: string, from: nat, to: nat, edits: seq<Edit>)
    requires from <= to <= |text| && Ascending(edits, to, |text|)
    ensures Ascending(edits, from, |text|)
    ensures Substitute(text, from, edits) == text[from..to] + Substitute(text, to, edits)
  {
    if edits == [] {
      assert text[from..] == text[from..to] + text[to..];
    } else {
      AscendingFrom(edits, from, to, |text|);
      SubstituteStep(text, from, edits);
      SubstituteStep(text, to, edits);
      hide Ascending, Substitute;
      var e := edits[0];
      var tail := e.replacement + Substitute(text, e.end, edits[1..]);
      assert text[from..e.start] == text[from..to] + text[to..e.start];
      assert text[from..e.start] + tail == text[from..to] + (text[to..e.start] + tail);
    }
  }

  function Reversed(edits: seq<Edit>): seq<Edit> {
    if edits == [] then [] else [edits[|edits| - 1]] + Reversed(edits[..|edits| - 1])
  }

  /** Splicing in from the right is substituting from the left. */
  lemma {:induction false} SpliceFromRightIsSubstitute(text: string, edits: seq<Edit>)
    requires Ascending(edits, 0, |text|)
    ensures SpliceAll(text, Reversed(edits)) == Substitute(text, 0, edits)
    decreases edits
  {
    if edits != [] {
      var n := |edits| - 1;
      SubstituteLastFirst(text, 0, edits);
      SpliceFromRightIsSubstitute(Splice(text, edits[n]), edits[..n]);
      assert Reversed(edits)[1..] == Reversed(edits[..n]);
    }
  }

  // ----- the sort does not matter

  predicate Descending(edits: seq<Edit>) {
    forall i, j :: 0 <= i < j < |edits| ==> edits[i].start > edits[j].start
  }

  lemma {:induction false} InsertDescends(e: Edit, sorted: seq<Edit>)
    requires Descending(sorted) && forall x :: x in sorted ==> x.start != e.start
    ensures Descending(Insert(e, sorted))
    decreases sorted
  {
    if sorted != [] && sorted[0].start >= e.start {
      var tail := Insert(e, sorted[1..]);
      InsertDescends(e, sorted[1..]);
      forall x | x in tail
        ensures sorted[0].start > x.start
      {
        assert x in multiset(tail);
        assert x == e || x in sorted[1..];
      }
    }
  }

  predicate DistinctStarts(edits: seq<Edit>) {
    forall i, j :: 0 <= i < j < |edits| ==> edits[i].start != edits[j].start
  }

  lemma {:induction false} SortDescends(edits: seq<Edit>)
    requires DistinctStarts(edits)
    ensures Descending(SortDescending(edits))
    decreases edits
  {
    if edits != [] {
      var n := |edits| - 1;
      SortDescends(edits[..n]);
      forall x | x in SortDescending(edits[..n])
        ensures x.start != edits[n].start
      {
        assert x in multiset(SortDescending(edits[..n]));
        assert x in edits[..n];
      }
      InsertDescends(edits[n], SortDescending(edits[..n]));
    }
  }

  lemma {:induction false} BagWithoutFirst(a: seq<Edit>)
    requires a != []
    ensures multiset(a[1..]) == multiset(a) - multiset{a[0]}
  {
    assert a == [a[0]] + a[1..];
  }

  lemma {:induction false} SameFirst(a: seq<Edit>, b: seq<Edit>)
    requires Descending(a) && Descending(b) && multiset(a) == multiset(b) && a != [] && b != []
    ensures a[0] == b[0]
  {
    assert a[0] in multiset(b) && b[0] in multiset(a);
    var i :| 0 <= i < |b| && b[i] == a[0];
    var j :| 0 <= j < |a| && a[j] == b[0];
  }

  /** Strictly descending lists of the same edits are equal. */
  lemma {:induction false} DescendingIsUnique(a: seq<Edit>, b: seq<Edit>)
    requires Descending(a) && Descending(b) && multiset(a) == multiset(b)
    ensures a == b
    decreases a
  {
    assert |a| == |multiset(a)| == |multiset(b)| == |b|;
    if a != [] {
      SameFirst(a, b);
      BagWithoutFirst(a);
      BagWithoutFirst(b);
      DescendingIsUnique(a[1..], b[1..]);
      assert a == [a[0]] + a[1..] && b == [b[0]] + b[1..];
    }
  }

  lemma {:induction false} ReversedIsPermutation(edits: seq<Edit>)
    ensures multiset(Reversed(edits)) == multiset(edits)
    ensures Reversed(Reversed(edits)) == edits
    decreases edits
  {
    if edits != [] {
      var n := |edits| - 1;
      ReversedIsPermutation(edits[..n]);
      assert edits == edits[..n] + [edits[n]];
      ReversedOfFirst(edits[n], Reversed(edits[..n]));
    }
  }

  lemma {:induction false} ReversedOfFirst(e: Edit, rest: seq<Edit>)
    ensures Reversed([e] + rest) == Reversed(rest) + [e]
    decreases rest
  {
    if rest == [] {
      assert [e] + rest == [e];
    } else {
      var n := |rest| - 1;
      ReversedOfFirst(e, rest[..n]);
      assert ([e] + rest)[..n + 1] == [e] + rest[..n];
    }
  }

  lemma {:induction false} AscendingPrepend(e: Edit, rest: seq<Edit>, lo: int, hi: int)
    requires lo <= e.start < e.end && Ascending(rest, e.end, hi)
    ensures Ascending([e] + rest, lo, hi)
  {
    assert ([e] + rest)[1..] == rest;
  }

  /** The edits of a strictly descending, disjoint list ascend when read backwards. */
  lemma {:induction false} ReversedAscends(edits: seq<Edit>, lo: int, hi: int)
    requires Descending(edits) && PairwiseDisjoint(edits) && lo <= hi
    requires forall e :: e in edits ==> lo <= e.start < e.end <= hi
    ensures Ascending(Reversed(edits), lo, hi)
    decreases edits
  {
    if edits == [] {
      assert Ascending([], lo, hi);
    }
    hide Ascending;
    if edits != [] {
      var n := |edits| - 1;
      assert edits[n] in edits;
      forall e | e in edits[..n]
        ensures edits[n].end <= e.start
      {
        var i :| 0 <= i < n && edits[i] == e;
        assert Disjoint(edits[i], edits[n]);
      }
      ReversedAscends(edits[..n], edits[n].end, hi);
      AscendingPrepend(edits[n], Reversed(edits[..n]), lo, hi);
    }
  }

  lemma {:induction false} ReversedDescends(edits: seq<Edit>, lo: int, hi: int)
    requires Ascending(edits, lo, hi)
    ensures Descending(Reversed(edits)) && forall x :: x in Reversed(edits) ==> x in edits
    decreases edits
  {
    if edits != [] {
      var n := |edits| - 1;
      AscendingInit(edits, lo, hi);
      AscendingBounds(edits[..n], lo, edits[n].start);
      ReversedDescends(edits[..n], lo, edits[n].start);
    }
  }

  /** For lists of the same edits, one of them in text order: what `applyEdits` computes is the
      simultaneous substitution, and its length is the original plus what the edits add. */
  lemma {:induction false} ApplyIsSubstitute(text: string, edits: seq<Edit>, inOrder: seq<Edit>)
    requires Ascending(inOrder, 0, |text|) && multiset(edits) == multiset(inOrder)
    ensures SpliceAll(text, SortDescending(edits)) == Substitute(text, 0, inOrder)
    ensures |SpliceAll(text, SortDescending(edits))| == |text| + Growth(inOrder)
  {
    ReversedDescends(inOrder, 0, |text|);
    ReversedIsPermutation(inOrder);
    SortOfPermutation(edits, Reversed(inOrder));
    SpliceFromRightIsSubstitute(text, inOrder);
    SubstituteLength(text, 0, inOrder);
  }

  lemma {:induction false} SortOfPermutation(edits: seq<Edit>, sorted: seq<Edit>)
    requires Descending(sorted) && multiset(edits) == multiset(sorted)
    ensures SortDescending(edits) == sorted
  {
    forall i, j | 0 <= i < j < |edits|
      ensures edits[i].start != edits[j].start
    {
      if edits[i].start == edits[j].start {
        assert edits[i] in multiset(sorted) && edits[j] in multiset(sorted);
        assert edits[i] == edits[j];
        TwiceInSeq(edits, i, j);
        var k :| 0 <= k < |sorted| && sorted[k] == edits[i];
        OnceInDescending(sorted, k);
        assert false;
      }
    }
    SortDescends(edits);
    DescendingIsUnique(SortDescending(edits), sorted);
  }

  lemma {:induction false} TwiceInSeq(edits: seq<Edit>, i: nat, j: nat)
    requires i < j < |edits| && edits[i] == edits[j]
    ensures multiset(edits)[edits[i]] >= 2
  {
    assert edits == edits[..i] + [edits[i]] + edits[i + 1..j] + [edits[j]] + edits[j + 1..];
  }

  lemma {:induction false} OnceInDescending(sorted: seq<Edit>, k: nat)
    requires Descending(sorted) && k < |sorted|
    ensures multiset(sorted)[sorted[k]] == 1
  {
    assert sorted == sorted[..k] + [sorted[k]] + sorted[k + 1..];
    assert sorted[k] !in sorted[..k] && sorted[k] !in sorted[k + 1..];
  }

  function LeftToRight(edits: seq<Edit>): seq<Edit> { Reversed(SortDescending(edits)) }

  predicate InBounds(edits: seq<Edit>, hi: int) {
    forall e :: e in edits ==> e.start < e.end <= hi
  }

  /** For every text and every list, in any order, of non-empty, in-bounds, pairwise disjoint
      edits, right-to-left splicing is the simultaneous substitution of the same edits. */
  lemma {:induction false} SplicingDisjointEditsSubstitutes(text: string, edits: seq<Edit>)
    requires InBounds(edits, |text|) && PairwiseDisjoint(edits)
    ensures multiset(LeftToRight(edits)) == multiset(edits)
    ensures Ascending(LeftToRight(edits), 0, |text|)
    ensures SpliceAll(text, SortDescending(edits)) == Substitute(text, 0, LeftToRight(edits))
    ensures |SpliceAll(text, SortDescending(edits))| == |text| + Growth(LeftToRight(edits))
  {
    var sorted := SortDescending(edits);
    assert DistinctStarts(edits);
    SortDescends(edits);
    hide SortDescending, Reversed, Ascending, Substitute, SpliceAll, Growth;
    forall e | e in sorted
      ensures e in edits
    {
      assert e in multiset(sorted);
    }
    assert NonEmpty(edits);
    DisjointOfPermutation(sorted, edits);
    ReversedAscends(sorted, 0, |text|);
    ReversedIsPermutation(sorted);
    ApplyIsSubstitute(text, edits, LeftToRight(edits));
  }

  lemma {:induction false} SpliceAllJoin(text: string, a: seq<Edit>, b: seq<Edit>)
    ensures SpliceAll(text, a + b) == SpliceAll(SpliceAll(text, a), b)
    decreases a
  {
    hide Splice;
    if a == [] {
      assert a + b == b;
    } else {
      SpliceAllJoin(Splice(text, a[0]), a[1..], b);
      assert (a + b)[1..] == a[1..] + b;
    }
  }

  lemma {:induction false} ReversedJoin(a: seq<Edit>, b: seq<Edit>)
    ensures Reversed(a + b) == Reversed(b) + Reversed(a)
    decreases b
  {
    if b == [] {
      assert a + b == a;
    } else {
      var n := |b| - 1;
      ReversedJoin(a, b[..n]);
      assert |a + b| == |a| + n + 1 && (a + b)[|a| + n] == b[n] && (a + b)[..|a| + n] == a + b[..n];
      var front, back := Reversed(b[..n]), Reversed(a);
      assert Reversed(b) == [b[n]] + front;
      assert Reversed(a + b) == [b[n]] + (front + back);
    }
  }

  lemma {:induction false} SpliceThree(text: string, a: seq<Edit>, b: seq<Edit>, c: seq<Edit>)
    ensures SpliceAll(text, Reversed(a + b + c))
         == SpliceAll(SpliceAll(SpliceAll(text, Reversed(c)), Reversed(b)), Reversed(a))
  {
    hide SpliceAll, Reversed;
    ReversedJoin(a + b, c);
    ReversedJoin(a, b);
    SpliceAllJoin(text, Reversed(c), Reversed(b) + Reversed(a));
    SpliceAllJoin(SpliceAll(text, Reversed(c)), Reversed(b), Reversed(a));
  }

  /** Substitution leaves what is in front of the edits and what is behind them. */
  lemma {:induction false} SubstituteKeepsEnds(text: string, from: nat, edits: seq<Edit>, lo: nat, hi: nat)
    requires from <= lo <= hi <= |text| && Ascending(edits, lo, hi)
    ensures Ascending(edits, from, |text|)
    ensures var r := Substitute(text, from, edits);
      && lo - from <= |r| && r[..lo - from] == text[from..lo]
      && |text| - hi <= |r| && r[|r| - (|text| - hi)..] == text[hi..]
    decreases edits
  {
    AscendingWiden(edits, lo, hi, |text|);
    AscendingFrom(edits, from, lo, |text|);
    if edits == [] {
      assert text[from..][..lo - from] == text[from..lo];
      assert text[from..][hi - from..] == text[hi..];
    } else {
      var e := edits[0];
      AscendingBounds(edits, lo, hi);
      SubstituteKeepsEnds(text, e.end, edits[1..], e.end, hi);
      var r, tail := Substitute(text, from, edits), Substitute(text, e.end, edits[1..]);
      assert r == text[from..e.start] + e.replacement + tail;
      assert r[..lo - from] == text[from..e.start][..lo - from];
      var t := |text| - hi;
      assert r[|r| - t..] == tail[|tail| - t..];
    }
  }

  /** Edits nested in another one move its end by what they add. The outer edit then leaves as
      many characters behind, or eats as many from the text behind it; so the result is right
      exactly when they add nothing, or take away and nothing follows. */
  lemma {:induction false} NestedEditsMoveTheEnd(text: string, outer: Edit, inner: seq<Edit>, edits: seq<Edit>)
    requires outer.start < outer.end <= |text|
    requires Ascending(inner, outer.start + 1, outer.end) && multiset(edits) == multiset([outer] + inner)
    ensures Ascending(inner, 0, |text|)
    ensures var result, grown := SpliceAll(text, SortDescending(edits)), Growth(inner);
      && result == text[..outer.start] + outer.replacement + SliceFrom(Substitute(text, 0, inner), outer.end)
      && (result == text[..outer.start] + outer.replacement + text[outer.end..]
          <==> grown == 0 || (grown < 0 && outer.end == |text|))
  {
    hide Substitute, Reversed, SortDescending, Ascending, SpliceAll, Growth, Splice;
    SubstituteKeepsEnds(text, 0, inner, outer.start + 1, outer.end);
    SubstituteLength(text, 0, inner);
    SpliceFromRightIsSubstitute(text, inner);
    NestedSort(outer, inner, edits, outer.end);
    SpliceAllJoin(text, Reversed(inner), [outer]);
    SpliceOne(Substitute(text, 0, inner), outer);
    MovedEnd(text, outer, Substitute(text, 0, inner), Growth(inner));
  }

  lemma {:induction false} SpliceOne(text: string, e: Edit)
    ensures SpliceAll(text, [e]) == Splice(text, e)
  {
    assert [e][1..] == [];
  }

  lemma {:induction false} MovedEnd(text: string, outer: Edit, mid: string, grown: int)
    requires outer.start < outer.end <= |text| && |mid| == |text| + grown && outer.start < |mid|
    requires mid[..outer.start + 1] == text[..outer.start + 1]
    requires |text| - outer.end <= |mid| && mid[|mid| - (|text| - outer.end)..] == text[outer.end..]
    ensures Splice(mid, outer) == text[..outer.start] + outer.replacement + SliceFrom(mid, outer.end)
    ensures Splice(mid, outer) == text[..outer.start] + outer.replacement + text[outer.end..]
            <==> grown == 0 || (grown < 0 && outer.end == |text|)
  {
    var start, end := outer.start, outer.end;
    assert mid[..start] == mid[..start + 1][..start] && text[..start] == text[..start + 1][..start];
    if grown == 0 {
      assert SliceFrom(mid, end) == text[end..];
    }
  }

  lemma {:induction false} NestedSort(outer: Edit, inner: seq<Edit>, edits: seq<Edit>, hi: int)
    requires Ascending(inner, outer.start + 1, hi) && multiset(edits) == multiset([outer] + inner)
    ensures SortDescending(edits) == Reversed(inner) + [outer]
  {
    hide Reversed, SortDescending, Ascending;
    AscendingBounds(inner, outer.start + 1, hi);
    ReversedDescends(inner, outer.start + 1, hi);
    ReversedIsPermutation([outer] + inner);
    ReversedOfFirst(outer, inner);
    DescendingAppend(Reversed(inner), outer);
    SortOfPermutation(edits, Reversed([outer] + inner));
  }

  lemma DescendingAppend(edits: seq<Edit>, e: Edit)
    requires Descending(edits) && forall x :: x in edits ==> x.start > e.start
    ensures Descending(edits + [e])
  {
  }

  lemma {:induction false} OnceInDisjoint(edits: seq<Edit>, k: nat)
    requires NonEmpty(edits) && PairwiseDisjoint(edits) && k < |edits|
    ensures multiset(edits)[edits[k]] == 1
  {
    assert edits == edits[..k] + [edits[k]] + edits[k + 1..];
    assert edits[k] in edits;
    forall i | 0 <= i < |edits| && i != k
      ensures edits[i] != edits[k]
    {
      assert Disjoint(edits[i], edits[k]);
    }
    assert edits[k] !in edits[..k] && edits[k] !in edits[k + 1..];
  }

  /** Disjointness does not depend on the order of the list. */
  lemma {:induction false} DisjointOfPermutation(edits: seq<Edit>, other: seq<Edit>)
    requires multiset(edits) == multiset(other) && NonEmpty(other) && PairwiseDisjoint(other)
    ensures PairwiseDisjoint(edits)
  {
    forall i, j | 0 <= i < j < |edits|
      ensures Disjoint(edits[i], edits[j])
    {
      assert edits[i] in multiset(other) && edits[j] in multiset(other);
      var k :| 0 <= k < |other| && other[k] == edits[i];
      var l :| 0 <= l < |other| && other[l] == edits[j];
      if k == l {
        TwiceInSeq(edits, i, j);
        OnceInDisjoint(other, k);
        assert false;
      }
    }
  }
}
