/** `urlSegments` of e2e/scripts/pr-media.ts: the intervals of a recording and the URL each
    shows, against the plain reading "the last navigation at or before time t". Times are reals. */
module UrlTimeline {
  import opened Options

  datatype Nav = Nav(at: real, url: string)
  datatype Segment = Segment(start: real, end: real, url: string)

  const BLANK := "about:blank"

  // ----- the plain reading

  /** The navigation in force at t: the latest one at or before t, later entries winning ties. */
  function Latest(navs: seq<Nav>, t: real): Option<Nav> {
    if navs == [] then None
    else
      var n := |navs| - 1;
      Newer(Latest(navs[..n], t), navs[n], t)
  }

  function Newer(best: Option<Nav>, nav: Nav, t: real): Option<Nav> {
    if nav.at <= t && (best.None? || best.value.at <= nav.at) then Some(nav) else best
  }

  function UrlOf(nav: Option<Nav>, otherwise: string): string {
    if nav.None? then otherwise else nav.value.url
  }

  predicate InForce(navs: seq<Nav>, t: real, i: nat) {
    && i < |navs| && navs[i].at <= t
    && forall j :: 0 <= j < |navs| && navs[j].at <= t ==>
       navs[j].at < navs[i].at || (navs[j].at == navs[i].at && j <= i)
  }

  lemma {:induction false} InForceKept(navs: seq<Nav>, t: real, i: nat, n: nat)
    requires |navs| == n + 1 && InForce(navs[..n], t, i) && (navs[n].at > t || navs[n].at < navs[i].at)
    ensures InForce(navs, t, i)
  {
    assert forall j :: 0 <= j < n ==> navs[..n][j] == navs[j];
  }

  lemma {:induction false} InForceTakenOver(navs: seq<Nav>, t: real, i: nat, n: nat)
    requires |navs| == n + 1 && InForce(navs[..n], t, i) && navs[i].at <= navs[n].at <= t
    ensures InForce(navs, t, n)
  {
    assert forall j :: 0 <= j < n ==> navs[..n][j] == navs[j];
  }

  /** What `Latest` picks is the entry in force, and it picks one whenever there is one. */
  lemma {:induction false} LatestIsInForce(navs: seq<Nav>, t: real)
    ensures Latest(navs, t).None? <==> forall j :: 0 <= j < |navs| ==> navs[j].at > t
    ensures Latest(navs, t).Some? ==> exists i: nat :: InForce(navs, t, i) && navs[i] == Latest(navs, t).value
    decreases navs
  {
    if navs != [] {
      var n := |navs| - 1;
      var before := Latest(navs[..n], t);
      LatestIsInForce(navs[..n], t);
      assert forall j :: 0 <= j < n ==> navs[..n][j] == navs[j];
      if before.Some? {
        var i: nat :| InForce(navs[..n], t, i) && navs[..n][i] == before.value;
        assert navs[..n][i] == navs[i];
        hide InForce;
        if navs[i].at <= navs[n].at <= t {
          InForceTakenOver(navs, t, i, n);
        } else {
          InForceKept(navs, t, i, n);
        }
      } else if navs[n].at <= t {
        assert InForce(navs, t, n);
      }
    }
  }

  // ----- the navigation list

  predicate Sorted(navs: seq<Nav>) {
    forall i, j :: 0 <= i < j < |navs| ==> navs[i].at <= navs[j].at
  }

  /** JavaScript's stable sort by ascending time. */
  function Insert(nav: Nav, sorted: seq<Nav>): seq<Nav> {
    if sorted == [] then [nav]
    else
      var n := |sorted| - 1;
      if sorted[n].at <= nav.at then sorted + [nav] else Insert(nav, sorted[..n]) + [sorted[n]]
  }

  function SortByTime(navs: seq<Nav>): seq<Nav> {
    if navs == [] then [] else Insert(navs[|navs| - 1], SortByTime(navs[..|navs| - 1]))
  }

  lemma {:induction false} SortedAppend(sorted: seq<Nav>, nav: Nav)
    requires Sorted(sorted) && forall x :: x in sorted ==> x.at <= nav.at
    ensures Sorted(sorted + [nav])
  {
    assert forall i :: 0 <= i < |sorted| ==> sorted[i] in sorted;
  }

  lemma {:induction false} InsertSorts(nav: Nav, sorted: seq<Nav>)
    requires Sorted(sorted)
    ensures Sorted(Insert(nav, sorted))
    ensures forall x :: x in Insert(nav, sorted) <==> x == nav || x in sorted
    decreases sorted
  {
    if sorted != [] {
      var n := |sorted| - 1;
      var init, last := sorted[..n], sorted[n];
      assert sorted == init + [last];
      assert forall x :: x in sorted ==> x.at <= last.at;
      InsertSorts(nav, init);
      hide Sorted;
      if last.at <= nav.at {
        SortedAppend(sorted, nav);
      } else {
        SortedAppend(Insert(nav, init), last);
      }
    }
  }

  lemma {:induction false} InsertLatest(nav: Nav, sorted: seq<Nav>, t: real)
    requires Sorted(sorted)
    ensures Latest(Insert(nav, sorted), t) == Newer(Latest(sorted, t), nav, t)
    decreases sorted
  {
    if sorted == [] {
      assert [nav][..0] == [];
    } else {
      var n := |sorted| - 1;
      if sorted[n].at <= nav.at {
        assert (sorted + [nav])[..n + 1] == sorted;
        LatestIsInForce(sorted, t);
      } else {
        var init := Insert(nav, sorted[..n]);
        InsertLatest(nav, sorted[..n], t);
        assert (init + [sorted[n]])[..|init|] == init;
        LatestIsInForce(sorted[..n], t);
      }
    }
  }

  lemma {:induction false} SortSorts(navs: seq<Nav>)
    ensures Sorted(SortByTime(navs))
    ensures forall x :: x in SortByTime(navs) <==> x in navs
    decreases navs
  {
    if navs != [] {
      var n := |navs| - 1;
      SortSorts(navs[..n]);
      InsertSorts(navs[n], SortByTime(navs[..n]));
      assert navs == navs[..n] + [navs[n]];
    }
  }

  /** Sorting is stable and loses nothing: at every time the same navigation is in force. */
  lemma {:induction false} SortKeepsLatest(navs: seq<Nav>, t: real)
    ensures Latest(SortByTime(navs), t) == Latest(navs, t)
    decreases navs
  {
    if navs != [] {
      var n := |navs| - 1;
      SortKeepsLatest(navs[..n], t);
      SortSorts(navs[..n]);
      InsertLatest(navs[n], SortByTime(navs[..n]), t);
    }
  }

  /** On a sorted list the last entry at or before t is in force. */
  lemma {:induction false} LatestOfFront(nav: Nav, rest: seq<Nav>, t: real)
    requires Sorted([nav] + rest)
    ensures Latest([nav] + rest, t) ==
      if Latest(rest, t).Some? then Latest(rest, t) else if nav.at <= t then Some(nav) else None
    decreases rest
  {
    var all := [nav] + rest;
    if rest == [] {
      assert all == [nav] && all[..0] == [];
    } else {
      var n := |rest| - 1;
      assert all[..n + 1] == [nav] + rest[..n];
      assert all[n + 1] == rest[n];
      LatestOfFront(nav, rest[..n], t);
      LatestIsInForce(rest[..n], t);
    }
  }

  // ----- cutting

  function Cut(navs: seq<Nav>, cursor: real, url: string, duration: real): seq<Segment>
    decreases navs
  {
    if navs == [] then [Segment(cursor, duration, url)]
    else
      (if navs[0].at > cursor then [Segment(cursor, navs[0].at, url)] else [])
      + Cut(navs[1..], navs[0].at, navs[0].url, duration)
  }

  method CutSegments(navs: seq<Nav>, duration: real) returns (segments: seq<Segment>)
    ensures segments == Cut(navs, 0.0, BLANK, duration)
  {
    segments := [];
    var cursor, currentUrl := 0.0, BLANK;
    for i := 0 to |navs|
      invariant Cut(navs, 0.0, BLANK, duration) == segments + Cut(navs[i..], cursor, currentUrl, duration)
    {
      assert navs[i..][1..] == navs[i + 1..];
      ghost var later := Cut(navs[i + 1..], navs[i].at, navs[i].url, duration);
      if navs[i].at > cursor {
        assert Cut(navs[i..], cursor, currentUrl, duration) == [Segment(cursor, navs[i].at, currentUrl)] + later;
        segments := segments + [Segment(cursor, navs[i].at, currentUrl)];
      } else {
        assert Cut(navs[i..], cursor, currentUrl, duration) == [] + later == later;
      }
      currentUrl := navs[i].url;
      cursor := navs[i].at;
    }
    segments := segments + [Segment(cursor, duration, currentUrl)];
  }

  /** Back to back from lo to hi. */
  predicate Tiles(segments: seq<Segment>, lo: real, hi: real) {
    if segments == [] then lo == hi
    else segments[0].start == lo <= segments[0].end && Tiles(segments[1..], segments[0].end, hi)
  }

  predicate Within(navs: seq<Nav>, lo: real, hi: real) {
    lo <= hi && forall n :: n in navs ==> lo <= n.at <= hi
  }

  predicate Shows(s: Segment, t: real) { s.start <= t < s.end }

  /** The raw segments tile the recording. */
  lemma {:induction false} CutTiles(navs: seq<Nav>, cursor: real, url: string, duration: real)
    requires Sorted(navs) && Within(navs, cursor, duration)
    ensures Tiles(Cut(navs, cursor, url, duration), cursor, duration)
    decreases navs
  {
    var segments := Cut(navs, cursor, url, duration);
    if navs == [] {
      assert segments[1..] == [];
    } else {
      var later := Cut(navs[1..], navs[0].at, navs[0].url, duration);
      CutTiles(navs[1..], navs[0].at, navs[0].url, duration);
      if navs[0].at > cursor {
        assert segments[1..] == later;
      } else {
        assert segments == later;
      }
    }
  }

  /** Each raw segment shows the URL in force throughout. */
  lemma {:induction false} CutLabels(navs: seq<Nav>, cursor: real, url: string, duration: real, s: Segment, t: real)
    requires Sorted(navs) && Within(navs, cursor, duration)
    requires s in Cut(navs, cursor, url, duration) && Shows(s, t)
    ensures s.url == UrlOf(Latest(navs, t), url)
    decreases navs
  {
    if navs != [] {
      var nav, rest := navs[0], navs[1..];
      var later := Cut(rest, nav.at, nav.url, duration);
      assert navs == [nav] + rest;
      if s in later {
        CutLabels(rest, nav.at, nav.url, duration, s, t);
        CutTiles(rest, nav.at, nav.url, duration);
        TilesBounds(later, nav.at, duration);
        LatestOfFront(nav, rest, t);
      } else {
        LatestIsInForce(navs, t);
      }
    }
  }

  lemma {:induction false} TilesBounds(segments: seq<Segment>, lo: real, hi: real)
    requires Tiles(segments, lo, hi)
    ensures lo <= hi && forall s :: s in segments ==> lo <= s.start <= s.end <= hi
    decreases segments
  {
    if segments != [] {
      TilesBounds(segments[1..], segments[0].end, hi);
    }
  }

  // ----- dropping slivers and merging

  const MIN_LENGTH := 0.01

  predicate Long(s: Segment) { s.end - s.start > MIN_LENGTH }

  function Keep(segments: seq<Segment>): (r: seq<Segment>)
    ensures forall s :: s in r <==> s in segments && Long(s)
  {
    if segments == [] then []
    else (if Long(segments[0]) then [segments[0]] else []) + Keep(segments[1..])
  }

  function Distance(a: real, b: real): real { if a < b then b - a else a - b }

  /** Two neighbours the merge joins: the same URL, less than the minimum apart. */
  predicate Joins(a: Segment, b: Segment) {
    a.url == b.url && Distance(a.end, b.start) < MIN_LENGTH
  }

  function MergeOne(merged: seq<Segment>, s: Segment): seq<Segment> {
    if merged != [] && Joins(merged[|merged| - 1], s)
    then merged[..|merged| - 1] + [merged[|merged| - 1].(end := s.end)]
    else merged + [s]
  }

  function Merge(segments: seq<Segment>): seq<Segment> {
    if segments == [] then [] else MergeOne(Merge(segments[..|segments| - 1]), segments[|segments| - 1])
  }

  method MergeSegments(segments: seq<Segment>) returns (merged: seq<Segment>)
    ensures merged == Merge(segments)
  {
    merged := [];
    for i := 0 to |segments|
      invariant merged == Merge(segments[..i])
    {
      var s := segments[i];
      var last := |merged| - 1;
      if merged != [] && merged[last].url == s.url && Distance(merged[last].end, s.start) < MIN_LENGTH {
        merged := merged[..last] + [merged[last].(end := s.end)];
      } else {
        merged := merged + [s];
      }
      assert segments[..i + 1][..i] == segments[..i];
    }
    assert segments[..|segments|] == segments;
  }

  /** In order, disjoint, none empty, all within [lo, hi]. */
  predicate Apart(segments: seq<Segment>, lo: real, hi: real) {
    && lo <= hi
    && (forall s :: s in segments ==> lo <= s.start < s.end <= hi)
    && forall i, j :: 0 <= i < j < |segments| ==> segments[i].end <= segments[j].start
  }

  lemma {:induction false} KeptAreApart(segments: seq<Segment>, lo: real, hi: real)
    requires Tiles(segments, lo, hi)
    ensures Apart(Keep(segments), lo, hi)
    decreases segments
  {
    TilesBounds(segments, lo, hi);
    if segments != [] {
      KeptAreApart(segments[1..], segments[0].end, hi);
    }
  }

  /** Every segment lies in one of the others with its URL. */
  predicate Covered(segments: seq<Segment>, cover: seq<Segment>) {
    forall s :: s in segments ==> exists m :: m in cover && m.start <= s.start && s.end <= m.end && m.url == s.url
  }

  predicate NothingToJoin(segments: seq<Segment>) {
    forall i :: 0 <= i < |segments| - 1 ==> !Joins(segments[i], segments[i + 1])
  }

  function Total(segments: seq<Segment>): real {
    if segments == [] then 0.0
    else
      var n := |segments| - 1;
      Total(segments[..n]) + (segments[n].end - segments[n].start)
  }

  /** What the merge promises of its input: order and disjointness kept, no join left, every
      input covered with its URL, and no length lost. */
  predicate Merges(segments: seq<Segment>, merged: seq<Segment>, lo: real, hi: real) {
    && Apart(merged, lo, hi) && NothingToJoin(merged) && Covered(segments, merged)
    && Total(merged) >= Total(segments)
    && (merged == [] <==> segments == [])
    && (segments != [] ==> merged[|merged| - 1].end == segments[|segments| - 1].end)
  }

  lemma TotalOfAppend(segments: seq<Segment>, s: Segment)
    ensures Total(segments + [s]) == Total(segments) + (s.end - s.start)
  {
  }

  lemma ApartAppend(merged: seq<Segment>, s: Segment, lo: real, hi: real)
    requires Apart(merged, lo, hi) && lo <= s.start < s.end <= hi
    requires merged != [] ==> merged[|merged| - 1].end <= s.start
    ensures Apart(merged + [s], lo, hi)
  {
  }

  lemma NoJoinAppend(merged: seq<Segment>, s: Segment)
    requires NothingToJoin(merged) && (merged != [] ==> !Joins(merged[|merged| - 1], s))
    ensures NothingToJoin(merged + [s])
  {
  }

  /** Dropping the last segment and appending a longer one changes no other pair. */
  lemma WithoutLast(merged: seq<Segment>, n: nat, lo: real, hi: real)
    requires Apart(merged, lo, hi) && NothingToJoin(merged) && |merged| == n + 1
    ensures Apart(merged[..n], lo, hi) && NothingToJoin(merged[..n]) && lo <= merged[n].start < merged[n].end <= hi
    ensures n > 0 ==> merged[n - 1].end <= merged[n].start && !Joins(merged[n - 1], merged[n])
  {
  }

  lemma {:induction false} CoveredAppend(segments: seq<Segment>, merged: seq<Segment>, s: Segment)
    requires Covered(segments, merged)
    ensures Covered(segments + [s], merged + [s])
  {
    var more := merged + [s];
    assert s in more && forall m :: m in merged ==> m in more;
  }

  lemma {:induction false} AppendMerges(segments: seq<Segment>, merged: seq<Segment>, s: Segment, lo: real, hi: real)
    requires Merges(segments, merged, lo, hi) && lo <= s.start < s.end <= hi
    requires merged != [] ==> merged[|merged| - 1].end <= s.start && !Joins(merged[|merged| - 1], s)
    ensures Merges(segments + [s], merged + [s], lo, hi)
  {
    hide Total, Covered, Apart, NothingToJoin, Joins;
    TotalOfAppend(segments, s);
    TotalOfAppend(merged, s);
    CoveredAppend(segments, merged, s);
    ApartAppend(merged, s, lo, hi);
    NoJoinAppend(merged, s);
  }

  lemma {:induction false} StretchTotal(segments: seq<Segment>, merged: seq<Segment>, s: Segment, n: nat)
    requires Total(merged) >= Total(segments) && |merged| == n + 1 && merged[n].end <= s.start
    ensures Total(merged[..n] + [merged[n].(end := s.end)]) >= Total(segments + [s])
  {
    hide Total;
    assert merged == merged[..n] + [merged[n]];
    TotalOfAppend(segments, s);
    TotalOfAppend(merged[..n], merged[n].(end := s.end));
    TotalOfAppend(merged[..n], merged[n]);
  }

  lemma {:induction false} JoinsIgnoresTheEnd(a: Segment, b: Segment, end: real)
    ensures Joins(a, b.(end := end)) == Joins(a, b)
  {
  }

  lemma {:induction false} StretchMerges(segments: seq<Segment>, merged: seq<Segment>, s: Segment, lo: real, hi: real,
                                         n: nat)
    requires Merges(segments, merged, lo, hi) && lo <= s.start < s.end <= hi && |merged| == n + 1
    requires merged[n].url == s.url && merged[n].end <= s.start
    ensures Merges(segments + [s], merged[..n] + [merged[n].(end := s.end)], lo, hi)
  {
    hide Total, Covered, Apart, NothingToJoin, Joins;
    var init, longer := merged[..n], merged[n].(end := s.end);
    WithoutLast(merged, n, lo, hi);
    if n > 0 {
      assert init[n - 1] == merged[n - 1];
      JoinsIgnoresTheEnd(merged[n - 1], merged[n], s.end);
    }
    StretchTotal(segments, merged, s, n);
    CoveredByLonger(segments, merged, s, n);
    ApartAppend(init, longer, lo, hi);
    NoJoinAppend(init, longer);
  }

  lemma {:induction false} MergeOneMerges(segments: seq<Segment>, merged: seq<Segment>, s: Segment, lo: real, hi: real)
    requires Apart(segments + [s], lo, hi) && Merges(segments, merged, lo, hi)
    ensures Merges(segments + [s], MergeOne(merged, s), lo, hi)
  {
    assert s in segments + [s];
    if merged != [] {
      var last := |segments| - 1;
      assert (segments + [s])[last] == segments[last] && (segments + [s])[last + 1] == s;
      assert merged[|merged| - 1].end <= s.start;
    }
    hide Covered, Total, Apart, NothingToJoin;
    if merged != [] && Joins(merged[|merged| - 1], s) {
      StretchMerges(segments, merged, s, lo, hi, |merged| - 1);
    } else {
      AppendMerges(segments, merged, s, lo, hi);
    }
  }

  lemma CoveredByLonger(segments: seq<Segment>, merged: seq<Segment>, s: Segment, n: nat)
    requires Covered(segments, merged) && |merged| == n + 1
    requires merged[n].url == s.url && merged[n].start <= s.start && merged[n].end <= s.end
    ensures Covered(segments + [s], merged[..n] + [merged[n].(end := s.end)])
  {
  }

  lemma {:induction false} MergeMerges(segments: seq<Segment>, lo: real, hi: real)
    requires Apart(segments, lo, hi)
    ensures Merges(segments, Merge(segments), lo, hi)
    decreases segments
  {
    if segments != [] {
      var n := |segments| - 1;
      assert segments == segments[..n] + [segments[n]];
      MergeMerges(segments[..n], lo, hi);
      MergeOneMerges(segments[..n], Merge(segments[..n]), segments[n], lo, hi);
    }
  }

  // ----- the whole pipeline

  function Max(a: real, b: real): real { if a < b then b else a }

  /** Times in seconds from the start of the recording, entries after its end left out. */
  function Prepare(raw: seq<Nav>, anchor: real, duration: real): (r: seq<Nav>)
    ensures forall n :: n in r ==> 0.0 <= n.at <= duration
  {
    if raw == [] then []
    else
      var n := |raw| - 1;
      var shifted := Nav(Shift(raw[n].at, anchor), raw[n].url);
      Prepare(raw[..n], anchor, duration) + (if shifted.at <= duration then [shifted] else [])
  }

  function Shift(at: real, anchor: real): real { Max(0.0, (at - anchor) / 1000.0) }

  lemma LatestOfAppend(navs: seq<Nav>, nav: Nav, t: real)
    ensures Latest(navs + [nav], t) == Newer(Latest(navs, t), nav, t)
  {
  }

  lemma {:induction false} PrepareOneMore(raw: seq<Nav>, last: Nav, anchor: real, duration: real, t: real)
    requires t <= duration
    ensures Latest(Prepare(raw + [last], anchor, duration), t)
         == Newer(Latest(Prepare(raw, anchor, duration), t), Nav(Shift(last.at, anchor), last.url), t)
  {
    var init := Prepare(raw, anchor, duration);
    assert (raw + [last])[..|raw|] == raw;
    LatestOfAppend(init, Nav(Shift(last.at, anchor), last.url), t);
    assert init + [] == init;
  }

  /** The last entry of the record at or before the anchor, whatever its time. */
  function LastEarly(raw: seq<Nav>, anchor: real): Option<Nav> {
    if raw == [] then None
    else
      var n := |raw| - 1;
      if raw[n].at <= anchor then Some(raw[n]) else LastEarly(raw[..n], anchor)
  }

  /** What the prepared list has in force, given what the record has at that moment of the clock:
      the same entry once one after the anchor is in force, until then the last early one. */
  predicate Follows(prepared: Option<Nav>, record: Option<Nav>, early: Option<Nav>, anchor: real) {
    if record.Some? && record.value.at > anchor
    then prepared == Some(Nav(Shift(record.value.at, anchor), record.value.url))
    else prepared == if early.None? then None else Some(Nav(0.0, early.value.url))
  }

  lemma FollowsOneMore(p: Option<Nav>, q: Option<Nav>, early: Option<Nav>, last: Nav, anchor: real, t: real)
    requires t >= 0.0 && Follows(p, q, early, anchor) && (q.None? ==> early.None?)
    ensures var clock := anchor + 1000.0 * t;
      var q', early' := Newer(q, last, clock), if last.at <= anchor then Some(last) else early;
      Follows(Newer(p, Nav(Shift(last.at, anchor), last.url), t), q', early', anchor) && (q'.None? ==> early'.None?)
  {
  }

  lemma {:induction false} PreparedFollows(raw: seq<Nav>, anchor: real, duration: real, t: real)
    requires 0.0 <= t <= duration
    ensures var record := Latest(raw, anchor + 1000.0 * t);
      && Follows(Latest(Prepare(raw, anchor, duration), t), record, LastEarly(raw, anchor), anchor)
      && (record.None? ==> LastEarly(raw, anchor).None?)
    decreases raw
  {
    if raw != [] {
      var init, last := raw[..|raw| - 1], raw[|raw| - 1];
      assert raw == init + [last];
      PreparedFollows(init, anchor, duration, t);
      PrepareOneMore(init, last, anchor, duration, t);
      FollowsOneMore(Latest(Prepare(init, anchor, duration), t), Latest(init, anchor + 1000.0 * t),
                     LastEarly(init, anchor), last, anchor, t);
    }
  }

  /** What was in force at the anchor still is, so long as nothing later is. */
  lemma {:induction false} EarlyIsInForce(raw: seq<Nav>, anchor: real, clock: real)
    requires anchor <= clock
    ensures if exists i :: 0 <= i < |raw| && anchor < raw[i].at <= clock
            then Latest(raw, clock).Some? && Latest(raw, clock).value.at > anchor
            else Latest(raw, clock) == Latest(raw, anchor)
    ensures Latest(raw, anchor).Some? ==> Latest(raw, anchor).value.at <= anchor
    decreases raw
  {
    if raw != [] {
      var n := |raw| - 1;
      assert forall i :: 0 <= i < n ==> raw[..n][i] == raw[i];
      EarlyIsInForce(raw[..n], anchor, clock);
    }
  }

  /** The shift, clamp and filter show at t seconds what the record has in force at that moment of
      the clock, exactly when an entry after the anchor is in force by then or the last early entry
      of the list shows what was in force at the anchor: the clamp makes early entries tie. */
  lemma {:induction false} PreparedFollowsTheClock(raw: seq<Nav>, anchor: real, duration: real, t: real)
    requires 0.0 <= t <= duration
    ensures var prepared, clock := Latest(Prepare(raw, anchor, duration), t), anchor + 1000.0 * t;
      UrlOf(prepared, BLANK) == UrlOf(Latest(raw, clock), BLANK)
      <==> (exists i :: 0 <= i < |raw| && anchor < raw[i].at <= clock)
           || UrlOf(LastEarly(raw, anchor), BLANK) == UrlOf(Latest(raw, anchor), BLANK)
  {
    PreparedFollows(raw, anchor, duration, t);
    EarlyIsInForce(raw, anchor, anchor + 1000.0 * t);
  }

  /** The early entries are recorded in time order; the others may come in any order. */
  predicate EarlySorted(raw: seq<Nav>, anchor: real) {
    forall i, j :: 0 <= i < j < |raw| && raw[j].at <= anchor ==> raw[i].at <= raw[j].at || raw[i].at > anchor
  }

  lemma {:induction false} SortedEarlyIsLatest(raw: seq<Nav>, anchor: real)
    requires EarlySorted(raw, anchor)
    ensures LastEarly(raw, anchor) == Latest(raw, anchor)
    decreases raw
  {
    if raw != [] {
      var n := |raw| - 1;
      SortedEarlyIsLatest(raw[..n], anchor);
      LatestIsInForce(raw[..n], anchor);
    }
  }

  /** So a record whose early entries are in time order is followed at every moment. */
  lemma {:induction false} EarlyOrderIsEnough(raw: seq<Nav>, anchor: real, duration: real, t: real)
    requires EarlySorted(raw, anchor) && 0.0 <= t <= duration
    ensures UrlOf(Latest(Prepare(raw, anchor, duration), t), BLANK) == UrlOf(Latest(raw, anchor + 1000.0 * t), BLANK)
  {
    SortedEarlyIsLatest(raw, anchor);
    PreparedFollowsTheClock(raw, anchor, duration, t);
  }

  lemma {:induction false} LatestOfTwo(a: Nav, b: Nav, t: real)
    ensures Latest([a, b], t) == Newer(Newer(None, a, t), b, t)
  {
    assert [] + [a] == [a] && [a] + [b] == [a, b];
    LatestOfAppend([], a, t);
    LatestOfAppend([a], b, t);
  }

  /** Early entries out of order mislead: the older one, listed last, is shown. */
  lemma {:induction false} EarlyDisorderMisleads(anchor: real, duration: real, newer: string, older: string)
    requires duration >= 0.0 && newer != older
    ensures var raw := [Nav(anchor, newer), Nav(anchor - 1.0, older)];
      UrlOf(Latest(Prepare(raw, anchor, duration), 0.0), BLANK) == older && UrlOf(Latest(raw, anchor), BLANK) == newer
  {
    hide Latest, Prepare, Shift;
    var raw := [Nav(anchor, newer), Nav(anchor - 1.0, older)];
    assert anchor + 1000.0 * 0.0 == anchor;
    PreparedFollows(raw, anchor, duration, 0.0);
    LatestOfTwo(raw[0], raw[1], anchor);
  }

  const SNAP := 0.25

  /** A first navigation close to the start counts as the start. */
  function Snap(navs: seq<Nav>): seq<Nav> {
    if navs != [] && navs[0].at <= SNAP then [navs[0].(at := 0.0)] + navs[1..] else navs
  }

  lemma SortOfNone(navs: seq<Nav>)
    ensures SortByTime(navs) == [] <==> navs == []
  {
  }

  /** The URL a viewer should see at t: the navigation in force, before the first one the first
      one if it is close to the start, otherwise a blank page. */
  function UrlAt(navs: seq<Nav>, t: real): string {
    var sorted := SortByTime(navs);
    UrlOf(Latest(navs, t), if sorted != [] && sorted[0].at <= SNAP then sorted[0].url else BLANK)
  }

  /** The first entry of the list among the earliest. */
  predicate Earliest(navs: seq<Nav>, i: nat) {
    i < |navs| && forall j :: 0 <= j < |navs| ==> navs[i].at < navs[j].at || (navs[i].at == navs[j].at && i <= j)
  }

  lemma {:induction false} InsertFirst(nav: Nav, sorted: seq<Nav>)
    requires Sorted(sorted)
    ensures Insert(nav, sorted) != []
    ensures Insert(nav, sorted)[0] == if sorted == [] || nav.at < sorted[0].at then nav else sorted[0]
    decreases sorted
  {
    if sorted != [] {
      InsertFirst(nav, sorted[..|sorted| - 1]);
    }
  }

  lemma {:induction false} SortFirst(navs: seq<Nav>, i: nat)
    requires Earliest(navs, i)
    ensures SortByTime(navs) != [] && SortByTime(navs)[0] == navs[i]
    decreases navs
  {
    hide Sorted, Insert;
    var n := |navs| - 1;
    var init, sorted := navs[..n], SortByTime(navs[..n]);
    SortSorts(init);
    InsertFirst(navs[n], sorted);
    SortOfNone(init);
    if i < n {
      EarliestOfFewer(navs, i, n);
      SortFirst(init, i);
    } else if n > 0 {
      assert sorted[0] in sorted;
      assert forall x :: x in init ==> navs[n].at < x.at;
    }
  }

  lemma {:induction false} EarliestOfFewer(navs: seq<Nav>, i: nat, n: nat)
    requires Earliest(navs, i) && i < n < |navs|
    ensures Earliest(navs[..n], i) && navs[..n][i] == navs[i] && navs[i].at <= navs[n].at
  {
    assert forall j :: 0 <= j < n ==> navs[..n][j] == navs[j];
  }

  /** Before the first navigation a viewer should see its page if it comes within a quarter of a
      second of the start, and otherwise a blank one. */
  lemma {:induction false} UrlBeforeTheFirst(navs: seq<Nav>, i: nat, t: real)
    requires Earliest(navs, i) && t < navs[i].at
    ensures UrlAt(navs, t) == if navs[i].at <= 0.25 then navs[i].url else "about:blank"
  {
    LatestIsInForce(navs, t);
    SortFirst(navs, i);
  }

  lemma {:induction false} SnapLabels(navs: seq<Nav>, t: real)
    requires navs != [] && t >= 0.0 && forall n :: n in navs ==> 0.0 <= n.at
    ensures UrlOf(Latest(Snap(SortByTime(navs)), t), BLANK) == UrlAt(navs, t)
  {
    var sorted := SortByTime(navs);
    SortSorts(navs);
    SortOfNone(navs);
    SortKeepsLatest(navs, t);
    var nav, rest := sorted[0], sorted[1..];
    assert sorted == [nav] + rest;
    LatestOfFront(nav, rest, t);
    if nav.at <= SNAP {
      var snapped := nav.(at := 0.0);
      SnapSorts(sorted);
      LatestOfFront(snapped, rest, t);
    }
  }

  lemma SnapSorts(sorted: seq<Nav>)
    requires Sorted(sorted) && forall n :: n in sorted ==> 0.0 <= n.at
    ensures Sorted(Snap(sorted))
    ensures forall n :: n in Snap(sorted) ==> 0.0 <= n.at && exists m :: m in sorted && n.at <= m.at
  {
  }

  lemma {:induction false} TilesShow(segments: seq<Segment>, lo: real, hi: real, t: real)
    requires Tiles(segments, lo, hi) && lo <= t < hi
    ensures exists s :: s in segments && Shows(s, t)
    decreases segments
  {
    if segments != [] {
      if t < segments[0].end {
        assert segments[0] in segments && Shows(segments[0], t);
      } else {
        TilesShow(segments[1..], segments[0].end, hi, t);
        var s :| s in segments[1..] && Shows(s, t);
        assert s in segments;
      }
    }
  }

  lemma {:induction false} TotalFront(s: Segment, rest: seq<Segment>)
    ensures Total([s] + rest) == (s.end - s.start) + Total(rest)
    decreases rest
  {
    if rest == [] {
      assert [s] + rest == [s] && [s][..0] == [];
    } else {
      var n := |rest| - 1;
      assert ([s] + rest)[..n + 1] == [s] + rest[..n];
      TotalFront(s, rest[..n]);
    }
  }

  /** Dropping slivers loses at most the minimum length for each. */
  lemma {:induction false} SliversAreShort(segments: seq<Segment>, lo: real, hi: real)
    requires Tiles(segments, lo, hi)
    ensures (hi - lo) - Total(Keep(segments)) <= MIN_LENGTH * Slivers(segments) as real
    decreases segments
  {
    if segments != [] {
      var s, rest := segments[0], segments[1..];
      SliversAreShort(rest, s.end, hi);
      if Long(s) {
        TotalFront(s, Keep(rest));
      } else {
        assert Keep(segments) == Keep(rest);
      }
    }
  }

  lemma {:induction false} ApartIsShort(segments: seq<Segment>, lo: real, hi: real)
    requires Apart(segments, lo, hi)
    ensures Total(segments) <= (if segments == [] then 0.0 else segments[|segments| - 1].end - lo)
    decreases segments
  {
    if segments != [] {
      var n := |segments| - 1;
      assert segments[n] in segments;
      assert forall x :: x in segments[..n] ==> x in segments;
      ApartIsShort(segments[..n], lo, hi);
      if n > 0 {
        assert segments[n - 1].end <= segments[n].start;
      }
    }
  }

  function RawSegments(navs: seq<Nav>, duration: real): seq<Segment> {
    Cut(Snap(SortByTime(navs)), 0.0, BLANK, duration)
  }

  /** The raw segments tile the recording and show at each time what a viewer should see. */
  lemma {:induction false} RawSegmentsTileAndLabel(navs: seq<Nav>, duration: real)
    requires navs != [] && duration >= 0.0 && forall n :: n in navs ==> 0.0 <= n.at <= duration
    ensures Tiles(RawSegments(navs, duration), 0.0, duration)
    ensures forall s, t :: s in RawSegments(navs, duration) && Shows(s, t) ==> s.url == UrlAt(navs, t)
  {
    var sorted := SortByTime(navs);
    SortSorts(navs);
    SnapSorts(sorted);
    CutTiles(Snap(sorted), 0.0, BLANK, duration);
    TilesBounds(RawSegments(navs, duration), 0.0, duration);
    forall s, t | s in RawSegments(navs, duration) && Shows(s, t)
      ensures s.url == UrlAt(navs, t)
    {
      CutLabels(Snap(sorted), 0.0, BLANK, duration, s, t);
      SnapLabels(navs, t);
    }
  }

  /** What the returned list promises of the navigations: in order, disjoint and fully merged;
      every segment longer than a hundredth of a second; every moment of the recording shown with
      the URL a viewer should see, or in a dropped sliver; and at most a hundredth of a second
      uncovered for each sliver. */
  ghost predicate TellsTheUrls(segments: seq<Segment>, navs: seq<Nav>, duration: real) {
    var cut := RawSegments(navs, duration);
    && Apart(segments, 0.0, duration) && NothingToJoin(segments)
    && AllLong(segments)
    && (forall t :: 0.0 <= t < duration ==> Told(segments, navs, t) || InSliver(cut, t))
    && 0.0 <= duration - Total(segments) <= 0.01 * Slivers(cut) as real
  }

  /** Some segment shows this moment, and whichever does shows the right URL. */
  ghost predicate Told(segments: seq<Segment>, navs: seq<Nav>, t: real) {
    && (exists f :: f in segments && Shows(f, t))
    && (forall f :: f in segments && Shows(f, t) ==> f.url == UrlAt(navs, t))
  }

  predicate InSliver(cut: seq<Segment>, t: real) {
    exists s :: s in cut && s.end - s.start <= 0.01 && Shows(s, t)
  }

  /** How many raw segments are too short to keep. */
  function Slivers(cut: seq<Segment>): nat {
    if cut == [] then 0 else (if Long(cut[0]) then 0 else 1) + Slivers(cut[1..])
  }

  lemma {:induction false} FinalSegments(navs: seq<Nav>, duration: real)
    requires navs != [] && duration >= 0.0 && forall n :: n in navs ==> 0.0 <= n.at <= duration
    ensures TellsTheUrls(Merge(Keep(RawSegments(navs, duration))), navs, duration)
  {
    hide Merge, Cut, Total, Covered, NothingToJoin, UrlAt, RawSegments, Keep, Slivers, Tiles, Told, InSliver, Long,
         Shows;
    var cut := RawSegments(navs, duration);
    var final := Merge(Keep(cut));
    RawSegmentsTileAndLabel(navs, duration);
    KeptAreApart(cut, 0.0, duration);
    MergeMerges(Keep(cut), 0.0, duration);
    MergedAreLong(Keep(cut), 0.0, duration) by { KeptAreLong(cut); }
    SliversAreShort(cut, 0.0, duration);
    ApartIsShort(final, 0.0, duration);
    if final != [] { assert final[|final| - 1] in final; }
    forall t | 0.0 <= t < duration
      ensures Told(final, navs, t) || InSliver(cut, t)
    {
      ToldOutsideSlivers(navs, cut, final, duration, t);
    }
  }

  lemma {:induction false} KeptAreLong(cut: seq<Segment>)
    ensures AllLong(Keep(cut))
  {
  }

  predicate AllLong(segments: seq<Segment>) { forall s :: s in segments ==> s.end - s.start > 0.01 }

  lemma {:induction false} MergeOneIsLong(merged: seq<Segment>, last: Segment)
    requires AllLong(merged) && AllLong([last]) && (merged != [] ==> merged[|merged| - 1].end <= last.start)
    ensures AllLong(MergeOne(merged, last))
  {
    hide Joins;
    assert last in [last];
    if merged != [] { assert merged[|merged| - 1] in merged; }
  }

  lemma {:induction false} WithoutLastApart(segments: seq<Segment>, lo: real, hi: real, n: nat)
    requires Apart(segments, lo, hi) && AllLong(segments) && |segments| == n + 1
    ensures Apart(segments[..n], lo, hi) && AllLong(segments[..n]) && AllLong([segments[n]])
    ensures n > 0 ==> segments[n - 1].end <= segments[n].start
  {
    assert forall s :: s in segments[..n] ==> s in segments;
    assert segments[n] in segments;
  }

  lemma {:induction false} MergedAreLong(segments: seq<Segment>, lo: real, hi: real)
    requires Apart(segments, lo, hi) && AllLong(segments)
    ensures AllLong(Merge(segments))
    decreases segments
  {
    assert AllLong([]);
    hide Apart, AllLong, MergeOne, Covered, Total, NothingToJoin;
    if segments != [] {
      var n := |segments| - 1;
      WithoutLastApart(segments, lo, hi, n);
      MergedAreLong(segments[..n], lo, hi);
      MergeMerges(segments[..n], lo, hi);
      MergeOneIsLong(Merge(segments[..n]), segments[n]);
    }
  }

  lemma {:induction false} ToldOutsideSlivers(navs: seq<Nav>, cut: seq<Segment>, final: seq<Segment>, duration: real,
                                              t: real)
    requires Tiles(cut, 0.0, duration) && Apart(final, 0.0, duration) && Covered(Keep(cut), final)
    requires 0.0 <= t < duration
    requires forall s, t :: s in cut && Shows(s, t) ==> s.url == UrlAt(navs, t)
    ensures Told(final, navs, t) || InSliver(cut, t)
  {
    TilesShow(cut, 0.0, duration, t);
    hide UrlAt, Tiles, Covered, Apart;
    var s :| s in cut && Shows(s, t);
    if Long(s) {
      CoverShows(Keep(cut), final, 0.0, duration, s, t);
    }
  }

  lemma CoverShows(kept: seq<Segment>, final: seq<Segment>, lo: real, hi: real, s: Segment, t: real)
    requires Apart(final, lo, hi) && Covered(kept, final) && s in kept && Shows(s, t)
    ensures exists f :: f in final && Shows(f, t)
    ensures forall f :: f in final && Shows(f, t) ==> f.url == s.url
  {
  }

  /** `urlSegments`: nothing without a recording anchor, one blank segment without navigations,
      otherwise segments that tell the URLs of the prepared navigations. */
  method UrlSegments(raw: seq<Nav>, anchor: Option<real>, duration: real) returns (segments: seq<Segment>)
    requires duration >= 0.0
    ensures anchor.None? ==> segments == []
    ensures anchor.Some? ==>
      var navs := Prepare(raw, anchor.value, duration);
      if navs == [] then segments == [Segment(0.0, duration, BLANK)] else TellsTheUrls(segments, navs, duration)
  {
    if anchor.None? { return []; }
    var navs := Prepare(raw, anchor.value, duration);
    var sorted := SortByTime(navs);
    SortOfNone(navs);
    if sorted == [] { return [Segment(0.0, duration, BLANK)]; }
    var cut := CutSegments(Snap(sorted), duration);
    segments := MergeSegments(Keep(cut));
    FinalSegments(navs, duration);
    hide TellsTheUrls;
  }
}
