/** The release version pattern of scripts/validate-release-ref.ts against Semantic Versioning
    2.0.0, and the publish channel of scripts/publish-packages.ts. */
module ReleaseVersion {
  import opened Regexes

  // ----- the pattern

  const DIGIT := [('0', '9')]
  const NONZERO := [('1', '9')]
  const ALNUM := [('0', '9'), ('A', 'Z'), ('a', 'z'), ('-', '-')]
  const LEAD := [('A', 'Z'), ('a', 'z'), ('-', '-')]

  const NUMBER := Alt(Lit('0'), Cat(OneOf(NONZERO), Star(OneOf(DIGIT))))
  const PRE_ID := Alt(NUMBER, Cat(OneOf(LEAD), Star(OneOf(ALNUM))))
  const BUILD_ID := Plus(OneOf(ALNUM))
  const PRE_PART := Opt(Cat(Lit('-'), Dotted(PRE_ID)))
  const BUILD_PART := Opt(Cat(Lit('+'), Dotted(BUILD_ID)))
  const PATTERN :=
    Cat(NUMBER, Cat(Lit('.'), Cat(NUMBER, Cat(Lit('.'), Cat(NUMBER, Cat(PRE_PART, BUILD_PART))))))

  // ----- Semantic Versioning 2.0.0

  predicate IsDigit(c: char) { '0' <= c <= '9' }
  predicate IsIdentChar(c: char) { IsDigit(c) || 'A' <= c <= 'Z' || 'a' <= c <= 'z' || c == '-' }

  predicate AllDigits(s: string) { forall i :: 0 <= i < |s| ==> IsDigit(s[i]) }

  /** Section 2: a non-negative integer without leading zeroes. */
  predicate IsNumber(s: string) { s != "" && AllDigits(s) && (s[0] == '0' ==> |s| == 1) }

  /** Section 10: a non-empty identifier of ASCII alphanumerics and hyphens. */
  predicate IsIdentifier(s: string) { s != "" && forall i :: 0 <= i < |s| ==> IsIdentChar(s[i]) }

  /** Section 9: additionally, no leading zeroes in a numeric identifier. */
  predicate IsPreIdentifier(s: string) { IsIdentifier(s) && (AllDigits(s) ==> IsNumber(s)) }

  /** Starts with a digit without being a number. */
  predicate IsMixed(s: string) { s != "" && IsDigit(s[0]) && !AllDigits(s) }

  /** The parts of a version; an absent pre-release or build is an empty list. */
  datatype Version = Version(major: string, minor: string, patch: string, pre: seq<string>, build: seq<string>)

  predicate IsVersion(v: Version) {
    && IsNumber(v.major) && IsNumber(v.minor) && IsNumber(v.patch)
    && (forall p :: p in v.pre ==> IsPreIdentifier(p))
    && (forall b :: b in v.build ==> IsIdentifier(b))
  }

  predicate HasMixed(v: Version) { exists p :: p in v.pre && IsMixed(p) }

  function Core(v: Version): string { v.major + "." + v.minor + "." + v.patch }
  function Part(mark: char, ids: seq<string>): string { if ids == [] then "" else [mark] + Join(ids) }
  function Print(v: Version): string { Core(v) + Part('-', v.pre) + Part('+', v.build) }

  // ----- the pieces of the pattern

  lemma {:induction false} DigitRanges(s: string)
    ensures AllIn(s, DIGIT) <==> AllDigits(s)
  {
    forall i | 0 <= i < |s|
      ensures InRanges(s[i], DIGIT) <==> IsDigit(s[i])
    {
      if IsDigit(s[i]) { assert DIGIT[0].0 <= s[i] <= DIGIT[0].1; }
    }
  }

  lemma {:induction false} AlnumRange(c: char)
    ensures InRanges(c, ALNUM) <==> IsIdentChar(c)
    ensures InRanges(c, LEAD) <==> IsIdentChar(c) && !IsDigit(c)
    ensures InRanges(c, NONZERO) <==> IsDigit(c) && c != '0'
  {
    if IsDigit(c) { assert ALNUM[0].0 <= c <= ALNUM[0].1; }
    if IsDigit(c) && c != '0' { assert NONZERO[0].0 <= c <= NONZERO[0].1; }
    if 'A' <= c <= 'Z' { assert ALNUM[1].0 <= c <= ALNUM[1].1 && LEAD[0].0 <= c <= LEAD[0].1; }
    if 'a' <= c <= 'z' { assert ALNUM[2].0 <= c <= ALNUM[2].1 && LEAD[1].0 <= c <= LEAD[1].1; }
    if c == '-' { assert ALNUM[3].0 <= c <= ALNUM[3].1 && LEAD[2].0 <= c <= LEAD[2].1; }
  }

  /** A class followed by any number of another. */
  lemma {:induction false} HeadAndTail(head: seq<(char, char)>, tail: seq<(char, char)>, s: string)
    ensures Matches(Cat(OneOf(head), Star(OneOf(tail))), s) <==> s != "" && InRanges(s[0], head) && AllIn(s[1..], tail)
  {
    if Matches(Cat(OneOf(head), Star(OneOf(tail))), s) {
      var x, y := CatElim(OneOf(head), Star(OneOf(tail)), s);
      StarOfClass(tail, y);
      assert s[1..] == y;
    }
    if s != "" && InRanges(s[0], head) && AllIn(s[1..], tail) {
      StarOfClass(tail, s[1..]);
      assert Matches(OneOf(head), s[..1]);
      CatIntro(OneOf(head), Star(OneOf(tail)), s[..1], s[1..]);
      assert s[..1] + s[1..] == s;
    }
  }

  lemma {:induction false} NumberMatches(s: string)
    ensures Matches(NUMBER, s) <==> IsNumber(s)
  {
    LitMatches('0', s);
    HeadAndTail(NONZERO, DIGIT, s);
    if s != "" {
      DigitRanges(s[1..]);
      AlnumRange(s[0]);
      assert s == [s[0]] + s[1..];
    }
  }

  lemma {:induction false} BuildIdMatches(s: string)
    ensures Matches(BUILD_ID, s) <==> IsIdentifier(s)
  {
    HeadAndTail(ALNUM, ALNUM, s);
    forall i | 0 <= i < |s|
      ensures InRanges(s[i], ALNUM) <==> IsIdentChar(s[i])
    {
      AlnumRange(s[i]);
    }
    if s != "" {
      assert s == [s[0]] + s[1..];
    }
  }

  /** The pre-release item takes exactly the identifiers of section 9 that are not mixed. */
  lemma {:induction false} PreIdMatches(s: string)
    ensures Matches(PRE_ID, s) <==> IsPreIdentifier(s) && !IsMixed(s)
  {
    NumberMatches(s);
    HeadAndTail(LEAD, ALNUM, s);
    forall i | 0 <= i < |s|
      ensures InRanges(s[i], ALNUM) <==> IsIdentChar(s[i])
      ensures InRanges(s[i], LEAD) <==> IsIdentChar(s[i]) && !IsDigit(s[i])
    {
      AlnumRange(s[i]);
    }
    if s != "" {
      assert s == [s[0]] + s[1..];
    }
  }

  // ----- the whole pattern

  lemma {:induction false} PartIntro(mark: char, item: Regex, ids: seq<string>)
    requires AllMatch(item, ids)
    ensures Matches(Opt(Cat(Lit(mark), Dotted(item))), Part(mark, ids))
  {
    if ids != [] {
      DottedIntro(item, ids);
      LitMatches(mark, [mark]);
      CatIntro(Lit(mark), Dotted(item), [mark], Join(ids));
    }
  }

  lemma {:induction false} PartElim(mark: char, item: Regex, s: string) returns (ids: seq<string>)
    requires Matches(Opt(Cat(Lit(mark), Dotted(item))), s)
    ensures AllMatch(item, ids) && s == Part(mark, ids)
  {
    if s == "" {
      ids := [];
    } else {
      var m, rest := CatElim(Lit(mark), Dotted(item), s);
      LitMatches(mark, m);
      ids := DottedElim(item, rest);
    }
  }

  lemma {:induction false} CoreIntro(a: string, b: string, c: string, tail: Regex, rest: string)
    requires IsNumber(a) && IsNumber(b) && IsNumber(c) && Matches(tail, rest)
    ensures Matches(Cat(NUMBER, Cat(Lit('.'), Cat(NUMBER, Cat(Lit('.'), Cat(NUMBER, tail))))),
                    a + "." + b + "." + c + rest)
  {
    hide Matches;
    NumberMatches(a);
    NumberMatches(b);
    NumberMatches(c);
    LitMatches('.', ".");
    CatIntro(NUMBER, tail, c, rest);
    CatIntro(Lit('.'), Cat(NUMBER, tail), ".", c + rest);
    CatIntro(NUMBER, Cat(Lit('.'), Cat(NUMBER, tail)), b, "." + (c + rest));
    CatIntro(Lit('.'), Cat(NUMBER, Cat(Lit('.'), Cat(NUMBER, tail))), ".", b + ("." + (c + rest)));
    CatIntro(NUMBER, Cat(Lit('.'), Cat(NUMBER, Cat(Lit('.'), Cat(NUMBER, tail)))), a, "." + (b + ("." + (c + rest))));
    assert a + ("." + (b + ("." + (c + rest)))) == a + "." + b + "." + c + rest;
  }

  lemma {:induction false} CoreElim(tail: Regex, s: string) returns (a: string, b: string, c: string, rest: string)
    requires Matches(Cat(NUMBER, Cat(Lit('.'), Cat(NUMBER, Cat(Lit('.'), Cat(NUMBER, tail))))), s)
    ensures IsNumber(a) && IsNumber(b) && IsNumber(c) && Matches(tail, rest)
    ensures s == a + "." + b + "." + c + rest
  {
    hide Matches;
    var d1, d2, s1, s2, s3, s4;
    a, s1 := CatElim(NUMBER, Cat(Lit('.'), Cat(NUMBER, Cat(Lit('.'), Cat(NUMBER, tail)))), s);
    d1, s2 := CatElim(Lit('.'), Cat(NUMBER, Cat(Lit('.'), Cat(NUMBER, tail))), s1);
    b, s3 := CatElim(NUMBER, Cat(Lit('.'), Cat(NUMBER, tail)), s2);
    d2, s4 := CatElim(Lit('.'), Cat(NUMBER, tail), s3);
    c, rest := CatElim(NUMBER, tail, s4);
    LitMatches('.', d1);
    LitMatches('.', d2);
    NumberMatches(a);
    NumberMatches(b);
    NumberMatches(c);
    assert a + ("." + (b + ("." + (c + rest)))) == a + "." + b + "." + c + rest;
  }

  lemma {:induction false} PreIdsMatch(ids: seq<string>)
    ensures AllMatch(PRE_ID, ids) <==> forall p :: p in ids ==> IsPreIdentifier(p) && !IsMixed(p)
  {
    forall p | p in ids
      ensures Matches(PRE_ID, p) <==> IsPreIdentifier(p) && !IsMixed(p)
    {
      PreIdMatches(p);
    }
  }

  lemma {:induction false} BuildIdsMatch(ids: seq<string>)
    ensures AllMatch(BUILD_ID, ids) <==> forall b :: b in ids ==> IsIdentifier(b)
  {
    forall b | b in ids
      ensures Matches(BUILD_ID, b) <==> IsIdentifier(b)
    {
      BuildIdMatches(b);
    }
  }

  lemma {:induction false} PatternIntro(v: Version)
    requires IsVersion(v) && !HasMixed(v)
    ensures Matches(PATTERN, Print(v))
  {
    hide Matches;
    PreIdsMatch(v.pre);
    BuildIdsMatch(v.build);
    PartIntro('-', PRE_ID, v.pre);
    PartIntro('+', BUILD_ID, v.build);
    var rest := Part('-', v.pre) + Part('+', v.build);
    CatIntro(PRE_PART, BUILD_PART, Part('-', v.pre), Part('+', v.build));
    CoreIntro(v.major, v.minor, v.patch, Cat(PRE_PART, BUILD_PART), rest);
    assert Core(v) + rest == Print(v);
  }

  lemma {:induction false} PatternElim(s: string) returns (v: Version)
    requires Matches(PATTERN, s)
    ensures IsVersion(v) && !HasMixed(v) && Print(v) == s
  {
    hide Matches;
    var a, b, c, rest := CoreElim(Cat(PRE_PART, BUILD_PART), s);
    var x, y := CatElim(PRE_PART, BUILD_PART, rest);
    var pre := PartElim('-', PRE_ID, x);
    var build := PartElim('+', BUILD_ID, y);
    PreIdsMatch(pre);
    BuildIdsMatch(build);
    v := Version(a, b, c, pre, build);
    assert Core(v) + (x + y) == Print(v);
  }

  /** The pattern accepts exactly the valid semantic versions without a mixed pre-release
      identifier. */
  lemma {:induction false} PatternAcceptsExactly(s: string)
    ensures Matches(PATTERN, s) <==> exists v :: IsVersion(v) && Print(v) == s && !HasMixed(v)
  {
    if Matches(PATTERN, s) {
      var v := PatternElim(s);
    }
    if v :| IsVersion(v) && Print(v) == s && !HasMixed(v) {
      PatternIntro(v);
    }
  }

  // ----- the parts are unique

  predicate Free(s: string, marks: set<char>) { forall i :: 0 <= i < |s| ==> s[i] !in marks }
  predicate Marked(s: string, marks: set<char>) { s != "" ==> s[0] in marks }

  /** A text splits in one way at its first mark. */
  lemma {:induction false} FirstMark(a: string, b: string, c: string, d: string, marks: set<char>)
    requires a + b == c + d && Free(a, marks) && Free(c, marks) && Marked(b, marks) && Marked(d, marks)
    ensures a == c && b == d
  {
    var s := a + b;
    assert forall i :: 0 <= i < |a| ==> s[i] == a[i];
    assert forall i :: 0 <= i < |c| ==> s[i] == c[i];
    assert b != "" ==> s[|a|] == b[0];
    assert d != "" ==> s[|c|] == d[0];
    assert a == s[..|a|] && c == s[..|c|] && b == s[|a|..] && d == s[|c|..];
  }

  lemma {:induction false} JoinIsFree(ids: seq<string>, marks: set<char>)
    requires ids != [] && '.' !in marks && forall p :: p in ids ==> Free(p, marks)
    ensures Free(Join(ids), marks)
    decreases ids
  {
    assert ids[0] in ids;
    if |ids| > 1 {
      JoinIsFree(ids[1..], marks);
    }
  }

  lemma {:induction false} PartIsDetermined(mark: char, a: seq<string>, b: seq<string>)
    requires forall p :: p in a ==> IsIdentifier(p)
    requires forall p :: p in b ==> IsIdentifier(p)
    requires Part(mark, a) == Part(mark, b)
    ensures a == b
  {
    if a != [] && b != [] {
      assert Join(a) == Part(mark, a)[1..] == Part(mark, b)[1..] == Join(b);
      SplitOfJoin(a);
      SplitOfJoin(b);
    }
  }

  lemma NumbersAreFree(s: string)
    requires IsNumber(s)
    ensures Free(s, {'-', '+', '.'})
  {
  }

  lemma {:induction false} CoreIsDetermined(v: Version, w: Version)
    requires IsVersion(v) && IsVersion(w) && Core(v) == Core(w)
    ensures v.major == w.major && v.minor == w.minor && v.patch == w.patch
  {
    NumbersAreFree(v.major);
    NumbersAreFree(w.major);
    NumbersAreFree(v.minor);
    NumbersAreFree(w.minor);
    var rest, other := "." + v.minor + "." + v.patch, "." + w.minor + "." + w.patch;
    assert Core(v) == v.major + rest && Core(w) == w.major + other;
    FirstMark(v.major, rest, w.major, other, {'.'});
    assert v.minor + ("." + v.patch) == rest[1..] == other[1..] == w.minor + ("." + w.patch);
    FirstMark(v.minor, "." + v.patch, w.minor, "." + w.patch, {'.'});
    assert v.patch == ("." + v.patch)[1..] == ("." + w.patch)[1..] == w.patch;
  }

  lemma {:induction false} PrePartIsFree(v: Version)
    requires IsVersion(v)
    ensures Free(Core(v), {'-', '+'}) && Marked(Part('-', v.pre) + Part('+', v.build), {'-', '+'})
    ensures Free(Part('-', v.pre), {'+'}) && Marked(Part('+', v.build), {'+'})
  {
    NumbersAreFree(v.major);
    NumbersAreFree(v.minor);
    NumbersAreFree(v.patch);
    if v.pre != [] {
      forall p | p in v.pre
        ensures Free(p, {'+'})
      {
        assert IsPreIdentifier(p);
      }
      JoinIsFree(v.pre, {'+'});
    }
  }

  lemma {:induction false} PrintInTwo(v: Version)
    ensures Print(v) == Core(v) + (Part('-', v.pre) + Part('+', v.build))
  {
    hide Core, Part;
  }

  /** A text is the print of at most one version: the matched parts are unique. */
  lemma {:induction false} PrintIsInjective(v: Version, w: Version)
    requires IsVersion(v) && IsVersion(w) && Print(v) == Print(w)
    ensures v == w
  {
    hide Part, Core, Print, Free, Marked;
    var x, y := Part('-', v.pre) + Part('+', v.build), Part('-', w.pre) + Part('+', w.build);
    PrintInTwo(v);
    PrintInTwo(w);
    PrePartIsFree(v);
    PrePartIsFree(w);
    FirstMark(Core(v), x, Core(w), y, {'-', '+'});
    FirstMark(Part('-', v.pre), Part('+', v.build), Part('-', w.pre), Part('+', w.build), {'+'});
    CoreIsDetermined(v, w);
    PartIsDetermined('-', v.pre, w.pre);
    PartIsDetermined('+', v.build, w.build);
  }

  /** Valid versions the pattern turns away are exactly those with a mixed identifier. */
  lemma {:induction false} RejectedVersionsAreMixed(v: Version)
    requires IsVersion(v)
    ensures Matches(PATTERN, Print(v)) <==> !HasMixed(v)
  {
    PatternAcceptsExactly(Print(v));
    if w :| IsVersion(w) && Print(w) == Print(v) && !HasMixed(w) {
      PrintIsInjective(v, w);
    }
  }

  /** A valid semantic version the pattern turns away. */
  lemma {:induction false} MixedVersionIsRejected()
    ensures IsVersion(Version("1", "0", "0", ["1a"], [])) && !Matches(PATTERN, "1.0.0-1a")
  {
    var v := Version("1", "0", "0", ["1a"], []);
    assert !IsDigit("1a"[1]) && IsDigit("1a"[0]);
    assert IsMixed("1a");
    assert "1a" in v.pre;
    assert Part('-', v.pre) == "-1a" && Part('+', v.build) == "" && Core(v) == "1.0.0";
    assert Print(v) == "1.0.0-1a";
    RejectedVersionsAreMixed(v);
  }

  // ----- validators and channel

  datatype Checked = Valid(value: string) | Invalid(message: string)

  ghost function ValidateReleaseVersion(value: string): Checked {
    if Matches(PATTERN, value) then Valid(value) else Invalid("Invalid release version: " + value)
  }

  ghost function ValidateReleaseTag(value: string): Checked {
    if value == "" || value[0] != 'v' then Invalid("Invalid release tag: " + value)
    else
      var version := ValidateReleaseVersion(value[1..]);
      if version.Invalid? then version else Valid(value)
  }

  /** A tag is accepted exactly when it is `v` and an accepted version, and comes back as given. */
  lemma {:induction false} TagsAreMarkedVersions(value: string)
    ensures ValidateReleaseTag(value).Valid? <==> exists v :: IsVersion(v) && !HasMixed(v) && value == "v" + Print(v)
    ensures ValidateReleaseTag(value).Valid? ==> ValidateReleaseTag(value).value == value
  {
    hide Matches, IsVersion, HasMixed, Print;
    if value != "" {
      PatternAcceptsExactly(value[1..]);
      assert value == [value[0]] + value[1..];
    }
    forall v | value == "v" + Print(v)
      ensures value != "" && value[0] == 'v' && value[1..] == Print(v)
    {
    }
  }

  datatype Channel = LatestChannel | BetaChannel

  function ResolveChannel(version: string): Channel { if '-' in version then BetaChannel else LatestChannel }

  lemma {:induction false} JoinHyphens(ids: seq<string>)
    requires ids != []
    ensures '-' in Join(ids) <==> exists p :: p in ids && '-' in p
    decreases ids
  {
    assert ids[0] in ids;
    if |ids| > 1 {
      JoinHyphens(ids[1..]);
      assert ids == [ids[0]] + ids[1..];
      assert Join(ids) == ids[0] + "." + Join(ids[1..]);
    }
  }

  /** The channel is beta exactly when there is a pre-release part, or build metadata with a
      hyphen in it. */
  lemma {:induction false} ChannelOfVersion(v: Version)
    requires IsVersion(v)
    ensures ResolveChannel(Print(v)).BetaChannel? <==> v.pre != [] || exists b :: b in v.build && '-' in b
  {
    PrePartIsFree(v);
    if v.pre != [] {
      assert Part('-', v.pre)[0] == '-';
      assert '-' in Part('-', v.pre);
    } else if v.build != [] {
      JoinHyphens(v.build);
    }
    assert '-' !in Core(v);
  }
}
