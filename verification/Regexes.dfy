/** Regular expressions and their language, as far as the release version pattern needs them. */
module Regexes {

  datatype Regex =
    | Empty
    | OneOf(ranges: seq<(char, char)>)
    | Cat(first: Regex, second: Regex)
    | Alt(left: Regex, right: Regex)
    | Star(body: Regex)

  predicate InRanges(c: char, ranges: seq<(char, char)>) {
    exists i :: 0 <= i < |ranges| && ranges[i].0 <= c <= ranges[i].1
  }

  /** The whole text is in the language of the expression. */
  ghost predicate Matches(re: Regex, s: string)
    decreases re, |s|
  {
    match re
    case Empty => s == ""
    case OneOf(ranges) => |s| == 1 && InRanges(s[0], ranges)
    case Cat(a, b) => exists i :: 0 <= i <= |s| && Matches(a, s[..i]) && Matches(b, s[i..])
    case Alt(a, b) => Matches(a, s) || Matches(b, s)
    case Star(a) => s == "" || exists i :: 0 < i <= |s| && Matches(a, s[..i]) && Matches(re, s[i..])
  }

  function Lit(c: char): Regex { OneOf([(c, c)]) }
  function Opt(a: Regex): Regex { Alt(a, Empty) }
  function Plus(a: Regex): Regex { Cat(a, Star(a)) }

  lemma {:induction false} CatIntro(a: Regex, b: Regex, x: string, y: string)
    requires Matches(a, x) && Matches(b, y)
    ensures Matches(Cat(a, b), x + y)
  {
    var s := x + y;
    assert s[..|x|] == x && s[|x|..] == y;
  }

  lemma {:induction false} CatElim(a: Regex, b: Regex, s: string) returns (x: string, y: string)
    requires Matches(Cat(a, b), s)
    ensures s == x + y && Matches(a, x) && Matches(b, y)
  {
    var i :| 0 <= i <= |s| && Matches(a, s[..i]) && Matches(b, s[i..]);
    x, y := s[..i], s[i..];
  }

  lemma {:induction false} LitMatches(c: char, s: string)
    ensures Matches(Lit(c), s) <==> s == [c]
  {
    if s == [c] {
      assert [(c, c)][0].0 <= s[0] <= [(c, c)][0].1;
    }
  }

  predicate AllIn(s: string, ranges: seq<(char, char)>) {
    forall i :: 0 <= i < |s| ==> InRanges(s[i], ranges)
  }

  /** Repeating one character class gives the texts over that class. */
  lemma {:induction false} StarOfClass(ranges: seq<(char, char)>, s: string)
    ensures Matches(Star(OneOf(ranges)), s) <==> AllIn(s, ranges)
    decreases |s|
  {
    if s != "" {
      if AllIn(s, ranges) {
        StarOfClass(ranges, s[1..]);
        assert Matches(OneOf(ranges), s[..1]);
      }
      if Matches(Star(OneOf(ranges)), s) {
        var i :| 0 < i <= |s| && Matches(OneOf(ranges), s[..i]) && Matches(Star(OneOf(ranges)), s[i..]);
        StarOfClass(ranges, s[i..]);
        assert s == s[..1] + s[1..];
      }
    }
  }

  // ----- dotted lists

  /** The parts between dots; a text without dots is its own single part. */
  function Split(s: string): (r: seq<string>)
    ensures r != []
  {
    if s == "" then [""]
    else
      var rest := Split(s[1..]);
      if s[0] == '.' then [""] + rest else [[s[0]] + rest[0]] + rest[1..]
  }

  function Join(parts: seq<string>): string
    requires parts != []
  {
    if |parts| == 1 then parts[0] else parts[0] + "." + Join(parts[1..])
  }

  lemma {:induction false} SplitWithoutDots(p: string)
    requires '.' !in p
    ensures Split(p) == [p]
    decreases |p|
  {
    if p != "" {
      SplitWithoutDots(p[1..]);
      assert p == [p[0]] + p[1..];
    }
  }

  lemma {:induction false} SplitAtDot(p: string, rest: string)
    requires '.' !in p
    ensures Split(p + "." + rest) == [p] + Split(rest)
    decreases |p|
  {
    var s := p + "." + rest;
    if p == "" {
      assert s[1..] == rest;
    } else {
      SplitAtDot(p[1..], rest);
      assert s[1..] == p[1..] + "." + rest;
      assert [p[0]] + p[1..] == p;
    }
  }

  /** Joining and splitting undo each other on parts without dots. */
  lemma {:induction false} SplitOfJoin(parts: seq<string>)
    requires parts != [] && forall p :: p in parts ==> '.' !in p
    ensures Split(Join(parts)) == parts
    decreases parts
  {
    if |parts| == 1 {
      SplitWithoutDots(parts[0]);
    } else {
      SplitAtDot(parts[0], Join(parts[1..]));
      SplitOfJoin(parts[1..]);
    }
  }

  function Dotted(item: Regex): Regex { Cat(item, Star(Cat(Lit('.'), item))) }

  ghost predicate AllMatch(item: Regex, parts: seq<string>) {
    forall p :: p in parts ==> Matches(item, p)
  }

  lemma {:induction false} StarIntro(a: Regex, x: string, y: string)
    requires Matches(a, x) && Matches(Star(a), y)
    ensures Matches(Star(a), x + y)
  {
    var s := x + y;
    if x == "" {
      assert s == y;
    } else {
      assert s[..|x|] == x && s[|x|..] == y;
    }
  }

  lemma StarEmpty(a: Regex)
    ensures Matches(Star(a), "")
  {
  }

  lemma {:induction false} StarElim(a: Regex, s: string) returns (x: string, y: string)
    requires Matches(Star(a), s) && s != ""
    ensures s == x + y && x != "" && Matches(a, x) && Matches(Star(a), y)
  {
    var i :| 0 < i <= |s| && Matches(a, s[..i]) && Matches(Star(a), s[i..]);
    x, y := s[..i], s[i..];
  }

  lemma {:induction false} DottedIntro(item: Regex, parts: seq<string>)
    requires parts != [] && AllMatch(item, parts)
    ensures Matches(Dotted(item), Join(parts))
    decreases parts
  {
    hide Matches;
    var more := Star(Cat(Lit('.'), item));
    assert parts[0] in parts;
    if |parts| == 1 {
      StarEmpty(Cat(Lit('.'), item));
      CatIntro(item, more, parts[0], "");
      assert parts[0] + "" == parts[0];
    } else {
      var tail := Join(parts[1..]);
      DottedIntro(item, parts[1..]);
      var x, y := CatElim(item, more, tail);
      LitMatches('.', ".");
      CatIntro(Lit('.'), item, ".", x);
      StarIntro(Cat(Lit('.'), item), "." + x, y);
      CatIntro(item, more, parts[0], "." + x + y);
      assert parts[0] + ("." + x + y) == parts[0] + "." + tail;
    }
  }

  /** Takes one dotted item off the front of a repetition. */
  lemma {:induction false} DottedTail(item: Regex, y: string) returns (rest: string)
    requires Matches(Star(Cat(Lit('.'), item)), y) && y != ""
    ensures y == "." + rest && Matches(Dotted(item), rest)
  {
    hide Matches;
    var one := Cat(Lit('.'), item);
    var z, more := StarElim(one, y);
    var d, p := CatElim(Lit('.'), item, z);
    LitMatches('.', d);
    CatIntro(item, Star(one), p, more);
    rest := p + more;
    assert y == d + p + more;
  }

  lemma {:induction false} DottedElim(item: Regex, s: string) returns (parts: seq<string>)
    requires Matches(Dotted(item), s)
    ensures parts != [] && AllMatch(item, parts) && Join(parts) == s
    decreases |s|
  {
    hide Matches;
    var x, y := CatElim(item, Star(Cat(Lit('.'), item)), s);
    if y == "" {
      parts := [x];
      assert s == x;
    } else {
      var rest := DottedTail(item, y);
      var more := DottedElim(item, rest);
      parts := [x] + more;
      assert parts[1..] == more;
      assert s == x + "." + rest;
    }
  }
}
