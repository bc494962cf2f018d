/** The codemod of scripts/migrate-schema-class.ts on lossless syntax trees: finding edits on
    the tree and splicing them into the text is rewriting the tree. */
module SchemaCodemod {
  import opened TextEdits

  datatype SchemaKind = PlainClass | TaggedClass

  /** A class declaration extending `Schema.Class<X>("ID")(FIELDS)` or
      `Schema.TaggedClass<X>()("ID", FIELDS)`; `quoted` is the identifier as a JSON text. */
  datatype ClassDecl = ClassDecl(
    name: string, kind: SchemaKind, identifier: string, quoted: string, exported: bool, members: nat)

  /** The nodes of a file: a matching class declaration, the field expression inside one, `new`
      applied to an identifier, a function or block with the names it binds, any other node. */
  datatype Kind = Class(decl: ClassDecl) | Fields | New(gap: string, callee: string) | Scope(bound: set<string>) | Other

  /** Source text as pieces: plain text, and nodes with the pieces they are made of. */
  datatype Forest = Nil | Plain(text: string, rest: Forest) | Node(kind: Kind, inside: Forest, rest: Forest)

  /** The text of a node in front of its parts. */
  function Lead(k: Kind): string {
    if k.New? then "new" + k.gap + k.callee else ""
  }

  function Text(f: Forest): string {
    match f
    case Nil => ""
    case Plain(text, rest) => text + Text(rest)
    case Node(k, inside, rest) => Lead(k) + Text(inside) + Text(rest)
  }

  /** The field expression of a declaration. */
  function FieldsOf(f: Forest): Forest {
    match f
    case Nil => Nil
    case Plain(_, rest) => FieldsOf(rest)
    case Node(k, inside, rest) => if k.Fields? then inside else FieldsOf(rest)
  }

  // ----- finding edits

  /** Which names are rewritten in a file: the migrated names and the file's import aliases. */
  datatype Names = Names(migrated: set<string>, aliases: map<string, string>)

  function Imported(aliases: map<string, string>, local: string): string {
    if local in aliases then aliases[local] else local
  }

  predicate Rewrites(n: Names, k: Kind) { k.New? && Imported(n.aliases, k.callee) in n.migrated }

  /** Only classes without members are migrated. */
  predicate Migrates(k: Kind) { k.Class? && k.decl.members == 0 }

  function ExportPrefix(d: ClassDecl): string { if d.exported then "export " else "" }

  /** The replacement of a declaration, before and after its field expression. */
  function Before(d: ClassDecl): string {
    ExportPrefix(d) + "const " + d.name +
    match d.kind
    case PlainClass => " = Schema.Struct("
    case TaggedClass => " = Schema.TaggedStruct(" + d.quoted + ", "
  }

  predicate Annotated(d: ClassDecl) { d.kind.PlainClass? && d.identifier != "" && d.identifier != d.name }

  function After(d: ClassDecl): string {
    ")" + (if Annotated(d) then ".annotate({ identifier: " + d.quoted + " })" else "")
    + ";\n" + ExportPrefix(d) + "type " + d.name + " = typeof " + d.name + ".Type;"
  }

  function BuildReplacement(d: ClassDecl, fieldsText: string): string { Before(d) + fieldsText + After(d) }

  /** The edit of one node itself. */
  function OwnDeclEdit(k: Kind, inside: Forest, pos: nat): seq<Edit> {
    if Migrates(k) then [Edit(pos, pos + |Text(inside)|, BuildReplacement(k.decl, Text(FieldsOf(inside))))] else []
  }

  function OwnCallEdit(k: Kind, pos: nat, n: Names): seq<Edit> {
    if Rewrites(n, k) then [Edit(pos, pos + |Lead(k)|, k.callee + ".make")] else []
  }

  /** What a visit makes of one node at its position. */
  type Visitor = (Kind, Forest, nat) -> seq<Edit>

  /** The edits of a walk over the tree, each node before its parts. */
  function Collect(f: Forest, pos: nat, visit: Visitor): seq<Edit> {
    match f
    case Nil => []
    case Plain(text, rest) => Collect(rest, pos + |text|, visit)
    case Node(k, inside, rest) =>
      var p := pos + |Lead(k)|;
      visit(k, inside, pos) + Collect(inside, p, visit) + Collect(rest, p + |Text(inside)|, visit)
  }

  function CallVisitor(n: Names): Visitor { (k: Kind, _: Forest, pos: nat) => OwnCallEdit(k, pos, n) }
  function Both(a: Visitor, b: Visitor): Visitor { (k: Kind, inside: Forest, pos: nat) => a(k, inside, pos) + b(k,
                inside, pos) }

  function FindClassDecls(f: Forest, pos: nat): seq<Edit> { Collect(f, pos, OwnDeclEdit) }

  function FindConstructorCalls(f: Forest, pos: nat, n: Names): seq<Edit> { Collect(f, pos, CallVisitor(n)) }

  /** The list handed to `applyEdits`. */
  function FoundEdits(f: Forest, n: Names): seq<Edit> { FindClassDecls(f, 0) + FindConstructorCalls(f, 0, n) }

  /** The same edits in the order one walk meets them. */
  function EditsInOrder(f: Forest, pos: nat, n: Names): seq<Edit> { Collect(f, pos, Both(OwnDeclEdit, CallVisitor(n))) }

  lemma CollectNode(k: Kind, inside: Forest, rest: Forest, pos: nat, visit: Visitor, p: nat, q: nat)
    requires p == pos + |Lead(k)| && q == p + |Text(inside)|
    ensures Collect(Node(k, inside, rest), pos, visit)
         == visit(k, inside, pos) + Collect(inside, p, visit) + Collect(rest, q, visit)
  {
  }

  lemma BagOfThree(a: seq<Edit>, b: seq<Edit>, c: seq<Edit>, all: seq<Edit>)
    requires all == a + b + c
    ensures multiset(all) == multiset(a) + multiset(b) + multiset(c)
  {
  }

  lemma {:induction false} CollectNodeBag(k: Kind, inside: Forest, rest: Forest, pos: nat, visit: Visitor, p: nat,
                                          q: nat)
    requires p == pos + |Lead(k)| && q == p + |Text(inside)|
    ensures multiset(Collect(Node(k, inside, rest), pos, visit))
         == multiset(visit(k, inside, pos)) + multiset(Collect(inside, p, visit)) + multiset(Collect(rest, q, visit))
  {
    CollectNode(k, inside, rest, pos, visit, p, q);
    BagOfThree(visit(k, inside, pos), Collect(inside, p, visit), Collect(rest, q, visit),
               Collect(Node(k, inside, rest), pos, visit));
  }

  lemma {:induction false} NodeCollectsBoth(k: Kind, inside: Forest, rest: Forest, pos: nat, a: Visitor, b: Visitor,
                                            p: nat, q: nat)
    requires p == pos + |Lead(k)| && q == p + |Text(inside)|
    requires multiset(Collect(inside, p, Both(a, b)))
          == multiset(Collect(inside, p, a)) + multiset(Collect(inside, p, b))
    requires multiset(Collect(rest, q, Both(a, b))) == multiset(Collect(rest, q, a)) + multiset(Collect(rest, q, b))
    ensures var f := Node(k, inside, rest);
      multiset(Collect(f, pos, Both(a, b))) == multiset(Collect(f, pos, a)) + multiset(Collect(f, pos, b))
  {
    CollectNodeBag(k, inside, rest, pos, Both(a, b), p, q);
    CollectNodeBag(k, inside, rest, pos, a, p, q);
    CollectNodeBag(k, inside, rest, pos, b, p, q);
    var own, ownA, ownB := Both(a, b)(k, inside, pos), a(k, inside, pos), b(k, inside, pos);
    assert multiset(own) == multiset(ownA) + multiset(ownB) by { BagOfThree(ownA, ownB, [], own); }
    AddUp(multiset(ownA), multiset(ownB), multiset(Collect(inside, p, a)), multiset(Collect(inside, p, b)),
          multiset(Collect(rest, q, a)), multiset(Collect(rest, q, b)));
  }

  lemma CollectNil(pos: nat, visit: Visitor)
    ensures Collect(Nil, pos, visit) == []
  {
  }

  lemma CollectPlain(text: string, rest: Forest, pos: nat, visit: Visitor)
    ensures Collect(Plain(text, rest), pos, visit) == Collect(rest, pos + |text|, visit)
  {
  }

  /** One walk with both visitors finds what two walks find. */
  lemma {:induction false} OneWalkCollectsBoth(f: Forest, pos: nat, a: Visitor, b: Visitor)
    ensures multiset(Collect(f, pos, Both(a, b))) == multiset(Collect(f, pos, a)) + multiset(Collect(f, pos, b))
    decreases f
  {
    hide Collect, Text, Lead, Both;
    if f.Nil? {
      CollectNil(pos, Both(a, b));
      CollectNil(pos, a);
      CollectNil(pos, b);
    } else if f.Plain? {
      OneWalkCollectsBoth(f.rest, pos + |f.text|, a, b);
      CollectPlain(f.text, f.rest, pos, Both(a, b));
      CollectPlain(f.text, f.rest, pos, a);
      CollectPlain(f.text, f.rest, pos, b);
    } else {
      var p := pos + |Lead(f.kind)|;
      var q := p + |Text(f.inside)|;
      OneWalkCollectsBoth(f.inside, p, a, b);
      OneWalkCollectsBoth(f.rest, q, a, b);
      NodeCollectsBoth(f.kind, f.inside, f.rest, pos, a, b, p, q);
    }
  }

  lemma AddUp(a0: multiset<Edit>, b0: multiset<Edit>, a1: multiset<Edit>, b1: multiset<Edit>,
              a2: multiset<Edit>, b2: multiset<Edit>)
    ensures (a0 + b0) + (a1 + b1) + (a2 + b2) == (a0 + a1 + a2) + (b0 + b1 + b2)
  {
  }

  // ----- when the spans are disjoint

  /** Nothing in these pieces is migrated or rewritten. */
  predicate Quiet(f: Forest, n: Names) {
    match f
    case Nil => true
    case Plain(_, rest) => Quiet(rest, n)
    case Node(k, inside, rest) => !Migrates(k) && !Rewrites(n, k) && Quiet(inside, n) && Quiet(rest, n)
  }

  /** No edit is found inside a declaration that is itself rewritten. */
  predicate NothingInsideDecls(f: Forest, n: Names) {
    match f
    case Nil => true
    case Plain(_, rest) => NothingInsideDecls(rest, n)
    case Node(k, inside, rest) =>
      (if Migrates(k) then Quiet(inside, n) else NothingInsideDecls(inside, n)) && NothingInsideDecls(rest, n)
  }

  lemma {:induction false} QuietFindsNothing(f: Forest, pos: nat, n: Names)
    ensures Quiet(f, n) <==> |EditsInOrder(f, pos, n)| == 0
    decreases f
  {
    match f
    case Nil =>
    case Plain(text, rest) => QuietFindsNothing(rest, pos + |text|, n);
    case Node(k, inside, rest) =>
      var p := pos + |Lead(k)|;
      var q := p + |Text(inside)|;
      QuietFindsNothing(inside, p, n);
      QuietFindsNothing(rest, q, n);
      assert EditsInOrder(f, pos, n) ==
        OwnDeclEdit(k, inside, pos) + OwnCallEdit(k, pos, n) + EditsInOrder(inside, p, n) + EditsInOrder(rest, q, n);
  }

  lemma {:induction false} AscendingJoin(a: seq<Edit>, b: seq<Edit>, lo: int, mid: int, hi: int)
    requires Ascending(a, lo, mid) && Ascending(b, mid, hi)
    ensures Ascending(a + b, lo, hi)
    decreases a
  {
    AscendingBounds(a, lo, mid);
    if a == [] {
      assert a + b == b;
    } else {
      AscendingJoin(a[1..], b, a[0].end, mid, hi);
      assert (a + b)[1..] == a[1..] + b;
    }
  }

  /** A declaration's text is not empty: it holds at least its keyword. */
  predicate Solid(f: Forest) {
    match f
    case Nil => true
    case Plain(_, rest) => Solid(rest)
    case Node(k, inside, rest) => (k.Class? ==> Text(inside) != "") && Solid(inside) && Solid(rest)
  }

  /** A visitor whose edits stay in front of a node's parts collects edits in text order. */
  lemma {:induction false} LeadEditsAscend(f: Forest, pos: nat, visit: Visitor)
    requires forall k, inside, p: nat :: Ascending(visit(k, inside, p), p, p + |Lead(k)|)
    ensures Ascending(Collect(f, pos, visit), pos, pos + |Text(f)|)
    decreases f
  {
    match f
    case Nil =>
    case Plain(text, rest) =>
      LeadEditsAscend(rest, pos + |text|, visit);
      AscendingFrom(Collect(rest, pos + |text|, visit), pos, pos + |text|, pos + |Text(f)|);
    case Node(k, inside, rest) =>
      var p := pos + |Lead(k)|;
      var q := p + |Text(inside)|;
      var own, a, b := visit(k, inside, pos), Collect(inside, p, visit), Collect(rest, q, visit);
      LeadEditsAscend(inside, p, visit);
      LeadEditsAscend(rest, q, visit);
      AscendingJoin(own, a, pos, p, q);
      AscendingJoin(own + a, b, pos, q, pos + |Text(f)|);
  }

  /** Constructor edits never overlap, however `new` expressions nest in each other's arguments. */
  lemma {:induction false} ConstructorEditsAscend(f: Forest, pos: nat, n: Names)
    ensures Ascending(FindConstructorCalls(f, pos, n), pos, pos + |Text(f)|)
    ensures PairwiseDisjoint(FindConstructorCalls(f, pos, n))
  {
    LeadEditsAscend(f, pos, CallVisitor(n));
    AscendingBounds(FindConstructorCalls(f, pos, n), pos, pos + |Text(f)|);
  }

  lemma {:induction false} EditsAscend(f: Forest, pos: nat, n: Names)
    requires Solid(f) && NothingInsideDecls(f, n)
    ensures Ascending(EditsInOrder(f, pos, n), pos, pos + |Text(f)|)
    decreases f
  {
    match f
    case Nil =>
    case Plain(text, rest) =>
      EditsAscend(rest, pos + |text|, n);
      AscendingFrom(EditsInOrder(rest, pos + |text|, n), pos, pos + |text|, pos + |Text(f)|);
    case Node(k, inside, rest) =>
      var p := pos + |Lead(k)|;
      var q := p + |Text(inside)|;
      EditsAscend(rest, q, n);
      if !Migrates(k) {
        EditsAscend(inside, p, n);
      }
      NodeEditsAscend(k, inside, rest, pos, n, p, q, q + |Text(rest)|);
  }

  lemma {:induction false} NodeEditsAscend(k: Kind, inside: Forest, rest: Forest, pos: nat, n: Names, p: nat, q: nat,
                                           end: nat)
    requires p == pos + |Lead(k)| && q == p + |Text(inside)| && (k.Class? ==> Text(inside) != "")
    requires if Migrates(k) then Quiet(inside, n) else Ascending(EditsInOrder(inside, p, n), p, q)
    requires Ascending(EditsInOrder(rest, q, n), q, end)
    ensures Ascending(EditsInOrder(Node(k, inside, rest), pos, n), pos, end)
  {
    var own := Both(OwnDeclEdit, CallVisitor(n))(k, inside, pos);
    var a, b := EditsInOrder(inside, p, n), EditsInOrder(rest, q, n);
    CollectNode(k, inside, rest, pos, Both(OwnDeclEdit, CallVisitor(n)), p, q);
    hide Collect, Text;
    assert own == OwnDeclEdit(k, inside, pos) + OwnCallEdit(k, pos, n);
    if Migrates(k) {
      QuietFindsNothing(inside, p, n);
      assert own + a == own;
      assert Ascending(own, pos, q);
    } else {
      assert Ascending(own, pos, p);
      AscendingJoin(own, a, pos, p, q);
    }
    AscendingJoin(own + a, b, pos, q, end);
  }

  lemma {:induction false} EditsStayInside(f: Forest, pos: nat, n: Names, e: Edit)
    requires Solid(f) && e in EditsInOrder(f, pos, n)
    ensures pos <= e.start < e.end <= pos + |Text(f)|
    decreases f
  {
    if f.Plain? {
      EditsStayInside(f.rest, pos + |f.text|, n, e);
    } else if f.Node? {
      var p := pos + |Lead(f.kind)|;
      var q := p + |Text(f.inside)|;
      CollectNode(f.kind, f.inside, f.rest, pos, Both(OwnDeclEdit, CallVisitor(n)), p, q);
      if e in EditsInOrder(f.inside, p, n) {
        EditsStayInside(f.inside, p, n, e);
      } else if e in EditsInOrder(f.rest, q, n) {
        EditsStayInside(f.rest, q, n, e);
      } else {
        OwnEditStaysInside(f.kind, f.inside, pos, n, e);
      }
    }
  }

  lemma {:induction false} OwnEditStaysInside(k: Kind, inside: Forest, pos: nat, n: Names, e: Edit)
    requires k.Class? ==> Text(inside) != ""
    requires e in Both(OwnDeclEdit, CallVisitor(n))(k, inside, pos)
    ensures pos <= e.start < e.end <= pos + |Lead(k)| + |Text(inside)|
  {
    assert e in OwnDeclEdit(k, inside, pos) || e in OwnCallEdit(k, pos, n);
  }

  lemma {:induction false} PartsOfDisjoint(a: seq<Edit>, b: seq<Edit>, c: seq<Edit>)
    requires PairwiseDisjoint(a + b + c)
    ensures PairwiseDisjoint(b) && PairwiseDisjoint(c)
    ensures a != [] && b != [] ==> Disjoint(a[0], b[0])
  {
    var all := a + b + c;
    assert forall i :: 0 <= i < |b| ==> b[i] == all[|a| + i];
    assert forall i :: 0 <= i < |c| ==> c[i] == all[|a| + |b| + i];
    if a != [] && b != [] {
      assert a[0] == all[0];
    }
  }

  lemma {:induction false} DisjointLeavesDeclsClear(f: Forest, pos: nat, n: Names)
    requires Solid(f) && PairwiseDisjoint(EditsInOrder(f, pos, n))
    ensures NothingInsideDecls(f, n)
    decreases f
  {
    if f.Plain? {
      DisjointLeavesDeclsClear(f.rest, pos + |f.text|, n);
    } else if f.Node? {
      var p := pos + |Lead(f.kind)|;
      var q := p + |Text(f.inside)|;
      var visit := Both(OwnDeclEdit, CallVisitor(n));
      var a := EditsInOrder(f.inside, p, n);
      CollectNode(f.kind, f.inside, f.rest, pos, visit, p, q);
      PartsOfDisjoint(visit(f.kind, f.inside, pos), a, EditsInOrder(f.rest, q, n));
      DisjointLeavesDeclsClear(f.rest, q, n);
      if Migrates(f.kind) {
        if a != [] {
          EditsStayInside(f.inside, p, n, a[0]);
          assert false;
        }
        QuietFindsNothing(f.inside, p, n);
      } else {
        DisjointLeavesDeclsClear(f.inside, p, n);
      }
    }
  }

  lemma {:induction false} FoundEditsAreNonEmpty(f: Forest, n: Names)
    requires Solid(f)
    ensures multiset(EditsInOrder(f, 0, n)) == multiset(FoundEdits(f, n))
    ensures NonEmpty(EditsInOrder(f, 0, n)) && NonEmpty(FoundEdits(f, n))
  {
    OneWalkCollectsBoth(f, 0, OwnDeclEdit, CallVisitor(n));
    forall e | e in EditsInOrder(f, 0, n)
      ensures e.start < e.end
    {
      EditsStayInside(f, 0, n, e);
    }
    forall e | e in FoundEdits(f, n)
      ensures e.start < e.end
    {
      assert e in multiset(EditsInOrder(f, 0, n));
    }
  }

  /** The declaration and constructor edits of a file are disjoint exactly when no edit is
      found inside a rewritten declaration. */
  lemma {:induction false} FoundEditsDisjointExactlyWhen(f: Forest, n: Names)
    requires Solid(f)
    ensures PairwiseDisjoint(FoundEdits(f, n)) <==> NothingInsideDecls(f, n)
  {
    FoundEditsAreNonEmpty(f, n);
    if NothingInsideDecls(f, n) {
      EditsAscend(f, 0, n);
      AscendingBounds(EditsInOrder(f, 0, n), 0, |Text(f)|);
      DisjointOfPermutation(FoundEdits(f, n), EditsInOrder(f, 0, n));
    }
    if PairwiseDisjoint(FoundEdits(f, n)) {
      DisjointOfPermutation(EditsInOrder(f, 0, n), FoundEdits(f, n));
      DisjointLeavesDeclsClear(f, 0, n);
    }
  }

  // ----- the tree the edits stand for

  function RewrittenDecl(d: ClassDecl, fields: Forest): Forest {
    Plain(Before(d), Node(Other, fields, Plain(After(d), Nil)))
  }

  /** Each migrated declaration becomes the struct and type alias around its own field
      expression, each constructor call of a migrated class a call of `make`. */
  function Rewrite(f: Forest, n: Names): Forest {
    match f
    case Nil => Nil
    case Plain(text, rest) => Plain(text, Rewrite(rest, n))
    case Node(k, inside, rest) => Rebuilt(k, Rewrites(n, k), FieldsOf(inside), Rewrite(inside, n), Rewrite(rest, n))
  }

  /** A node with its field expression, its parts and what follows replaced, and itself if it is a
      migrated declaration or a call to be rewritten. */
  function Rebuilt(k: Kind, call: bool, fields: Forest, inside: Forest, rest: Forest): Forest
    requires call ==> k.New?
  {
    if Migrates(k) then Node(Other, RewrittenDecl(k.decl, fields), rest)
    else if call then Node(Other, Plain(k.callee + ".make", inside), rest)
    else Node(k, inside, rest)
  }

  lemma {:induction false} RewrittenDeclText(d: ClassDecl, fields: Forest)
    ensures Text(RewrittenDecl(d, fields)) == BuildReplacement(d, Text(fields))
  {
    hide Before, After;
    var tail := Plain(After(d), Nil);
    assert Text(Nil) == "";
    assert Text(tail) == After(d) + "" == After(d);
    var middle := Node(Other, fields, tail);
    assert Text(middle) == "" + Text(fields) + Text(tail) == Text(fields) + After(d);
    assert Text(Plain(Before(d), middle)) == Before(d) + (Text(fields) + After(d))
      == Before(d) + Text(fields) + After(d);
  }

  // ----- what the splice makes of a file

  /** Splicing all edits of these pieces, from the right, given what that has made of the text
      behind them. A rewritten declaration goes by the length its text had before the edits
      inside it. */
  function Spliced(f: Forest, n: Names, behind: string): string {
    match f
    case Nil => behind
    case Plain(text, rest) => text + Spliced(rest, n, behind)
    case Node(k, inside, rest) =>
      OwnSpliced(k, inside, n, Spliced(inside, n, Spliced(rest, n, behind)))
  }

  /** The edit of one node itself, given what the splice has made of its parts and the text behind. */
  function OwnSpliced(k: Kind, inside: Forest, n: Names, parts: string): string {
    if Migrates(k) then BuildReplacement(k.decl, Text(FieldsOf(inside))) + SliceFrom(parts, |Text(inside)|)
    else NewLead(k, n) + parts
  }

  /** What becomes of the text of a node in front of its parts. */
  function NewLead(k: Kind, n: Names): string { if Rewrites(n, k) then k.callee + ".make" else Lead(k) }

  lemma Regroup(a: string, b: string, c: string)
    ensures a + (b + c) == a + b + c
  {
  }

  lemma {:induction false} OwnSplice(head: string, k: Kind, inside: Forest, n: Names, parts: string)
    ensures SpliceAll(head + Lead(k) + parts, Reversed(Both(OwnDeclEdit, CallVisitor(n))(k, inside, |head|)))
         == head + OwnSpliced(k, inside, n, parts)
  {
    hide BuildReplacement, FieldsOf, Text, SpliceAll, Reversed, Splice;
    var own := Both(OwnDeclEdit, CallVisitor(n))(k, inside, |head|);
    assert own == OwnDeclEdit(k, inside, |head|) + OwnCallEdit(k, |head|, n);
    if Migrates(k) {
      var e := Edit(|head|, |head| + |Text(inside)|, BuildReplacement(k.decl, Text(FieldsOf(inside))));
      assert own == [e];
      OneEditSplices(head, Lead(k), parts, e);
    } else if Rewrites(n, k) {
      var e := Edit(|head|, |head| + |Lead(k)|, k.callee + ".make");
      assert own == [e];
      OneEditSplices(head, Lead(k), parts, e);
      assert SliceFrom(parts, 0) == parts;
    } else {
      assert own == [];
      SpliceNothing(head + Lead(k) + parts);
      Regroup(head, Lead(k), parts);
    }
  }

  lemma {:induction false} OneEditSplices(head: string, lead: string, parts: string, e: Edit)
    requires e.start == |head| && |head| + |lead| <= e.end
    ensures SpliceAll(head + lead + parts, Reversed([e]))
         == head + (e.replacement + SliceFrom(parts, e.end - |head| - |lead|))
  {
    hide SpliceAll, Reversed, Splice;
    ReversedOne(e);
    SpliceOne(head + lead + parts, e);
    SpliceBehind(head, lead, parts, e);
  }

  lemma {:induction false} ReversedOne(e: Edit)
    ensures Reversed([e]) == [e]
  {
    assert [e][..0] == [];
  }

  lemma {:induction false} SpliceBehind(head: string, lead: string, parts: string, e: Edit)
    requires e.start == |head| && |head| + |lead| <= e.end
    ensures Splice(head + lead + parts, e) == head + (e.replacement + SliceFrom(parts, e.end - |head| - |lead|))
  {
    var all := head + lead + parts;
    var k := e.end - |head| - |lead|;
    assert SliceTo(all, e.start) == head;
    assert SliceFrom(all, e.end) == SliceFrom(parts, k);
  }

  lemma SpliceNothing(text: string)
    ensures SpliceAll(text, Reversed([])) == text
  {
  }

  /** The splice of a walk's edits, in the order the walk meets them, from the right. */
  lemma {:induction false} WalkSplices(head: string, f: Forest, behind: string, n: Names)
    ensures SpliceAll(head + Text(f) + behind, Reversed(EditsInOrder(f, |head|, n))) == head + Spliced(f, n, behind)
    decreases f
  {
    hide Collect, SpliceAll, Reversed;
    match f
    case Nil =>
      CollectNil(|head|, Both(OwnDeclEdit, CallVisitor(n)));
      assert head + Text(f) + behind == head + behind;
      SpliceNothing(head + behind);
    case Plain(text, rest) =>
      CollectPlain(text, rest, |head|, Both(OwnDeclEdit, CallVisitor(n)));
      WalkSplices(head + text, rest, behind, n);
      assert head + text + Text(rest) + behind == head + Text(f) + behind;
      assert head + text + Spliced(rest, n, behind) == head + (text + Spliced(rest, n, behind));
    case Node(k, inside, rest) =>
      var lead, later, visit := head + Lead(k), Spliced(rest, n, behind), Both(OwnDeclEdit, CallVisitor(n));
      var upTo := lead + Text(inside);
      WalkSplices(upTo, rest, behind, n);
      WalkSplices(lead, inside, later, n);
      NodeTextJoins(head, k, inside, rest, behind);
      hide Text, Lead, OwnSpliced, OwnDeclEdit, OwnCallEdit, Both;
      CollectNode(k, inside, rest, |head|, visit, |lead|, |upTo|);
      OwnSplice(head, k, inside, n, Spliced(inside, n, later));
      SpliceThree(head + Text(f) + behind, visit(k, inside, |head|), EditsInOrder(inside, |lead|, n),
                  EditsInOrder(rest, |upTo|, n));
  }

  lemma {:induction false} NodeTextJoins(head: string, k: Kind, inside: Forest, rest: Forest, behind: string)
    ensures head + Text(Node(k, inside, rest)) + behind == head + Lead(k) + Text(inside) + Text(rest) + behind
  {
    var a, b, c := Lead(k), Text(inside), Text(rest);
    assert Text(Node(k, inside, rest)) == a + b + c;
    hide Text, Lead;
    Regroup(head, a + b, c);
    Regroup(head, a, b);
  }

  /** A declaration starts with text of its own, a modifier or its keyword. */
  predicate Led(f: Forest) {
    match f
    case Nil => true
    case Plain(_, rest) => Led(rest)
    case Node(k, inside, rest) => (k.Class? ==> inside.Plain? && inside.text != "") && Led(inside) && Led(rest)
  }

  /** Starts strictly ascending within [lo, hi). */
  predicate StartsAscend(edits: seq<Edit>, lo: nat, hi: nat) {
    && lo <= hi
    && (forall e :: e in edits ==> lo <= e.start < hi)
    && forall i, j :: 0 <= i < j < |edits| ==> edits[i].start < edits[j].start
  }

  lemma StartsJoin(a: seq<Edit>, b: seq<Edit>, lo: nat, mid: nat, hi: nat)
    requires StartsAscend(a, lo, mid) && StartsAscend(b, mid, hi)
    ensures StartsAscend(a + b, lo, hi)
  {
  }

  lemma TextLengths(k: Kind, text: string, inside: Forest, rest: Forest)
    ensures |Text(Plain(text, rest))| == |text| + |Text(rest)|
    ensures |Text(Node(k, inside, rest))| == |Lead(k)| + |Text(inside)| + |Text(rest)|
  {
  }

  lemma {:induction false} WalkStartsAscend(f: Forest, pos: nat, n: Names)
    requires Led(f)
    ensures StartsAscend(EditsInOrder(f, pos, n), pos, pos + |Text(f)|)
    decreases f
  {
    hide Collect, Text, Lead, OwnDeclEdit, OwnCallEdit, Both;
    var visit := Both(OwnDeclEdit, CallVisitor(n));
    match f
    case Nil =>
      CollectNil(pos, visit);
    case Plain(text, rest) =>
      TextLengths(Other, text, Nil, rest);
      CollectPlain(text, rest, pos, visit);
      WalkStartsAscend(rest, pos + |text|, n);
    case Node(k, inside, rest) =>
      hide StartsAscend;
      var p := pos + |Lead(k)|;
      var q := p + |Text(inside)|;
      TextLengths(k, "", inside, rest);
      WalkStartsAscend(rest, q, n);
      CollectNode(k, inside, rest, pos, visit, p, q);
      var first := if k.Class? then p + |inside.text| else p;
      if k.Class? {
        TextLengths(k, inside.text, Nil, inside.rest);
        WalkStartsAscend(inside.rest, first, n);
        CollectPlain(inside.text, inside.rest, p, visit);
      } else {
        WalkStartsAscend(inside, p, n);
      }
      OwnStart(k, inside, pos, n, first);
      StartsJoin(visit(k, inside, pos), EditsInOrder(inside, p, n), pos, first, q);
      StartsJoin(visit(k, inside, pos) + EditsInOrder(inside, p, n), EditsInOrder(rest, q, n), pos, q, pos + |Text(f)|);
  }

  lemma {:induction false} OwnStart(k: Kind, inside: Forest, pos: nat, n: Names, first: nat)
    requires if k.Class? then pos + |Lead(k)| < first else first == pos + |Lead(k)|
    ensures StartsAscend(Both(OwnDeclEdit, CallVisitor(n))(k, inside, pos), pos, first)
  {
    hide BuildReplacement, Text, FieldsOf;
    assert Both(OwnDeclEdit, CallVisitor(n))(k, inside, pos) == OwnDeclEdit(k, inside, pos) + OwnCallEdit(k, pos, n);
  }

  lemma {:induction false} ReversedStartsDescend(edits: seq<Edit>, lo: nat, hi: nat)
    requires StartsAscend(edits, lo, hi)
    ensures Descending(Reversed(edits)) && forall e :: e in Reversed(edits) ==> e in edits
    decreases edits
  {
    if edits != [] {
      var n := |edits| - 1;
      ReversedStartsDescend(edits[..n], lo, hi);
      forall e | e in Reversed(edits[..n])
        ensures e.start < edits[n].start && e in edits
      {
        assert e in edits[..n];
      }
    }
  }

  /** Whatever order the edits are found in, the splice takes them from the right. */
  lemma {:induction false} FoundEditsSorted(f: Forest, n: Names)
    requires Descending(Reversed(EditsInOrder(f, 0, n)))
    ensures SpliceAll(Text(f), SortDescending(FoundEdits(f, n))) == Spliced(f, n, "")
  {
    hide Text, Collect, SortDescending, SpliceAll, Reversed, Spliced;
    OneWalkCollectsBoth(f, 0, OwnDeclEdit, CallVisitor(n));
    ReversedIsPermutation(EditsInOrder(f, 0, n));
    SortOfPermutation(FoundEdits(f, n), Reversed(EditsInOrder(f, 0, n)));
    WalkSplices("", f, "", n);
    assert "" + Text(f) + "" == Text(f) && "" + Spliced(f, n, "") == Spliced(f, n, "");
  }

  /** What `applyEdits` makes of a file and the edits found in it, for every file. */
  lemma {:induction false} CodemodResult(f: Forest, n: Names)
    requires Led(f)
    ensures SpliceAll(Text(f), SortDescending(FoundEdits(f, n))) == Spliced(f, n, "")
  {
    hide Collect, SortDescending, SpliceAll, Reversed, Spliced;
    WalkStartsAscend(f, 0, n);
    ReversedStartsDescend(EditsInOrder(f, 0, n), 0, |Text(f)|);
    FoundEditsSorted(f, n);
  }

  lemma {:induction false} QuietSplices(f: Forest, n: Names, behind: string)
    requires Quiet(f, n)
    ensures Spliced(f, n, behind) == Text(f) + behind
    decreases f
  {
    if f.Plain? {
      QuietSplices(f.rest, n, behind);
    } else if f.Node? {
      QuietSplices(f.rest, n, behind);
      QuietSplices(f.inside, n, Text(f.rest) + behind);
    }
  }

  /** The text of a rewritten node without what follows it. */
  function Front(k: Kind, inside: Forest, n: Names): string {
    if Migrates(k) then BuildReplacement(k.decl, Text(FieldsOf(inside))) else NewLead(k, n) + Text(Rewrite(inside, n))
  }

  lemma TextOfOther(inside: Forest, rest: Forest)
    ensures Text(Node(Other, inside, rest)) == Text(inside) + Text(rest)
  {
  }

  lemma {:induction false} RebuiltText(k: Kind, call: bool, fields: Forest, inside: Forest, rest: Forest)
    requires call ==> k.New?
    ensures Text(Rebuilt(k, call, fields, inside, rest))
         == (if Migrates(k) then BuildReplacement(k.decl, Text(fields))
             else (if call then k.callee + ".make" else Lead(k)) + Text(inside)) + Text(rest)
  {
    hide RewrittenDecl, BuildReplacement;
    if Migrates(k) {
      RewrittenDeclText(k.decl, fields);
      TextOfOther(RewrittenDecl(k.decl, fields), rest);
    } else if call {
      TextOfOther(Plain(k.callee + ".make", inside), rest);
    }
  }

  lemma {:induction false} RewriteNodeText(k: Kind, inside: Forest, rest: Forest, n: Names)
    ensures Text(Rewrite(Node(k, inside, rest), n)) == Front(k, inside, n) + Text(Rewrite(rest, n))
  {
    RebuiltText(k, Rewrites(n, k), FieldsOf(inside), Rewrite(inside, n), Rewrite(rest, n));
    hide Text, Rebuilt, BuildReplacement, FieldsOf;
  }

  lemma {:induction false} ClearSplices(f: Forest, n: Names, behind: string)
    requires NothingInsideDecls(f, n)
    ensures Spliced(f, n, behind) == Text(Rewrite(f, n)) + behind
    decreases f
  {
    match f
    case Nil =>
    case Plain(text, rest) =>
      ClearSplices(rest, n, behind);
      Regroup(text, Text(Rewrite(rest, n)), behind);
    case Node(k, inside, rest) =>
      ClearSplices(rest, n, behind);
      RewriteNodeText(k, inside, rest, n);
      var later := Text(Rewrite(rest, n)) + behind;
      if !Migrates(k) { ClearSplices(inside, n, later); }
      hide Rewrite, OwnSpliced, Front, Text;
      ClearNodeSplices(k, inside, n, later);
      Regroup(Front(k, inside, n), Text(Rewrite(rest, n)), behind);
  }

  /** A node with nothing found inside it, in front of text that has been spliced. */
  lemma {:induction false} ClearNodeSplices(k: Kind, inside: Forest, n: Names, tail: string)
    requires if Migrates(k) then Quiet(inside, n) else Spliced(inside, n, tail) == Text(Rewrite(inside, n)) + tail
    ensures OwnSpliced(k, inside, n, Spliced(inside, n, tail)) == Front(k, inside, n) + tail
  {
    hide BuildReplacement, NewLead, Rewrite, FieldsOf;
    if Migrates(k) {
      QuietSplices(inside, n, tail);
      assert SliceFrom(Text(inside) + tail, |Text(inside)|) == tail;
    }
  }

  /** For every file where no edit is found inside a rewritten declaration, what `applyEdits` makes
      of the text and the found edits is the text of the rewritten tree. */
  lemma {:induction false} CodemodRewritesTheTree(f: Forest, n: Names)
    requires Solid(f) && NothingInsideDecls(f, n)
    ensures SpliceAll(Text(f), SortDescending(FoundEdits(f, n))) == Text(Rewrite(f, n))
  {
    hide Rewrite, Collect, SortDescending, SpliceAll, FoundEdits, Spliced;
    EditsAscend(f, 0, n);
    ReversedDescends(EditsInOrder(f, 0, n), 0, |Text(f)|);
    FoundEditsSorted(f, n);
    ClearSplices(f, n, "");
    assert Text(Rewrite(f, n)) + "" == Text(Rewrite(f, n));
  }

  lemma {:induction false} FieldsOfQuiet(f: Forest, n: Names)
    requires Quiet(f, n)
    ensures Quiet(FieldsOf(f), n)
    decreases f
  {
    if !f.Nil? && !(f.Node? && f.kind.Fields?) {
      FieldsOfQuiet(f.rest, n);
    }
  }

  lemma {:induction false} RewrittenDeclQuiet(d: ClassDecl, fields: Forest, n: Names)
    requires Quiet(fields, n)
    ensures Quiet(RewrittenDecl(d, fields), n)
  {
    assert Quiet(Plain(After(d), Nil), n);
  }

  /** The rewritten tree holds nothing more to migrate or rewrite, even under the same names. */
  lemma {:induction false} RewriteIsQuiet(f: Forest, n: Names)
    requires NothingInsideDecls(f, n)
    ensures Quiet(Rewrite(f, n), n)
    decreases f
  {
    if f.Plain? {
      RewriteIsQuiet(f.rest, n);
    } else if f.Node? {
      RewriteIsQuiet(f.rest, n);
      if Migrates(f.kind) {
        FieldsOfQuiet(f.inside, n);
        RewrittenDeclQuiet(f.kind.decl, FieldsOf(f.inside), n);
      } else {
        RewriteIsQuiet(f.inside, n);
      }
    }
  }

  // ----- edits inside a rewritten declaration

  predicate NoDecls(f: Forest) {
    match f
    case Nil => true
    case Plain(_, rest) => NoDecls(rest)
    case Node(k, inside, rest) => !Migrates(k) && NoDecls(inside) && NoDecls(rest)
  }

  /** What the calls found in these pieces add: `new` and the gap behind it go, `.make` comes. */
  function CallGrowth(f: Forest, n: Names): int {
    match f
    case Nil => 0
    case Plain(_, rest) => CallGrowth(rest, n)
    case Node(k, inside, rest) =>
      (if Rewrites(n, k) then 2 - |k.gap| else 0) + CallGrowth(inside, n) + CallGrowth(rest, n)
  }

  lemma {:induction false} CallsGrow(f: Forest, n: Names)
    requires NoDecls(f)
    ensures NothingInsideDecls(f, n) && |Text(Rewrite(f, n))| == |Text(f)| + CallGrowth(f, n)
    decreases f
  {
    if f.Plain? {
      CallsGrow(f.rest, n);
    } else if f.Node? {
      CallsGrow(f.inside, n);
      CallsGrow(f.rest, n);
      RewriteNodeText(f.kind, f.inside, f.rest, n);
      hide Rewrite;
    }
  }

  /** A file in which exactly one rewritten declaration, at any depth, has calls found inside it. */
  predicate OneNested(f: Forest, n: Names) {
    match f
    case Nil => false
    case Plain(_, rest) => OneNested(rest, n)
    case Node(k, inside, rest) =>
      if (if Migrates(k) then Quiet(inside, n) else NothingInsideDecls(inside, n)) then OneNested(rest, n)
      else (if Migrates(k) then NoDecls(inside) else OneNested(inside, n)) && NothingInsideDecls(rest, n)
  }

  /** The parts of that declaration, and the text that is to follow it. */
  function Nested(f: Forest, n: Names): (Forest, string)
    requires OneNested(f, n)
  {
    match f
    case Plain(_, rest) => Nested(rest, n)
    case Node(k, inside, rest) =>
      if (if Migrates(k) then Quiet(inside, n) else NothingInsideDecls(inside, n)) then Nested(rest, n)
      else if Migrates(k) then (inside, Text(Rewrite(rest, n)))
      else (Nested(inside, n).0, Nested(inside, n).1 + Text(Rewrite(rest, n)))
  }

  /** What the splice leaves where the text that is to follow the declaration should stand. */
  function Remainder(decl: Forest, n: Names, after: string): string {
    SliceFrom(Text(Rewrite(decl, n)) + after, |Text(decl)|)
  }

  /** The result agrees with the rewritten tree up to and including the declaration. */
  ghost predicate AgreesUpTo(result: string, whole: string, after: string, remainder: string) {
    |after| <= |whole| && whole[|whole| - |after|..] == after && result == whole[..|whole| - |after|] + remainder
  }

  lemma {:induction false} AgreesInFront(lead: string, result: string, whole: string, after: string, remainder: string)
    requires AgreesUpTo(result, whole, after, remainder)
    ensures AgreesUpTo(lead + result, lead + whole, after, remainder)
  {
    var k := |whole| - |after|;
    assert (lead + whole)[..|lead| + k] == lead + whole[..k];
    assert (lead + whole)[|lead| + k..] == whole[k..];
    assert lead + (whole[..k] + remainder) == lead + whole[..k] + remainder;
  }

  /** What the splice makes of the file agrees with the rewritten tree, up to the remainder. */
  ghost predicate SplicesUpToNested(f: Forest, n: Names, behind: string)
    requires OneNested(f, n)
  {
    var d := Nested(f, n);
    AgreesUpTo(Spliced(f, n, behind), Text(Rewrite(f, n)) + behind, d.1 + behind, Remainder(d.0, n, d.1 + behind))
  }

  lemma {:induction false} NestedSplices(f: Forest, n: Names, behind: string)
    requires OneNested(f, n)
    ensures SplicesUpToNested(f, n, behind)
    decreases f
  {
    hide SplicesUpToNested;
    match f
    case Plain(text, rest) =>
      NestedSplices(rest, n, behind);
      NestedBehindPlain(text, rest, n, behind);
    case Node(k, inside, rest) =>
      if if Migrates(k) then Quiet(inside, n) else NothingInsideDecls(inside, n) {
        NestedSplices(rest, n, behind);
        NestedBehindNode(k, inside, rest, n, behind);
      } else if Migrates(k) {
        NestedHere(k, inside, rest, n, behind);
      } else {
        NestedSplices(inside, n, Text(Rewrite(rest, n)) + behind);
        NestedInNode(k, inside, rest, n, behind);
      }
  }

  lemma {:induction false} NestedBehindPlain(text: string, rest: Forest, n: Names, behind: string)
    requires OneNested(rest, n) && SplicesUpToNested(rest, n, behind)
    ensures SplicesUpToNested(Plain(text, rest), n, behind)
  {
    var d, later := Nested(rest, n), Text(Rewrite(rest, n)) + behind;
    assert text + later == Text(Rewrite(Plain(text, rest), n)) + behind;
    hide Remainder, AgreesUpTo, Text, Rewrite, OneNested;
    AgreesInFront(text, Spliced(rest, n, behind), later, d.1 + behind, Remainder(d.0, n, d.1 + behind));
  }

  lemma {:induction false} NestedBehindNode(k: Kind, inside: Forest, rest: Forest, n: Names, behind: string)
    requires OneNested(rest, n) && SplicesUpToNested(rest, n, behind)
    requires if Migrates(k) then Quiet(inside, n) else NothingInsideDecls(inside, n)
    ensures SplicesUpToNested(Node(k, inside, rest), n, behind)
  {
    hide Remainder, AgreesUpTo, Text, Rewrite, OwnSpliced, Front, Quiet, NothingInsideDecls, NoDecls;
    var d, later, tail := Nested(rest, n), Text(Rewrite(rest, n)) + behind, Spliced(rest, n, behind);
    var front := Front(k, inside, n);
    RewriteNodeText(k, inside, rest, n);
    if !Migrates(k) { ClearSplices(inside, n, tail); }
    ClearNodeSplices(k, inside, n, tail);
    AgreesInFront(front, tail, later, d.1 + behind, Remainder(d.0, n, d.1 + behind));
    Regroup(front, Text(Rewrite(rest, n)), behind);
  }

  lemma {:induction false} NestedHere(k: Kind, inside: Forest, rest: Forest, n: Names, behind: string)
    requires Migrates(k) && !Quiet(inside, n) && NoDecls(inside) && NothingInsideDecls(rest, n)
    ensures SplicesUpToNested(Node(k, inside, rest), n, behind)
  {
    hide Remainder, AgreesUpTo, Text, Rewrite, BuildReplacement, FieldsOf, Quiet, NothingInsideDecls, NoDecls,
         SliceFrom;
    var later := Text(Rewrite(rest, n)) + behind;
    RewriteNodeText(k, inside, rest, n);
    CallsGrow(inside, n);
    ClearSplices(rest, n, behind);
    ClearSplices(inside, n, later);
    var front := BuildReplacement(k.decl, Text(FieldsOf(inside)));
    AgreesAt(front, inside, n, later);
    Regroup(front, Text(Rewrite(rest, n)), behind);
  }

  lemma {:induction false} NestedInNode(k: Kind, inside: Forest, rest: Forest, n: Names, behind: string)
    requires !Migrates(k) && !NothingInsideDecls(inside, n) && OneNested(inside, n) && NothingInsideDecls(rest, n)
    requires SplicesUpToNested(inside, n, Text(Rewrite(rest, n)) + behind)
    ensures SplicesUpToNested(Node(k, inside, rest), n, behind)
  {
    hide Remainder, AgreesUpTo, Text, Rewrite, NewLead, NothingInsideDecls, Quiet, NoDecls;
    var d, lead, mid, last := Nested(inside, n), NewLead(k, n), Text(Rewrite(inside, n)), Text(Rewrite(rest, n));
    var later := last + behind;
    RewriteNodeText(k, inside, rest, n);
    ClearSplices(rest, n, behind);
    Regroup(d.1, last, behind);
    AgreesInFront(lead, Spliced(inside, n, later), mid + later, d.1 + later, Remainder(d.0, n, d.1 + later));
    Regroup(lead, mid, later);
    Regroup(lead + mid, last, behind);
  }

  lemma {:induction false} AgreesAt(front: string, decl: Forest, n: Names, after: string)
    ensures AgreesUpTo(front + SliceFrom(Text(Rewrite(decl, n)) + after, |Text(decl)|), front + after, after,
                       Remainder(decl, n, after))
  {
    hide Text, Rewrite;
    assert (front + after)[..|front|] == front && (front + after)[|front|..] == after;
  }

  /** The calls found inside the declaration add `grown` characters. If that is more than none,
      the last `grown` characters of the declaration are left behind its replacement; if it is
      less, the splice eats as many from the text behind it. */
  lemma {:induction false} RemainderByGrowth(decl: Forest, n: Names, after: string)
    requires NoDecls(decl)
    ensures var inner, grown := Text(Rewrite(decl, n)), CallGrowth(decl, n);
      && grown <= |inner|
      && Remainder(decl, n, after) == if grown >= 0 then inner[|inner| - grown..] + after else SliceFrom(after, -grown)
    ensures Remainder(decl, n, after) == after <==> CallGrowth(decl, n) == 0 || (CallGrowth(decl, n) < 0 && after == "")
  {
    CallsGrow(decl, n);
    hide Text, Rewrite, CallGrowth, NoDecls;
    SliceAt(Text(Rewrite(decl, n)), after, |Text(decl)|);
  }

  lemma {:induction false} SliceAt(inner: string, after: string, at: nat)
    ensures SliceFrom(inner + after, at)
         == if at <= |inner| then inner[at..] + after else SliceFrom(after, at - |inner|)
    ensures SliceFrom(inner + after, at) == after <==> at == |inner| || (at > |inner| && after == "")
  {
    if at <= |inner| {
      assert |SliceFrom(inner + after, at)| == |inner| - at + |after|;
    }
  }

  lemma {:induction false} NestedHasNoDecls(f: Forest, n: Names)
    requires OneNested(f, n)
    ensures NoDecls(Nested(f, n).0)
    decreases f
  {
    if f.Plain? {
      NestedHasNoDecls(f.rest, n);
    } else if if Migrates(f.kind) then Quiet(f.inside, n) else NothingInsideDecls(f.inside, n) {
      NestedHasNoDecls(f.rest, n);
    } else if !Migrates(f.kind) {
      NestedHasNoDecls(f.inside, n);
    }
  }

  /** With calls found inside one rewritten declaration, anywhere in a file, the splice agrees with
      the rewritten tree up to that declaration, then goes on with the remainder above; so the cut
      falls at the right place exactly when the calls add nothing, or take away and no text follows. */
  lemma {:induction false} CutFallsRightExactlyWhen(f: Forest, n: Names)
    requires Led(f) && OneNested(f, n)
    ensures var result, whole := SpliceAll(Text(f), SortDescending(FoundEdits(f, n))), Text(Rewrite(f, n));
      var d := Nested(f, n); var grown := CallGrowth(d.0, n);
      && NoDecls(d.0) && AgreesUpTo(result, whole, d.1, Remainder(d.0, n, d.1))
      && (result == whole <==> grown == 0 || (grown < 0 && d.1 == ""))
  {
    hide Text, Rewrite, SpliceAll, SortDescending, FoundEdits, Spliced, Nested, Remainder, CallGrowth, Led, NoDecls,
         OneNested;
    var d := Nested(f, n);
    CodemodResult(f, n);
    NestedSplices(f, n, "");
    NestedHasNoDecls(f, n);
    RemainderByGrowth(d.0, n, d.1);
    assert Text(Rewrite(f, n)) + "" == Text(Rewrite(f, n)) && d.1 + "" == d.1;
    var whole := Text(Rewrite(f, n));
    assert whole == whole[..|whole| - |d.1|] + d.1;
  }

  // ----- field expressions rewritten too

  /** What the codemod is for: `Rewrite`, with the calls in the field expressions of migrated
      declarations rewritten as well. */
  function FullRewrite(f: Forest, n: Names): Forest {
    match f
    case Nil => Nil
    case Plain(text, rest) => Plain(text, FullRewrite(rest, n))
    case Node(k, inside, rest) =>
      var full := FullRewrite(inside, n);
      Rebuilt(k, Rewrites(n, k), FieldsOf(full), full, FullRewrite(rest, n))
  }

  lemma {:induction false} FieldsOfFull(f: Forest, n: Names)
    ensures FieldsOf(FullRewrite(f, n)) == FullRewrite(FieldsOf(f), n)
    decreases f
  {
    if !f.Nil? { FieldsOfFull(f.rest, n); }
  }

  lemma {:induction false} QuietIsFull(f: Forest, n: Names)
    requires Quiet(f, n)
    ensures FullRewrite(f, n) == f
    decreases f
  {
    if f.Plain? {
      QuietIsFull(f.rest, n);
    } else if f.Node? {
      QuietIsFull(f.inside, n);
      QuietIsFull(f.rest, n);
    }
  }

  /** Where nothing is found inside rewritten declarations the two rewrites are the same. */
  lemma {:induction false} ClearIsFull(f: Forest, n: Names)
    requires NothingInsideDecls(f, n)
    ensures FullRewrite(f, n) == Rewrite(f, n)
    decreases f
  {
    if f.Plain? {
      ClearIsFull(f.rest, n);
    } else if f.Node? {
      ClearIsFull(f.rest, n);
      if Migrates(f.kind) { QuietIsFull(f.inside, n); } else { ClearIsFull(f.inside, n); }
    }
  }

  /** Two texts that differ at some place within both, whatever follows them. */
  ghost predicate Diverge(a: string, b: string) {
    exists i :: 0 <= i < |a| && i < |b| && a[i] != b[i]
  }

  lemma {:induction false} DivergeAfter(front: string, a: string, b: string)
    requires Diverge(a, b)
    ensures Diverge(front + a, front + b)
  {
    var i :| 0 <= i < |a| && i < |b| && a[i] != b[i];
    assert (front + a)[|front| + i] != (front + b)[|front| + i];
  }

  lemma {:induction false} DivergeBefore(a: string, b: string, x: string, y: string)
    requires Diverge(a, b)
    ensures Diverge(a + x, b + y)
  {
    var i :| 0 <= i < |a| && i < |b| && a[i] != b[i];
    assert (a + x)[i] != (b + y)[i];
  }

  predicate IsNameChar(c: char) {
    'a' <= c <= 'z' || 'A' <= c <= 'Z' || '0' <= c <= '9' || c == '_' || c == '$' || c >= 128 as char
  }

  predicate IsIdentifier(s: string) { s != "" && s != "new" && forall c :: c in s ==> IsNameChar(c) }

  /** How TypeScript spells what is found: a callee is an identifier, something separates it from
      `new`, and a class declaration does not read like the constant that replaces it. */
  ghost predicate Spelled(f: Forest, n: Names) {
    match f
    case Nil => true
    case Plain(_, rest) => Spelled(rest, n)
    case Node(k, inside, rest) =>
      && (Migrates(k) ==> Diverge(Text(inside), Before(k.decl)))
      && (Rewrites(n, k) ==> IsIdentifier(k.callee) && k.gap != "" && !IsNameChar(k.gap[0]))
      && Spelled(inside, n) && Spelled(rest, n)
  }

  lemma {:induction false} CallDiverges(k: Kind)
    requires k.New? && IsIdentifier(k.callee) && k.gap != "" && !IsNameChar(k.gap[0])
    ensures Diverge(Lead(k), k.callee + ".make")
  {
    var a, b, c := Lead(k), k.callee + ".make", k.callee;
    assert a[0] == 'n' && a[1] == 'e' && a[2] == 'w' && a[3] == k.gap[0];
    assert b[|c|] == '.' && forall i :: 0 <= i < |c| ==> b[i] == c[i] && c[i] in c;
    if |c| >= 3 && c[0] == 'n' && c[1] == 'e' && c[2] == 'w' {
      assert |c| == 3 ==> c == "new";
      assert a[3] != b[3];
    } else if c[0] != 'n' {
      assert a[0] != b[0];
    } else if |c| == 1 || c[1] != 'e' {
      assert a[1] != b[1];
    } else {
      assert a[2] != b[2];
    }
  }

  /** Pieces in which something is found read differently once fully rewritten. */
  lemma {:induction false} LoudDiverges(f: Forest, n: Names)
    requires Spelled(f, n) && !Quiet(f, n)
    ensures Diverge(Text(f), Text(FullRewrite(f, n)))
    decreases f
  {
    match f
    case Plain(text, rest) =>
      LoudDiverges(rest, n);
      DivergeAfter(text, Text(rest), Text(FullRewrite(rest, n)));
    case Node(k, inside, rest) =>
      if !Migrates(k) && !Rewrites(n, k) {
        if Quiet(inside, n) { LoudDiverges(rest, n); } else { LoudDiverges(inside, n); }
      }
      LoudNodeDiverges(k, inside, rest, n);
  }

  lemma {:induction false} LoudNodeDiverges(k: Kind, inside: Forest, rest: Forest, n: Names)
    requires Spelled(Node(k, inside, rest), n) && !Quiet(Node(k, inside, rest), n)
    requires !Migrates(k) && !Rewrites(n, k) ==>
      if Quiet(inside, n) then Diverge(Text(rest), Text(FullRewrite(rest, n)))
      else Diverge(Text(inside), Text(FullRewrite(inside, n)))
    ensures var f := Node(k, inside, rest); Diverge(Text(f), Text(FullRewrite(f, n)))
  {
    var full, last := FullRewrite(inside, n), Text(FullRewrite(rest, n));
    var a, b, c := Lead(k), Text(inside), Text(rest);
    assert Text(Node(k, inside, rest)) == a + b + c;
    FullNodeText(k, inside, rest, n, "");
    assert forall x: string :: x + "" == x;
    hide Text, FullRewrite, Before, After, Diverge, FieldsOf, Lead;
    if Migrates(k) {
      var x, y, z := Before(k.decl), Text(FullRewrite(FieldsOf(inside), n)), After(k.decl);
      LeadOfClass(k);
      DivergeBefore(b, x, c, y + (z + last));
      Regroup(x, y, z + last);
      Regroup(x + y, z, last);
    } else if Rewrites(n, k) {
      CallDiverges(k);
      DivergeBefore(a, NewLead(k, n), b + c, Text(full) + last);
      Regroup(a, b, c);
      Regroup(NewLead(k, n), Text(full), last);
    } else if Quiet(inside, n) {
      QuietIsFull(inside, n);
      DivergeAfter(a + b, c, last);
    } else {
      DivergeAfter(a, b, Text(full));
      DivergeBefore(a + b, a + Text(full), c, last);
    }
  }

  lemma LeadOfClass(k: Kind)
    requires k.Class?
    ensures Lead(k) == "" && forall x: string :: Lead(k) + x == x
  {
  }

  /** What is found inside a migrated declaration, if anything, is found in its field expression. */
  predicate FoundInFields(f: Forest, n: Names) {
    match f
    case Nil => true
    case Plain(_, rest) => FoundInFields(rest, n)
    case Node(k, inside, rest) =>
      && (if Migrates(k) then Quiet(FieldsOf(inside), n) ==> Quiet(inside, n) else FoundInFields(inside, n))
      && FoundInFields(rest, n)
  }

  lemma {:induction false} FieldsOfSpelled(f: Forest, n: Names)
    requires Spelled(f, n)
    ensures Spelled(FieldsOf(f), n)
    decreases f
  {
    if !f.Nil? && !(f.Node? && f.kind.Fields?) {
      FieldsOfSpelled(f.rest, n);
    }
  }

  /** The splice and the full rewrite part ways at the first declaration with a find in its fields. */
  lemma {:induction false} SplicedDiverges(f: Forest, n: Names, behind: string, other: string)
    requires Spelled(f, n) && FoundInFields(f, n) && !NothingInsideDecls(f, n)
    ensures Diverge(Spliced(f, n, behind), Text(FullRewrite(f, n)) + other)
    decreases f
  {
    hide Diverge;
    match f
    case Plain(text, rest) =>
      SplicedDiverges(rest, n, behind, other);
      DivergeAfter(text, Spliced(rest, n, behind), Text(FullRewrite(rest, n)) + other);
      Regroup(text, Text(FullRewrite(rest, n)), other);
    case Node(k, inside, rest) =>
      var later := Spliced(rest, n, behind);
      if Migrates(k) && !Quiet(inside, n) {
        DeclDiverges(k, inside, rest, n, later, other);
      } else if Migrates(k) || NothingInsideDecls(inside, n) {
        SplicedDiverges(rest, n, behind, other);
        ClearNodeDiverges(k, inside, rest, n, behind, other);
      } else {
        SplicedDiverges(inside, n, later, Text(FullRewrite(rest, n)) + other);
        LoudPartsDiverge(k, inside, rest, n, behind, other);
      }
  }

  lemma {:induction false} FullNodeText(k: Kind, inside: Forest, rest: Forest, n: Names, other: string)
    ensures Text(FullRewrite(Node(k, inside, rest), n)) + other
         == (if Migrates(k) then BuildReplacement(k.decl, Text(FullRewrite(FieldsOf(inside), n)))
             else NewLead(k, n) + Text(FullRewrite(inside, n))) + (Text(FullRewrite(rest, n)) + other)
  {
    var full := FullRewrite(inside, n);
    FieldsOfFull(inside, n);
    RebuiltText(k, Rewrites(n, k), FieldsOf(full), full, FullRewrite(rest, n));
    hide Text, Rebuilt, BuildReplacement, FieldsOf;
    Regroup(if Migrates(k) then BuildReplacement(k.decl, Text(FieldsOf(full))) else NewLead(k, n) + Text(full),
            Text(FullRewrite(rest, n)), other);
  }

  lemma {:induction false} DeclDiverges(k: Kind, inside: Forest, rest: Forest, n: Names, later: string, other: string)
    requires Migrates(k) && Spelled(inside, n) && !Quiet(FieldsOf(inside), n)
    ensures Diverge(OwnSpliced(k, inside, n, Spliced(inside, n, later)),
                    Text(FullRewrite(Node(k, inside, rest), n)) + other)
  {
    hide Text, FullRewrite, Before, After, Diverge, FieldsOf, Spliced, Spelled, Quiet, SliceFrom;
    var x, y, z := Before(k.decl), After(k.decl), SliceFrom(Spliced(inside, n, later), |Text(inside)|);
    var a, b, c := Text(FieldsOf(inside)), Text(FullRewrite(FieldsOf(inside), n)), Text(FullRewrite(rest, n)) + other;
    FieldsOfSpelled(inside, n);
    LoudDiverges(FieldsOf(inside), n);
    FullNodeText(k, inside, rest, n, other);
    DivergeAfter(x, a, b);
    DivergeBefore(x + a, x + b, y + z, y + c);
    Regroup(x + a, y, z);
    Regroup(x + b, y, c);
  }

  lemma {:induction false} ClearNodeDiverges(k: Kind, inside: Forest, rest: Forest, n: Names, behind: string,
                                             other: string)
    requires if Migrates(k) then Quiet(inside, n) else NothingInsideDecls(inside, n)
    requires Diverge(Spliced(rest, n, behind), Text(FullRewrite(rest, n)) + other)
    ensures var f := Node(k, inside, rest); Diverge(Spliced(f, n, behind), Text(FullRewrite(f, n)) + other)
  {
    hide Text, FullRewrite, Diverge, FieldsOf, Quiet, NothingInsideDecls, BuildReplacement, NewLead, Rewrite,
         OwnSpliced;
    var later := Spliced(rest, n, behind);
    FullNodeText(k, inside, rest, n, other);
    if Migrates(k) {
      FieldsOfQuiet(inside, n);
      QuietIsFull(FieldsOf(inside), n);
    } else {
      ClearSplices(inside, n, later);
      ClearIsFull(inside, n);
    }
    ClearNodeSplices(k, inside, n, later);
    DivergeAfter(Front(k, inside, n), later, Text(FullRewrite(rest, n)) + other);
  }

  lemma {:induction false} LoudPartsDiverge(k: Kind, inside: Forest, rest: Forest, n: Names, behind: string,
                                            other: string)
    requires !Migrates(k)
    requires Diverge(Spliced(inside, n, Spliced(rest, n, behind)),
                     Text(FullRewrite(inside, n)) + (Text(FullRewrite(rest, n)) + other))
    ensures var f := Node(k, inside, rest); Diverge(Spliced(f, n, behind), Text(FullRewrite(f, n)) + other)
  {
    hide Text, FullRewrite, Diverge, NewLead;
    var later, last := Spliced(rest, n, behind), Text(FullRewrite(rest, n)) + other;
    FullNodeText(k, inside, rest, n, other);
    DivergeAfter(NewLead(k, n), Spliced(inside, n, later), Text(FullRewrite(inside, n)) + last);
    Regroup(NewLead(k, n), Text(FullRewrite(inside, n)), last);
  }

  lemma {:induction false} LedIsSolid(f: Forest)
    requires Led(f)
    ensures Solid(f)
    decreases f
  {
    if f.Plain? {
      LedIsSolid(f.rest);
    } else if f.Node? {
      LedIsSolid(f.inside);
      LedIsSolid(f.rest);
    }
  }

  /** For every file whose finds inside migrated declarations lie in their field expressions,
      `applyEdits` writes the text of the full rewrite exactly when there are no such finds: the
      first of them is copied as it was. */
  lemma {:induction false} FullyRewrittenExactlyWhen(f: Forest, n: Names)
    requires Led(f) && Spelled(f, n) && FoundInFields(f, n)
    ensures SpliceAll(Text(f), SortDescending(FoundEdits(f, n))) == Text(FullRewrite(f, n))
            <==> NothingInsideDecls(f, n)
  {
    hide Text, FullRewrite, Rewrite, SpliceAll, SortDescending, FoundEdits, Spliced, Led, Spelled, Solid,
         NothingInsideDecls;
    if NothingInsideDecls(f, n) {
      LedIsSolid(f);
      CodemodRewritesTheTree(f, n);
      ClearIsFull(f, n);
    } else {
      CodemodResult(f, n);
      SplicedDiverges(f, n, "", "");
      assert Text(FullRewrite(f, n)) + "" == Text(FullRewrite(f, n));
    }
  }
}
