/** The two passes of scripts/migrate-schema-class.ts over a set of files: collect the migrated
    names everywhere, then rewrite each file. */
module SchemaPasses {
  import opened TextEdits
  import opened Texts
  import opened SchemaCodemod
  import opened SchemaReplacement

  /** `import { original as local }` of a name that the file with the given number binds; a number
      past the files scanned stands for a package or any other file outside them. */
  datatype ImportSpec = ImportSpec(local: string, original: string, from: nat)

  /** A file: its imports, the names its top level binds itself, and its text as pieces. */
  datatype SourceFile = SourceFile(imports: seq<ImportSpec>, top: set<string>, body: Forest)

  /** The binding a local name has: the last import of it. */
  function LastImport(imports: seq<ImportSpec>, local: string): (r: seq<ImportSpec>)
    ensures |r| <= 1 && forall s :: s in r ==> s in imports && s.local == local
    ensures r == [] <==> forall s :: s in imports ==> s.local != local
  {
    if imports == [] then []
    else
      var n := |imports| - 1;
      if imports[n].local == local then [imports[n]] else LastImport(imports[..n], local)
  }

  function Aliases(imports: seq<ImportSpec>): map<string, string> {
    map s | s in imports :: s.local := LastImport(imports, s.local)[0].original
  }

  lemma {:induction false} LastOfMore(imports: seq<ImportSpec>, s: ImportSpec, x: string)
    ensures LastImport(imports + [s], x) == if x == s.local then [s] else LastImport(imports, x)
  {
    assert (imports + [s])[..|imports|] == imports;
  }

  lemma {:induction false} AliasOf(imports: seq<ImportSpec>, x: string)
    ensures x in Aliases(imports) <==> LastImport(imports, x) != []
    ensures x in Aliases(imports) ==> Aliases(imports)[x] == LastImport(imports, x)[0].original
  {
  }

  /** One more import takes over its local name and leaves every other name alone. */
  lemma {:induction false} LaterImportWins(imports: seq<ImportSpec>, s: ImportSpec)
    ensures Aliases(imports + [s]) == Aliases(imports)[s.local := s.original]
  {
    hide Aliases, LastImport;
    var a, b := Aliases(imports + [s]), Aliases(imports)[s.local := s.original];
    forall x: string
      ensures x in a <==> x in b
      ensures x in a ==> a[x] == b[x]
    {
      LastOfMore(imports, s, x);
      AliasOf(imports + [s], x);
      AliasOf(imports, x);
    }
    assert a.Keys == b.Keys;
  }

  /** Filling the map import by import leaves each local name at its last import. */
  method CollectImportAliases(imports: seq<ImportSpec>) returns (aliases: map<string, string>)
    ensures aliases == Aliases(imports)
  {
    aliases := map[];
    for i := 0 to |imports|
      invariant forall local :: local in aliases <==> LastImport(imports[..i], local) != []
      invariant forall local :: local in aliases ==> aliases[local] == LastImport(imports[..i], local)[0].original
    {
      assert imports[..i + 1][..i] == imports[..i];
      aliases := aliases[imports[i].local := imports[i].original];
    }
    assert imports[..|imports|] == imports;
  }

  // ----- pass 1

  function DeclNames(f: Forest): set<string> {
    match f
    case Nil => {}
    case Plain(_, rest) => DeclNames(rest)
    case Node(k, inside, rest) => (if Migrates(k) then {k.decl.name} else {}) + DeclNames(inside) + DeclNames(rest)
  }

  /** Every node of these pieces, each before its parts. */
  function Kinds(f: Forest): seq<Kind> {
    match f
    case Nil => []
    case Plain(_, rest) => Kinds(rest)
    case Node(k, inside, rest) => [k] + Kinds(inside) + Kinds(rest)
  }

  /** The names are those of the memberless matching classes at any depth, and a declaration is
      found exactly when there is one. */
  lemma {:induction false} DeclNamesAreFound(f: Forest, pos: nat, x: string)
    ensures x in DeclNames(f) <==> exists k :: k in Kinds(f) && k.Class? && k.decl.members == 0 && k.decl.name == x
    ensures FindClassDecls(f, pos) != [] <==> exists k :: k in Kinds(f) && k.Class? && k.decl.members == 0
    decreases f
  {
    if f.Plain? {
      DeclNamesAreFound(f.rest, pos + |f.text|, x);
    } else if f.Node? {
      var p := pos + |Lead(f.kind)|;
      var q := p + |Text(f.inside)|;
      DeclNamesAreFound(f.inside, p, x);
      DeclNamesAreFound(f.rest, q, x);
      CollectNode(f.kind, f.inside, f.rest, pos, OwnDeclEdit, p, q);
      assert forall k :: k in Kinds(f) <==> k == f.kind || k in Kinds(f.inside) || k in Kinds(f.rest);
      hide Text, BuildReplacement, Collect, Lead;
    }
  }

  ghost predicate MentionsSchema(text: string) {
    Includes(text, "Schema.Class") || Includes(text, "Schema.TaggedClass")
  }

  /** Files whose text mentions neither form are not parsed. */
  ghost function MigratedNames(files: seq<SourceFile>): set<string> {
    if files == [] then {}
    else (if MentionsSchema(Text(files[0].body)) then DeclNames(files[0].body) else {}) + MigratedNames(files[1..])
  }

  method SeesSchema(text: string) returns (r: bool)
    ensures r == MentionsSchema(text)
  {
    var at := IndexOf(text, "Schema.Class", 0);
    if at != -1 { return true; }
    at := IndexOf(text, "Schema.TaggedClass", 0);
    r := at != -1;
  }

  /** The first pass: the names of every class declaration that will be migrated. */
  method CollectMigratedNames(files: seq<SourceFile>) returns (names: set<string>)
    ensures names == MigratedNames(files)
  {
    names := {};
    for i := 0 to |files|
      invariant MigratedNames(files) == names + MigratedNames(files[i..])
    {
      assert files[i..][1..] == files[i + 1..];
      var seen := SeesSchema(Text(files[i].body));
      if seen {
        names := names + DeclNames(files[i].body);
      }
    }
  }

  ghost function NamesFor(files: seq<SourceFile>, file: SourceFile): Names {
    Names(MigratedNames(files), Aliases(file.imports))
  }

  // ----- pass 2

  /** The text written back for a file. */
  ghost function NewFileText(file: SourceFile, n: Names): string {
    var text := Text(file.body);
    if !MentionsSchema(text) && !Includes(text, "new ") then text
    else
      var decls := if MentionsSchema(text) then FindClassDecls(file.body, 0) else [];
      SpliceAll(text, SortDescending(decls + FindConstructorCalls(file.body, 0, n)))
  }

  /** One round of the second pass. */
  method RewriteFile(file: SourceFile, migrated: set<string>) returns (newText: string)
    ensures newText == NewFileText(file, Names(migrated, Aliases(file.imports)))
  {
    var text := Text(file.body);
    var schema := SeesSchema(text);
    var calls := IndexOf(text, "new ", 0);
    if !schema && calls == -1 { return text; }
    var aliases := CollectImportAliases(file.imports);
    var decls := if schema then FindClassDecls(file.body, 0) else [];
    newText := ApplyEdits(text, decls + FindConstructorCalls(file.body, 0, Names(migrated, aliases)));
  }

  /** The spelling the text filters look for: the schema call inside each migrated declaration,
      a space after `new` in each rewritten call. */
  ghost predicate PlainlySpelled(f: Forest, n: Names) {
    match f
    case Nil => true
    case Plain(_, rest) => PlainlySpelled(rest, n)
    case Node(k, inside, rest) =>
      && (Migrates(k) ==> MentionsSchema(Text(inside)))
      && (Rewrites(n, k) ==> k.gap != "" && k.gap[0] == ' ')
      && PlainlySpelled(inside, n) && PlainlySpelled(rest, n)
  }

  lemma {:induction false} IncludedInPart(a: string, b: string, c: string, pattern: string)
    requires Includes(b, pattern)
    ensures Includes(a + b + c, pattern)
  {
    var i :| OccursAt(b, pattern, i);
    var all := a + b + c;
    assert all[|a| + i..|a| + i + |pattern|] == b[i..i + |pattern|];
    assert OccursAt(all, pattern, |a| + i);
  }

  lemma {:induction false} IncludedInOneOf(a: string, b: string, c: string, pattern: string)
    requires Includes(a, pattern) || Includes(b, pattern) || Includes(c, pattern)
    ensures Includes(a + b + c, pattern)
  {
    hide Includes;
    if Includes(a, pattern) {
      IncludedInPart("", a, b + c, pattern);
      assert "" + a + (b + c) == a + b + c;
    } else if Includes(b, pattern) {
      IncludedInPart(a, b, c, pattern);
    } else {
      IncludedInPart(a + b, c, "", pattern);
      assert a + b + c + "" == a + b + c;
    }
  }

  lemma {:induction false} MentionsComeFromParts(k: Kind, inside: Forest, rest: Forest, pattern: string)
    requires Includes(Lead(k), pattern) || Includes(Text(inside), pattern) || Includes(Text(rest), pattern)
    ensures Includes(Text(Node(k, inside, rest)), pattern)
  {
    hide Includes, Lead;
    IncludedInOneOf(Lead(k), Text(inside), Text(rest), pattern);
  }

  lemma {:induction false} PlainTextMention(text: string, rest: Forest, pattern: string)
    requires Includes(Text(rest), pattern)
    ensures Includes(Text(Plain(text, rest)), pattern)
  {
    IncludedInPart(text, Text(rest), "", pattern);
    assert text + Text(rest) + "" == Text(Plain(text, rest));
  }

  lemma {:induction false} SpacedNewIsMentioned(k: Kind)
    requires k.New? && k.gap != "" && k.gap[0] == ' '
    ensures Includes(Lead(k), "new ")
  {
    assert OccursAt(Lead(k), "new ", 0);
  }

  /** A plainly spelled file passes the filters whenever there is something to find in it. */
  lemma {:induction false} PlainSpellingIsSeen(f: Forest, pos: nat, n: Names)
    requires PlainlySpelled(f, n)
    ensures FindClassDecls(f, pos) != [] || DeclNames(f) != {} ==> MentionsSchema(Text(f))
    ensures FindConstructorCalls(f, pos, n) != [] ==> Includes(Text(f), "new ")
    decreases f
  {
    if f.Plain? {
      PlainSpellingIsSeen(f.rest, pos + |f.text|, n);
      forall pattern | Includes(Text(f.rest), pattern)
        ensures Includes(Text(f), pattern)
      {
        PlainTextMention(f.text, f.rest, pattern);
      }
    } else if f.Node? {
      NodeSpellingIsSeen(f.kind, f.inside, f.rest, pos, n);
    }
  }

  lemma {:induction false} NodeSpellingIsSeen(k: Kind, inside: Forest, rest: Forest, pos: nat, n: Names)
    requires PlainlySpelled(Node(k, inside, rest), n)
    ensures var f := Node(k, inside, rest);
      && (FindClassDecls(f, pos) != [] || DeclNames(f) != {} ==> MentionsSchema(Text(f)))
      && (FindConstructorCalls(f, pos, n) != [] ==> Includes(Text(f), "new "))
    decreases Node(k, inside, rest), 0
  {
    hide Collect, Text, Lead, Includes;
    var p := pos + |Lead(k)|;
    var q := p + |Text(inside)|;
    PlainSpellingIsSeen(inside, p, n);
    PlainSpellingIsSeen(rest, q, n);
    CollectNode(k, inside, rest, pos, OwnDeclEdit, p, q);
    CollectNode(k, inside, rest, pos, CallVisitor(n), p, q);
    if Rewrites(n, k) { SpacedNewIsMentioned(k); }
    forall pattern | Includes(Lead(k), pattern) || Includes(Text(inside), pattern) || Includes(Text(rest), pattern)
      ensures Includes(Text(Node(k, inside, rest)), pattern)
    {
      MentionsComeFromParts(k, inside, rest, pattern);
    }
  }

  /** A file the codemod handles in full. */
  ghost predicate Handled(f: Forest, n: Names) {
    Solid(f) && NothingInsideDecls(f, n) && PlainlySpelled(f, n)
  }

  /** Whatever the filters leave out, if they leave out no find, all found edits are applied. */
  lemma {:induction false} FileIsSpliced(file: SourceFile, n: Names)
    requires FindClassDecls(file.body, 0) != [] ==> MentionsSchema(Text(file.body))
    requires FindConstructorCalls(file.body, 0, n) != [] ==>
      MentionsSchema(Text(file.body)) || Includes(Text(file.body), "new ")
    ensures NewFileText(file, n) == SpliceAll(Text(file.body), SortDescending(FoundEdits(file.body, n)))
  {
    var decls, calls := FindClassDecls(file.body, 0), FindConstructorCalls(file.body, 0, n);
    hide Text, Collect, SortDescending, MentionsSchema, Includes;
    if decls == [] {
      assert decls + calls == calls == [] + calls;
      NothingFoundNothingSpliced(Text(file.body));
    }
  }

  /** A file that is one memberless declaration of either kind passes the filter and is written
      back as the replacement. */
  lemma {:induction false} SchemaFileIsReplaced(d: ClassDecl, before: string, fields: string, after: string, n: Names)
    requires d.members == 0
    requires Includes(before, if d.kind.TaggedClass? then "Schema.TaggedClass" else "Schema.Class")
    ensures NewFileText(SourceFile([], {d.name}, OneDeclaration(d, before, fields, after)), n)
         == BuildReplacement(d, fields)
  {
    var pattern := if d.kind.TaggedClass? then "Schema.TaggedClass" else "Schema.Class";
    assert before != "";
    DeclarationIsReplaced(d, before, fields, after, n);
    hide Text, BuildReplacement, SpliceAll, SortDescending, FoundEdits, OneDeclaration, Includes;
    IncludedInOneOf(before, fields, after, pattern);
    FileIsSpliced(SourceFile([], {d.name}, OneDeclaration(d, before, fields, after)), n);
  }

  /** The file written back is the text of the rewritten tree, filters included. */
  lemma {:induction false} FileIsRewritten(file: SourceFile, n: Names)
    requires Handled(file.body, n)
    ensures NewFileText(file, n) == Text(Rewrite(file.body, n))
  {
    PlainSpellingIsSeen(file.body, 0, n);
    FileIsSpliced(file, n);
    CodemodRewritesTheTree(file.body, n);
  }

  lemma NothingFoundNothingSpliced(text: string)
    ensures SpliceAll(text, SortDescending([])) == text
  {
  }

  // ----- the second run

  function Rewritten(files: seq<SourceFile>, n: seq<Names>): (r: seq<SourceFile>)
    requires |n| == |files|
    ensures |r| == |files| && forall i :: 0 <= i < |r| ==> r[i] == files[i].(body := Rewrite(files[i].body, n[i]))
  {
    seq(|files|, i requires 0 <= i < |files| => files[i].(body := Rewrite(files[i].body, n[i])))
  }

  lemma {:induction false} QuietHasNoDecls(f: Forest, n: Names)
    requires Quiet(f, n)
    ensures DeclNames(f) == {}
    decreases f
  {
    if f.Plain? {
      QuietHasNoDecls(f.rest, n);
    } else if f.Node? {
      QuietHasNoDecls(f.inside, n);
      QuietHasNoDecls(f.rest, n);
    }
  }

  lemma {:induction false} NoNamesMigrated(files: seq<SourceFile>)
    requires forall file :: file in files ==> DeclNames(file.body) == {}
    ensures MigratedNames(files) == {}
    decreases files
  {
    if files != [] {
      NoNamesMigrated(files[1..]);
    }
  }

  lemma {:induction false} NoNamesNoCalls(f: Forest, pos: nat, n: Names)
    requires n.migrated == {}
    ensures FindConstructorCalls(f, pos, n) == []
    ensures DeclNames(f) == {} ==> FindClassDecls(f, pos) == []
    decreases f
  {
    if f.Plain? {
      NoNamesNoCalls(f.rest, pos + |f.text|, n);
    } else if f.Node? {
      var p := pos + |Lead(f.kind)|;
      var q := p + |Text(f.inside)|;
      NoNamesNoCalls(f.inside, p, n);
      NoNamesNoCalls(f.rest, q, n);
      CollectNode(f.kind, f.inside, f.rest, pos, CallVisitor(n), p, q);
      CollectNode(f.kind, f.inside, f.rest, pos, OwnDeclEdit, p, q);
    }
  }

  /** After a run over files the codemod handles in full, a second run finds no class to migrate
      and writes every file back unchanged. */
  lemma {:induction false} SecondRunChangesNothing(files: seq<SourceFile>, n: seq<Names>, i: nat)
    requires |n| == |files| && i < |files|
    requires forall k :: 0 <= k < |files| ==> n[k] == NamesFor(files, files[k]) && Handled(files[k].body, n[k])
    ensures var again := Rewritten(files, n);
      && MigratedNames(again) == {}
      && NewFileText(again[i], NamesFor(again, again[i])) == Text(again[i].body)
  {
    var again := Rewritten(files, n);
    forall k | 0 <= k < |again|
      ensures DeclNames(again[k].body) == {}
    {
      RewriteIsQuiet(files[k].body, n[k]);
      QuietHasNoDecls(again[k].body, n[k]);
    }
    NoNamesMigrated(again);
    NoNamesNoCalls(again[i].body, 0, NamesFor(again, again[i]));
    NothingFoundNothingSpliced(Text(again[i].body));
  }

  // ----- what names denote

  /** The migrated classes declared in these pieces, outside any inner scope. */
  function OwnDecls(f: Forest): set<string> {
    match f
    case Nil => {}
    case Plain(_, rest) => OwnDecls(rest)
    case Node(k, inside, rest) =>
      (if Migrates(k) then {k.decl.name} else {}) + (if k.Scope? then {} else OwnDecls(inside)) + OwnDecls(rest)
  }

  ghost predicate Seen(file: SourceFile) { MentionsSchema(Text(file.body)) }

  /** The classes at a file's top level that the codemod migrates. */
  ghost function TopClasses(file: SourceFile): set<string> {
    if Seen(file) then OwnDecls(file.body) else {}
  }

  /** The names bound by the scopes around a place, and whether they denote migrated classes. */
  type Scopes = map<string, bool>

  ghost function Enter(file: SourceFile, bound: set<string>, inside: Forest, scopes: Scopes): Scopes {
    scopes + map x | x in bound :: x := Seen(file) && x in OwnDecls(inside)
  }

  /** Whether a name denotes a migrated class: its innermost binding, its import, or its file's own. */
  ghost predicate Denotes(files: seq<SourceFile>, i: nat, scopes: Scopes, x: string)
    requires i < |files|
  {
    var imported := LastImport(files[i].imports, x);
    if x in scopes then scopes[x]
    else if imported != [] then
      imported[0].from < |files| && imported[0].original in TopClasses(files[imported[0].from])
    else x in TopClasses(files[i])
  }

  /** A name that means something at a place; globals are what the environment provides. */
  ghost predicate Bound(file: SourceFile, globals: set<string>, scopes: Scopes, x: string) {
    x in scopes || LastImport(file.imports, x) != [] || x in file.top || x in globals
  }

  /** `new x` is rewritten exactly when x denotes a migrated class. */
  ghost predicate Right(files: seq<SourceFile>, i: nat, scopes: Scopes, x: string)
    requires i < |files|
  {
    Imported(Aliases(files[i].imports), x) in MigratedNames(files) <==> Denotes(files, i, scopes, x)
  }

  ghost predicate AllRight(files: seq<SourceFile>, globals: set<string>, i: nat, scopes: Scopes)
    requires i < |files|
  {
    forall x :: Bound(files[i], globals, scopes, x) ==> Right(files, i, scopes, x)
  }

  /** The same in every scope inside these pieces. */
  ghost predicate RightWithin(files: seq<SourceFile>, globals: set<string>, i: nat, f: Forest, scopes: Scopes)
    requires i < |files|
    decreases f
  {
    match f
    case Nil => true
    case Plain(_, rest) => RightWithin(files, globals, i, rest, scopes)
    case Node(k, inside, rest) =>
      && RightWithin(files, globals, i, rest, scopes)
      && if k.Scope? then
           var inner := Enter(files[i], k.bound, inside, scopes);
           AllRight(files, globals, i, inner) && RightWithin(files, globals, i, inside, inner)
         else RightWithin(files, globals, i, inside, scopes)
  }

  /** Wherever a name is bound, `new` on it is rewritten exactly when it denotes a migrated class. */
  ghost predicate RightEverywhere(files: seq<SourceFile>, globals: set<string>) {
    forall i :: 0 <= i < |files| ==>
      AllRight(files, globals, i, map[]) && RightWithin(files, globals, i, files[i].body, map[])
  }

  // ----- the programs it is right for

  predicate WellScoped(f: Forest) {
    match f
    case Nil => true
    case Plain(_, rest) => WellScoped(rest)
    case Node(k, inside, rest) => (k.Scope? ==> OwnDecls(inside) <= k.bound) && WellScoped(inside) && WellScoped(rest)
  }

  /** Files that fit together: an import from one of them names what that file binds, nothing is
      bound twice at a top level, and every declaration binds its name in the scope it stands in. */
  predicate Program(files: seq<SourceFile>) {
    forall i :: 0 <= i < |files| ==>
      && OwnDecls(files[i].body) <= files[i].top && WellScoped(files[i].body)
      && forall s :: s in files[i].imports ==>
           s.local !in files[i].top && (s.from < |files| ==> s.original in files[s.from].top)
  }

  /** The name is imported from a package or another file outside those scanned. */
  predicate FromOutside(files: seq<SourceFile>, i: nat, x: string)
    requires i < |files|
  {
    LastImport(files[i].imports, x) != [] && LastImport(files[i].imports, x)[0].from >= |files|
  }

  /** In these pieces, an inner scope binds a name to a migrated class exactly when the name, or the
      name it is imported under, is that of a migrated class. */
  ghost predicate InnerNamesakes(file: SourceFile, f: Forest, migrated: set<string>) {
    match f
    case Nil => true
    case Plain(_, rest) => InnerNamesakes(file, rest, migrated)
    case Node(k, inside, rest) =>
      && (k.Scope? ==> forall x :: x in k.bound ==>
            (Seen(file) && x in OwnDecls(inside) <==> Imported(Aliases(file.imports), x) in migrated))
      && InnerNamesakes(file, inside, migrated) && InnerNamesakes(file, rest, migrated)
  }

  /** Whatever bears the name of a migrated class is one: at a top level, imported from outside,
      from the environment unless the file has its own, and in inner scopes. */
  ghost predicate NamesakesAreMigrated(files: seq<SourceFile>, globals: set<string>) {
    var migrated := MigratedNames(files);
    forall i :: 0 <= i < |files| ==>
      && (forall x :: x in files[i].top && x in migrated ==> x in TopClasses(files[i]))
      && (forall x :: FromOutside(files, i, x) ==> LastImport(files[i].imports, x)[0].original !in migrated)
      && (forall x :: x in globals && x in migrated && LastImport(files[i].imports, x) == [] ==> x in files[i].top)
      && InnerNamesakes(files[i], files[i].body, migrated)
  }

  lemma {:induction false} MigratedNamesAreDeclared(files: seq<SourceFile>, x: string)
    ensures x in MigratedNames(files)
            <==> exists k :: 0 <= k < |files| && Seen(files[k]) && x in DeclNames(files[k].body)
    decreases files
  {
    hide MentionsSchema, DeclNames;
    if files != [] {
      MigratedNamesAreDeclared(files[1..], x);
      if x in MigratedNames(files[1..]) {
        var k :| 0 <= k < |files[1..]| && Seen(files[1..][k]) && x in DeclNames(files[1..][k].body);
        assert files[k + 1] == files[1..][k];
      }
      forall k | 0 < k < |files| && Seen(files[k]) && x in DeclNames(files[k].body)
        ensures x in MigratedNames(files[1..])
      {
        assert files[1..][k - 1] == files[k];
      }
    }
  }

  lemma {:induction false} OwnDeclsAreDecls(f: Forest)
    ensures OwnDecls(f) <= DeclNames(f)
    decreases f
  {
    if f.Plain? {
      OwnDeclsAreDecls(f.rest);
    } else if f.Node? {
      OwnDeclsAreDecls(f.inside);
      OwnDeclsAreDecls(f.rest);
    }
  }

  lemma {:induction false} TopClassesAreMigrated(files: seq<SourceFile>, k: nat)
    requires k < |files|
    ensures TopClasses(files[k]) <= MigratedNames(files)
  {
    hide MentionsSchema, OwnDecls, DeclNames, MigratedNames;
    OwnDeclsAreDecls(files[k].body);
    forall x | x in TopClasses(files[k])
      ensures x in MigratedNames(files)
    {
      MigratedNamesAreDeclared(files, x);
    }
  }

  /** The names the scopes bind are right. */
  ghost predicate ScopesRight(file: SourceFile, scopes: Scopes, migrated: set<string>) {
    forall x :: x in scopes ==> (scopes[x] <==> Imported(Aliases(file.imports), x) in migrated)
  }

  lemma ImportedName(imports: seq<ImportSpec>, x: string)
    ensures var imported := LastImport(imports, x);
      Imported(Aliases(imports), x) == if imported == [] then x else imported[0].original
  {
  }

  lemma {:induction false} BoundNameIsRight(files: seq<SourceFile>, globals: set<string>, i: nat, scopes: Scopes,
                                            x: string)
    requires i < |files| && Program(files) && NamesakesAreMigrated(files, globals)
    requires ScopesRight(files[i], scopes, MigratedNames(files)) && Bound(files[i], globals, scopes, x)
    ensures Right(files, i, scopes, x)
  {
    hide MigratedNames, TopClasses, OwnDecls, WellScoped, InnerNamesakes, Aliases, Imported;
    ImportedName(files[i].imports, x);
    var imported := LastImport(files[i].imports, x);
    if x !in scopes && !FromOutside(files, i, x) {
      TopClassesAreMigrated(files, if imported == [] then i else imported[0].from);
    }
  }

  lemma {:induction false} NamesakesRightWithin(files: seq<SourceFile>, globals: set<string>, i: nat, f: Forest,
                                                scopes: Scopes)
    requires i < |files| && Program(files) && NamesakesAreMigrated(files, globals)
    requires ScopesRight(files[i], scopes, MigratedNames(files)) && InnerNamesakes(files[i], f, MigratedNames(files))
    ensures RightWithin(files, globals, i, f, scopes)
    decreases f
  {
    hide MigratedNames, Program, NamesakesAreMigrated, Aliases, Imported, OwnDecls, Seen, Right, Bound;
    if f.Plain? {
      NamesakesRightWithin(files, globals, i, f.rest, scopes);
    } else if f.Node? {
      NamesakesRightWithin(files, globals, i, f.rest, scopes);
      var inner := if f.kind.Scope? then Enter(files[i], f.kind.bound, f.inside, scopes) else scopes;
      NamesakesRightWithin(files, globals, i, f.inside, inner);
      forall x | Bound(files[i], globals, inner, x)
        ensures Right(files, i, inner, x)
      {
        BoundNameIsRight(files, globals, i, inner, x);
      }
    }
  }

  /** An inner scope in which all names are right binds only namesakes. */
  lemma {:induction false} RightWithinHasNamesakes(files: seq<SourceFile>, globals: set<string>, i: nat, f: Forest,
                                                   scopes: Scopes)
    requires i < |files| && RightWithin(files, globals, i, f, scopes)
    ensures InnerNamesakes(files[i], f, MigratedNames(files))
    decreases f
  {
    hide MigratedNames, Aliases, Imported, OwnDecls, Seen;
    if f.Plain? {
      RightWithinHasNamesakes(files, globals, i, f.rest, scopes);
    } else if f.Node? {
      RightWithinHasNamesakes(files, globals, i, f.rest, scopes);
      var inner := if f.kind.Scope? then Enter(files[i], f.kind.bound, f.inside, scopes) else scopes;
      RightWithinHasNamesakes(files, globals, i, f.inside, inner);
      if f.kind.Scope? {
        forall x | x in f.kind.bound
          ensures Seen(files[i]) && x in OwnDecls(f.inside)
                  <==> Imported(Aliases(files[i].imports), x) in MigratedNames(files)
        {
          assert Bound(files[i], globals, inner, x) && Right(files, i, inner, x);
        }
      }
    }
  }

  lemma {:induction false} RightFileHasNamesakes(files: seq<SourceFile>, globals: set<string>, i: nat, x: string)
    requires i < |files| && Program(files) && AllRight(files, globals, i, map[])
    requires x in MigratedNames(files) && LastImport(files[i].imports, x) == [] && (x in files[i].top || x in globals)
    ensures x in TopClasses(files[i]) && x in files[i].top
  {
    hide MigratedNames, OwnDecls, WellScoped, Aliases, Imported, Seen;
    ImportedName(files[i].imports, x);
    assert Bound(files[i], globals, map[], x) && Right(files, i, map[], x);
  }

  lemma {:induction false} RightFileShunsOutside(files: seq<SourceFile>, globals: set<string>, i: nat, x: string)
    requires i < |files| && AllRight(files, globals, i, map[]) && FromOutside(files, i, x)
    ensures LastImport(files[i].imports, x)[0].original !in MigratedNames(files)
  {
    hide MigratedNames, Aliases, Imported;
    ImportedName(files[i].imports, x);
    assert Bound(files[i], globals, map[], x) && Right(files, i, map[], x);
  }

  /** For files that fit together, the codemod is right wherever a name is bound, exactly when
      whatever bears the name of a migrated class is one. */
  lemma {:induction false} RightExactlyWhenNamesakesAreMigrated(files: seq<SourceFile>, globals: set<string>)
    requires Program(files)
    ensures RightEverywhere(files, globals) <==> NamesakesAreMigrated(files, globals)
  {
    hide MigratedNames, OwnDecls, WellScoped, InnerNamesakes, TopClasses, Right, RightWithin, Denotes;
    forall i | 0 <= i < |files|
      ensures NamesakesAreMigrated(files, globals) ==>
        AllRight(files, globals, i, map[]) && RightWithin(files, globals, i, files[i].body, map[])
    {
      if NamesakesAreMigrated(files, globals) {
        NamesakesRightWithin(files, globals, i, files[i].body, map[]);
        forall x | Bound(files[i], globals, map[], x)
          ensures Right(files, i, map[], x)
        {
          BoundNameIsRight(files, globals, i, map[], x);
        }
      }
    }
    if RightEverywhere(files, globals) {
      forall i | 0 <= i < |files|
        ensures InnerNamesakes(files[i], files[i].body, MigratedNames(files))
        ensures forall x :: x in files[i].top && x in MigratedNames(files) ==> x in TopClasses(files[i])
        ensures forall x :: FromOutside(files, i, x) ==>
                LastImport(files[i].imports, x)[0].original !in MigratedNames(files)
        ensures forall x :: x in globals && x in MigratedNames(files) && LastImport(files[i].imports, x) == [] ==>
                  x in files[i].top
      {
        forall x | FromOutside(files, i, x)
          ensures LastImport(files[i].imports, x)[0].original !in MigratedNames(files)
        {
          RightFileShunsOutside(files, globals, i, x);
        }
        RightWithinHasNamesakes(files, globals, i, files[i].body, map[]);
        forall x | x in MigratedNames(files) && LastImport(files[i].imports, x) == []
          && (x in files[i].top || x in globals)
          ensures x in TopClasses(files[i]) && x in files[i].top
        {
          RightFileHasNamesakes(files, globals, i, x);
        }
      }
    }
  }

  // ----- every call of a file

  /** Each `new` in these pieces is on a name bound there. */
  ghost predicate Closed(file: SourceFile, globals: set<string>, f: Forest, scopes: Scopes)
    decreases f
  {
    match f
    case Nil => true
    case Plain(_, rest) => Closed(file, globals, rest, scopes)
    case Node(k, inside, rest) =>
      && (k.New? ==> Bound(file, globals, scopes, k.callee))
      && Closed(file, globals, inside, if k.Scope? then Enter(file, k.bound, inside, scopes) else scopes)
      && Closed(file, globals, rest, scopes)
  }

  /** Each `new` in these pieces is rewritten exactly when its callee denotes a migrated class. */
  ghost predicate CallsRight(files: seq<SourceFile>, i: nat, f: Forest, scopes: Scopes)
    requires i < |files|
    decreases f
  {
    match f
    case Nil => true
    case Plain(_, rest) => CallsRight(files, i, rest, scopes)
    case Node(k, inside, rest) =>
      && (k.New? ==> (Rewrites(NamesFor(files, files[i]), k) <==> Denotes(files, i, scopes, k.callee)))
      && CallsRight(files, i, inside, if k.Scope? then Enter(files[i], k.bound, inside, scopes) else scopes)
      && CallsRight(files, i, rest, scopes)
  }

  lemma {:induction false} RightNamesRightCalls(files: seq<SourceFile>, globals: set<string>, i: nat, f: Forest,
                                                scopes: Scopes)
    requires i < |files| && AllRight(files, globals, i, scopes)
    requires RightWithin(files, globals, i, f, scopes) && Closed(files[i], globals, f, scopes)
    ensures CallsRight(files, i, f, scopes)
    decreases f
  {
    hide MigratedNames, Bound, Denotes, Enter, Aliases;
    if f.Plain? {
      RightNamesRightCalls(files, globals, i, f.rest, scopes);
    } else if f.Node? {
      RightNamesRightCalls(files, globals, i, f.rest, scopes);
      RightNamesRightCalls(files, globals, i, f.inside,
                           if f.kind.Scope? then Enter(files[i], f.kind.bound, f.inside, scopes) else scopes);
      if f.kind.New? {
        assert Right(files, i, scopes, f.kind.callee);
      }
    }
  }

  /** No two top levels bind a migrated name, nor does the environment, nor is it imported from
      outside. */
  ghost predicate DeclaredOnce(files: seq<SourceFile>, globals: set<string>) {
    forall x :: x in MigratedNames(files) ==>
      && x !in globals
      && (forall i, s :: 0 <= i < |files| && s in files[i].imports && s.original == x ==> s.from < |files|)
      && (forall i, j :: 0 <= i < |files| && 0 <= j < |files| && x in files[i].top && x in files[j].top ==> i == j)
  }

  /** No inner scope binds a migrated name, or a name that is imported from one. */
  ghost predicate Unshadowed(file: SourceFile, f: Forest, migrated: set<string>) {
    match f
    case Nil => true
    case Plain(_, rest) => Unshadowed(file, rest, migrated)
    case Node(k, inside, rest) =>
      && (k.Scope? ==> forall x :: x in k.bound ==> x !in migrated && Imported(Aliases(file.imports), x) !in migrated)
      && Unshadowed(file, inside, migrated) && Unshadowed(file, rest, migrated)
  }

  lemma {:induction false} UnshadowedDeclsAreOwn(file: SourceFile, f: Forest, migrated: set<string>)
    requires Unshadowed(file, f, migrated) && WellScoped(f) && DeclNames(f) <= migrated
    ensures DeclNames(f) == OwnDecls(f)
    decreases f
  {
    hide Imported, Aliases;
    if f.Plain? {
      UnshadowedDeclsAreOwn(file, f.rest, migrated);
    } else if f.Node? {
      UnshadowedDeclsAreOwn(file, f.rest, migrated);
      UnshadowedDeclsAreOwn(file, f.inside, migrated);
      if f.kind.Scope? {
        assert f.kind.bound !! migrated;
      }
    }
  }

  lemma {:induction false} UnshadowedHasNamesakes(file: SourceFile, f: Forest, migrated: set<string>)
    requires Unshadowed(file, f, migrated) && (Seen(file) ==> DeclNames(f) <= migrated)
    ensures InnerNamesakes(file, f, migrated)
    decreases f
  {
    hide Imported, Aliases, Seen;
    if f.Plain? {
      UnshadowedHasNamesakes(file, f.rest, migrated);
    } else if f.Node? {
      UnshadowedHasNamesakes(file, f.rest, migrated);
      UnshadowedHasNamesakes(file, f.inside, migrated);
      OwnDeclsAreDecls(f.inside);
    }
  }

  lemma {:induction false} SeenDeclsAreMigrated(files: seq<SourceFile>, k: nat)
    requires k < |files| && Seen(files[k])
    ensures DeclNames(files[k].body) <= MigratedNames(files)
  {
    hide Seen, DeclNames, MigratedNames;
    forall x | x in DeclNames(files[k].body)
      ensures x in MigratedNames(files)
    {
      MigratedNamesAreDeclared(files, x);
    }
  }

  lemma {:induction false} DeclaredOnceIsEnough(files: seq<SourceFile>, globals: set<string>)
    requires Program(files) && DeclaredOnce(files, globals)
    requires forall i :: 0 <= i < |files| ==> Unshadowed(files[i], files[i].body, MigratedNames(files))
    ensures NamesakesAreMigrated(files, globals)
  {
    hide MigratedNames, OwnDecls, DeclNames, Unshadowed, InnerNamesakes, Seen, WellScoped;
    forall i | 0 <= i < |files|
      ensures InnerNamesakes(files[i], files[i].body, MigratedNames(files))
    {
      if Seen(files[i]) { SeenDeclsAreMigrated(files, i); }
      UnshadowedHasNamesakes(files[i], files[i].body, MigratedNames(files));
    }
    forall i, x | 0 <= i < |files| && x in files[i].top && x in MigratedNames(files)
      ensures x in TopClasses(files[i])
    {
      MigratedNamesAreDeclared(files, x);
      var k :| 0 <= k < |files| && Seen(files[k]) && x in DeclNames(files[k].body);
      SeenDeclsAreMigrated(files, k);
      UnshadowedDeclsAreOwn(files[k], files[k].body, MigratedNames(files));
    }
  }

  /** Where whatever bears the name of a migrated class is one, exactly the `new` expressions whose
      callee denotes a migrated class are found. */
  lemma {:induction false} FindsExactlyMigratedClasses(files: seq<SourceFile>, globals: set<string>, i: nat)
    requires i < |files| && Program(files) && NamesakesAreMigrated(files, globals)
    requires Closed(files[i], globals, files[i].body, map[])
    ensures CallsRight(files, i, files[i].body, map[])
  {
    hide MigratedNames, Program, NamesakesAreMigrated, AllRight, RightWithin, Closed, CallsRight;
    RightExactlyWhenNamesakesAreMigrated(files, globals);
    RightNamesRightCalls(files, globals, i, files[i].body, map[]);
  }

  // ----- the file that is meant

  /** The rewrite the codemod is for, by what names denote and not by what they are: migrated
      declarations replaced, and every `new` of a migrated class, also in a field expression. */
  ghost function Meant(files: seq<SourceFile>, i: nat, f: Forest, scopes: Scopes): Forest
    requires i < |files|
    decreases f
  {
    match f
    case Nil => Nil
    case Plain(text, rest) => Plain(text, Meant(files, i, rest, scopes))
    case Node(k, inside, rest) =>
      var parts := Meant(files, i, inside, if k.Scope? then Enter(files[i], k.bound, inside, scopes) else scopes);
      var call := k.New? && Denotes(files, i, scopes, k.callee);
      Rebuilt(k, call, FieldsOf(parts), parts, Meant(files, i, rest, scopes))
  }

  lemma {:induction false} MeantIsFull(files: seq<SourceFile>, i: nat, f: Forest, scopes: Scopes)
    requires i < |files| && CallsRight(files, i, f, scopes)
    ensures Meant(files, i, f, scopes) == FullRewrite(f, NamesFor(files, files[i]))
    decreases f
  {
    hide Enter, Denotes, NamesFor, Rebuilt;
    if f.Plain? {
      MeantIsFull(files, i, f.rest, scopes);
    } else if f.Node? {
      MeantIsFull(files, i, f.rest, scopes);
      MeantIsFull(files, i, f.inside,
                  if f.kind.Scope? then Enter(files[i], f.kind.bound, f.inside, scopes) else scopes);
    }
  }

  /** Where migrated names are declared once and unshadowed, every file handled in full is written
      back as meant: exactly its migrated declarations and the `new` expressions whose callee
      denotes a migrated class, directly or through an import alias, are rewritten. */
  lemma {:induction false} RewritesExactlyMigratedClasses(files: seq<SourceFile>, globals: set<string>, i: nat)
    requires i < |files| && Program(files) && DeclaredOnce(files, globals)
    requires forall k :: 0 <= k < |files| ==> Unshadowed(files[k], files[k].body, MigratedNames(files))
    requires Closed(files[i], globals, files[i].body, map[]) && Handled(files[i].body, NamesFor(files, files[i]))
    ensures NewFileText(files[i], NamesFor(files, files[i])) == Text(Meant(files, i, files[i].body, map[]))
  {
    hide MigratedNames, Program, DeclaredOnce, Unshadowed, Closed, CallsRight, NewFileText, Meant, NamesFor;
    DeclaredOnceIsEnough(files, globals);
    FindsExactlyMigratedClasses(files, globals, i);
    MeantIsFull(files, i, files[i].body, map[]);
    FileIsRewritten(files[i], NamesFor(files, files[i]));
    ClearIsFull(files[i].body, NamesFor(files, files[i]));
  }

  lemma {:induction false} NoDeclsNoEdits(f: Forest, pos: nat)
    requires NoDecls(f)
    ensures FindClassDecls(f, pos) == []
    decreases f
  {
    if f.Plain? {
      NoDeclsNoEdits(f.rest, pos + |f.text|);
    } else if f.Node? {
      var p := pos + |Lead(f.kind)|;
      var q := p + |Text(f.inside)|;
      NoDeclsNoEdits(f.inside, p);
      NoDeclsNoEdits(f.rest, q);
      CollectNode(f.kind, f.inside, f.rest, pos, OwnDeclEdit, p, q);
    }
  }

  lemma {:induction false} QuietHasNoFinds(f: Forest, pos: nat, n: Names)
    requires Quiet(f, n)
    ensures NoDecls(f) && FindConstructorCalls(f, pos, n) == []
    decreases f
  {
    if f.Plain? {
      QuietHasNoFinds(f.rest, pos + |f.text|, n);
    } else if f.Node? {
      var p := pos + |Lead(f.kind)|;
      var q := p + |Text(f.inside)|;
      QuietHasNoFinds(f.inside, p, n);
      QuietHasNoFinds(f.rest, q, n);
      CollectNode(f.kind, f.inside, f.rest, pos, CallVisitor(n), p, q);
    }
  }

  /** A file with something to find passes the text filters. */
  ghost predicate Passes(file: SourceFile, n: Names) {
    Quiet(file.body, n) || MentionsSchema(Text(file.body)) || Includes(Text(file.body), "new ")
  }

  /** A file is written back fully rewritten exactly when nothing is found inside its migrated
      declarations and the text filters let it pass. */
  lemma {:induction false} FileIsFullExactlyWhen(file: SourceFile, n: Names)
    requires Led(file.body) && Spelled(file.body, n) && FoundInFields(file.body, n)
    requires NoDecls(file.body) || Seen(file)
    ensures NewFileText(file, n) == Text(FullRewrite(file.body, n))
            <==> NothingInsideDecls(file.body, n) && Passes(file, n)
  {
    var f, text := file.body, Text(file.body);
    if Quiet(f, n) { QuietHasNoFinds(f, 0, n); }
    if NoDecls(f) { NoDeclsNoEdits(f, 0); }
    hide Text, FullRewrite, Collect, SortDescending, SpliceAll, Led, Spelled, FoundInFields, Quiet, NoDecls,
         MentionsSchema, Includes, NothingInsideDecls;
    if Passes(file, n) {
      FileIsSpliced(file, n);
      FullyRewrittenExactlyWhen(f, n);
    } else {
      LoudDiverges(f, n);
    }
  }

  /** For files that fit together and in which whatever bears the name of a migrated class is one,
      a file is written back as meant exactly when nothing is found inside its migrated
      declarations and the text filters let it pass. */
  lemma {:induction false} WrittenAsMeantExactlyWhen(files: seq<SourceFile>, globals: set<string>, i: nat)
    requires i < |files| && Program(files) && NamesakesAreMigrated(files, globals)
    requires Closed(files[i], globals, files[i].body, map[])
    requires var f, n := files[i].body, NamesFor(files, files[i]);
      Led(f) && Spelled(f, n) && FoundInFields(f, n) && (NoDecls(f) || Seen(files[i]))
    ensures var n := NamesFor(files, files[i]);
      NewFileText(files[i], n) == Text(Meant(files, i, files[i].body, map[]))
      <==> NothingInsideDecls(files[i].body, n) && Passes(files[i], n)
  {
    hide Program, NamesakesAreMigrated, Closed, CallsRight, NewFileText, Meant, NamesFor, Led, Spelled, FoundInFields,
         NoDecls, Seen, Passes, NothingInsideDecls, Text, FullRewrite;
    FindsExactlyMigratedClasses(files, globals, i);
    MeantIsFull(files, i, files[i].body, map[]);
    FileIsFullExactlyWhen(files[i], NamesFor(files, files[i]));
  }

  // ----- names that clash

  /** A file that calls `new` on its own class, or on one imported from a package. */
  function Clashing(x: string, gap: string, fromPackage: bool): SourceFile {
    var call := Node(New(gap, x), Nil, Nil);
    if fromPackage then SourceFile([ImportSpec(x, x, 2)], {}, call) else SourceFile([], {x}, call)
  }

  /** A lone call: what the codemod writes for it, found or not. */
  lemma {:induction false} LoneCall(file: SourceFile, gap: string, x: string, n: Names)
    requires file.body == Node(New(gap, x), Nil, Nil) && gap != "" && gap[0] == ' ' && IsIdentifier(x)
    requires Rewrites(n, file.body.kind)
    ensures Text(file.body) == "new" + gap + x != x + ".make" == NewFileText(file, n)
  {
    var k := New(gap, x);
    assert Text(Nil) == "" && Text(file.body) == Lead(k) + "" + "" == Lead(k);
    SpacedNewIsMentioned(k);
    CallDiverges(k);
    RebuiltText(k, true, Nil, Nil, Nil);
    assert FullRewrite(file.body, n) == Rebuilt(k, true, Nil, Nil, Nil);
    assert x + ".make" + "" + "" == x + ".make";
    assert Led(Nil) && Spelled(Nil, n) && FoundInFields(Nil, n) && NoDecls(Nil) && NothingInsideDecls(Nil, n);
    FileIsFullExactlyWhen(file, n);
  }

  lemma {:induction false} ClashingFiles(d: ClassDecl, text: string, gap: string, fromPackage: bool,
                                         files: seq<SourceFile>)
    requires d.members == 0 && MentionsSchema(text)
    requires files == [SourceFile([], {d.name}, Node(Class(d), Plain(text, Nil), Nil)),
                      Clashing(d.name, gap, fromPackage)]
    ensures Program(files) && Closed(files[1], {}, files[1].body, map[])
    ensures d.name in MigratedNames(files) && !Denotes(files, 1, map[], d.name)
  {
    var decl, call := files[0].body, files[1].body;
    assert Text(Plain(text, Nil)) == text + "" == text;
    assert Text(decl) == "" + text + "" == text;
    assert OwnDecls(Nil) == {} == DeclNames(Nil) && WellScoped(Nil);
    assert OwnDecls(Plain(text, Nil)) == {} == DeclNames(Plain(text, Nil)) && WellScoped(Plain(text, Nil));
    assert OwnDecls(call) == {} && OwnDecls(decl) == {d.name} == DeclNames(decl) && WellScoped(decl)
      && WellScoped(call);
    hide MentionsSchema, MigratedNames, Text, OwnDecls, DeclNames, WellScoped;
    assert Seen(files[0]) && d.name in DeclNames(files[0].body);
    MigratedNamesAreDeclared(files, d.name);
    assert Closed(files[1], {}, Nil, map[]);
  }

  /** Without the condition it fails: next to a file that migrates a class, one that calls `new` on
      a class of its own or of a package that bears the name has that call rewritten. */
  lemma {:induction false} NamesakeIsRewritten(d: ClassDecl, text: string, gap: string,
                                               fromPackage: bool) returns (files: seq<SourceFile>)
    requires d.members == 0 && IsIdentifier(d.name) && MentionsSchema(text) && gap != "" && gap[0] == ' '
    ensures files == [SourceFile([], {d.name}, Node(Class(d), Plain(text, Nil), Nil)),
                      Clashing(d.name, gap, fromPackage)]
    ensures Program(files) && Closed(files[1], {}, files[1].body, map[]) && !NamesakesAreMigrated(files, {})
    ensures NewFileText(files[1], NamesFor(files, files[1])) == d.name + ".make"
    ensures Text(Meant(files, 1, files[1].body, map[])) == "new" + gap + d.name != d.name + ".make"
  {
    files := [SourceFile([], {d.name}, Node(Class(d), Plain(text, Nil), Nil)), Clashing(d.name, gap, fromPackage)];
    ClashingFiles(d, text, gap, fromPackage, files);
    ImportedName(files[1].imports, d.name);
    assert Meant(files, 1, Nil, map[]) == Nil;
    assert Meant(files, 1, files[1].body, map[]) == files[1].body;
    hide Program, Closed, NewFileText, MigratedNames, Text, IsIdentifier, MentionsSchema, Meant, Aliases, Imported;
    LoneCall(files[1], gap, d.name, NamesFor(files, files[1]));
    if NamesakesAreMigrated(files, {}) {
      FindsExactlyMigratedClasses(files, {}, 1);
    }
  }
}
