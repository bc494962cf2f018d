/** What the codemod of scripts/migrate-schema-class.ts writes for one declaration, and that it
    can be read back: the replacement determines the declaration. */
module SchemaReplacement {
  import opened TextEdits
  import opened SchemaCodemod

  // ----- the replacement, spelled out

  function Export(d: ClassDecl): string { if d.exported then "export " else "" }

  /** Behind the schema call: the end of the statement and the type of the same name. */
  function Ending(d: ClassDecl): string { ";\n" + Export(d) + "type " + d.name + " = typeof " + d.name + ".Type;" }

  /** The schema call: a struct with the fields, annotated with an identifier that is not the name;
      or a tagged struct with the tag and the fields. */
  function SchemaCall(d: ClassDecl, fields: string): string {
    match d.kind
    case TaggedClass => "TaggedStruct(" + d.quoted + ", " + fields + ")"
    case PlainClass =>
      if d.identifier == "" || d.identifier == d.name then "Struct(" + fields + ")"
      else "Struct(" + fields + ").annotate({ identifier: " + d.quoted + " })"
  }

  /** The schema call in front of its fields and behind them. */
  function Head(d: ClassDecl): string {
    if d.kind.TaggedClass? then "TaggedStruct(" + d.quoted + ", " else "Struct("
  }

  function Foot(d: ClassDecl): string {
    if Annotated(d) then ").annotate({ identifier: " + d.quoted + " })" else ")"
  }

  lemma {:induction false} CallInParts(d: ClassDecl, fields: string)
    ensures SchemaCall(d, fields) == Head(d) + fields + Foot(d)
  {
    if Annotated(d) {
      var x, y := "Struct(" + fields, d.quoted + " })";
      assert x + ").annotate({ identifier: " + d.quoted + " })" == x + (").annotate({ identifier: " + d.quoted + " })");
    }
  }

  lemma {:induction false} BeforeSpelled(d: ClassDecl)
    ensures Before(d) == Export(d) + "const " + d.name + " = Schema." + Head(d)
  {
    var a := Export(d) + "const " + d.name;
    if d.kind.TaggedClass? {
      assert " = Schema.TaggedStruct(" == " = Schema." + "TaggedStruct(";
      Assoc(a, " = Schema.", "TaggedStruct(" + d.quoted + ", ");
      assert " = Schema." + "TaggedStruct(" + d.quoted + ", " == " = Schema." + ("TaggedStruct(" + d.quoted + ", ");
    } else {
      assert " = Schema.Struct(" == " = Schema." + "Struct(";
      Assoc(a, " = Schema.", "Struct(");
    }
  }

  lemma {:induction false} Assoc(a: string, b: string, c: string)
    ensures a + (b + c) == a + b + c
  {
  }

  lemma {:induction false} AfterSpelled(d: ClassDecl)
    ensures After(d) == Foot(d) + Ending(d)
  {
    var annotation := if Annotated(d) then ".annotate({ identifier: " + d.quoted + " })" else "";
    assert After(d) == ")" + annotation + ";\n" + Export(d) + "type " + d.name + " = typeof " + d.name + ".Type;";
    assert Foot(d) == ")" + annotation by {
      if Annotated(d) {
        assert ")" + ".annotate({ identifier: " == ").annotate({ identifier: ";
        assert ")" + (".annotate({ identifier: " + d.quoted + " })")
            == ")" + ".annotate({ identifier: " + d.quoted + " })";
      }
    }
    EndingRegrouped(Foot(d), d);
  }

  lemma {:induction false} EndingRegrouped(x: string, d: ClassDecl)
    ensures x + ";\n" + Export(d) + "type " + d.name + " = typeof " + d.name + ".Type;" == x + Ending(d)
  {
    hide Export;
  }

  /** What is written for a declaration, as the script spells it. */
  lemma {:induction false} ReplacementSpelled(d: ClassDecl, fields: string)
    ensures BuildReplacement(d, fields)
         == Export(d) + "const " + d.name + " = Schema." + SchemaCall(d, fields) + Ending(d)
  {
    CallInParts(d, fields);
    BeforeSpelled(d);
    AfterSpelled(d);
    hide Before, After, SchemaCall, Ending, Head, Foot, Export;
    var a := Export(d) + "const " + d.name + " = Schema.";
    assert (a + Head(d)) + fields + (Foot(d) + Ending(d)) == a + (Head(d) + fields + Foot(d)) + Ending(d);
  }

  // ----- reading it back

  /** The rest of a string literal behind its opening quote. */
  predicate IsLiteralTail(s: string) {
    s != "" &&
    if s[0] == '"' then |s| == 1
    else if s[0] == '\\' then |s| > 1 && IsLiteralTail(s[2..])
    else IsLiteralTail(s[1..])
  }

  predicate IsLiteral(s: string) { s != "" && s[0] == '"' && IsLiteralTail(s[1..]) }

  lemma {:induction false} TailsAgree(a: string, x: string, b: string, y: string)
    requires IsLiteralTail(a) && IsLiteralTail(b) && a + x == b + y
    ensures a == b && x == y
    decreases |a|
  {
    assert a[0] == (a + x)[0] == (b + y)[0] == b[0];
    if a[0] == '"' {
      assert a == b == "\"";
      assert x == (a + x)[1..] && y == (b + y)[1..];
    } else {
      var k := if a[0] == '\\' then 2 else 1;
      assert a[..k] == (a + x)[..k] == (b + y)[..k] == b[..k];
      assert a[k..] + x == (a + x)[k..] == (b + y)[k..] == b[k..] + y;
      TailsAgree(a[k..], x, b[k..], y);
      assert a == a[..k] + a[k..] && b == b[..k] + b[k..];
    }
  }

  /** Inside a literal every quote is escaped. */
  lemma {:induction false} QuotesAreEscaped(s: string, i: nat)
    requires IsLiteralTail(s) && i < |s| - 1 && s[i] == '"'
    ensures i > 0 && s[i - 1] == '\\'
    decreases |s|
  {
    var k := if s[0] == '\\' then 2 else 1;
    if i >= k {
      QuotesAreEscaped(s[k..], i - k);
    }
  }

  const MARK := ").annotate({ identifier: "

  /** No expression reads so: it would close a parenthesis it never opened. */
  ghost predicate ReadsAsAnnotated(fields: string) {
    exists x, q :: IsLiteral(q) && fields == x + MARK + q + " }"
  }

  lemma {:induction false} CancelFront(p: string, x: string, y: string)
    requires p + x == p + y
    ensures x == y
  {
    assert x == (p + x)[|p|..] && y == (p + y)[|p|..];
  }

  lemma {:induction false} CancelBack(x: string, y: string, p: string)
    requires x + p == y + p
    ensures x == y
  {
    assert |x| == |y| && x == (x + p)[..|x|] && y == (y + p)[..|y|];
  }

  lemma {:induction false} ShorterLiteral(f: string, q: string, g: string, p: string)
    requires IsLiteral(q) && IsLiteral(p) && f + MARK + q == g + MARK + p
    ensures |p| <= |q|
  {
    if |p| > |q| {
      var whole, i := g + MARK + p, |p| - |q|;
      assert |q| >= 2 by { assert q[1..] != ""; }
      assert whole[|whole| - |q|] == q[0] == p[i];
      assert (f + MARK)[|f| + |MARK| - 1] == ' ';
      assert whole[|whole| - |q| - 1] == ' ' == p[i - 1];
      assert p[1..][i - 1] == '"' && p[1..][..i - 1] == p[1..i];
      QuotesAreEscaped(p[1..], i - 1);
      assert false;
    }
  }

  lemma {:induction false} AnnotationsAgree(f: string, q: string, g: string, p: string)
    requires IsLiteral(q) && IsLiteral(p) && f + MARK + q == g + MARK + p
    ensures f == g && q == p
  {
    ShorterLiteral(f, q, g, p);
    ShorterLiteral(g, p, f, q);
    var whole := f + MARK + q;
    assert q == whole[|whole| - |q|..] && p == whole[|whole| - |p|..];
    CancelBack(f + MARK, g + MARK, q);
    CancelBack(f, g, MARK);
  }

  lemma {:induction false} NamesEnd(a: string, x: string, b: string, y: string)
    requires (forall c :: c in a ==> IsNameChar(c)) && (forall c :: c in b ==> IsNameChar(c))
    requires x != "" && y != "" && !IsNameChar(x[0]) && !IsNameChar(y[0]) && a + x == b + y
    ensures a == b && x == y
  {
    NameEndsFirst(a, x, b, y);
    NameEndsFirst(b, y, a, x);
    var whole := a + x;
    assert a == whole[..|a|] && b == whole[..|b|] && x == whole[|a|..] && y == whole[|b|..];
  }

  lemma {:induction false} NameEndsFirst(a: string, x: string, b: string, y: string)
    requires forall c :: c in b ==> IsNameChar(c)
    requires x != "" && !IsNameChar(x[0]) && a + x == b + y
    ensures |b| <= |a|
  {
    assert !IsNameChar((a + x)[|a|]);
    assert forall i :: 0 <= i < |b| ==> IsNameChar((b + y)[i]);
  }

  /** The schema call determines its kind, its fields, and its tag or annotation. */
  lemma {:induction false} CallsAgree(d: ClassDecl, f: string, e: ClassDecl, g: string)
    requires IsLiteral(d.quoted) && IsLiteral(e.quoted) && !ReadsAsAnnotated(f) && !ReadsAsAnnotated(g)
    requires SchemaCall(d, f) == SchemaCall(e, g)
    ensures d.kind == e.kind && f == g
    ensures d.kind.TaggedClass? ==> d.quoted == e.quoted
    ensures d.kind.PlainClass? ==> Annotated(d) == Annotated(e) && (Annotated(d) ==> d.quoted == e.quoted)
  {
    assert SchemaCall(d, f)[0] == if d.kind.TaggedClass? then 'T' else 'S';
    assert SchemaCall(e, g)[0] == if e.kind.TaggedClass? then 'T' else 'S';
    if d.kind.TaggedClass? {
      TaggedCallsAgree(d, f, e, g);
    } else {
      PlainCallsAgree(d, f, e, g);
    }
  }

  lemma {:induction false} TaggedCallsAgree(d: ClassDecl, f: string, e: ClassDecl, g: string)
    requires IsLiteral(d.quoted) && IsLiteral(e.quoted) && d.kind.TaggedClass? && e.kind.TaggedClass?
    requires SchemaCall(d, f) == SchemaCall(e, g)
    ensures f == g && d.quoted == e.quoted
  {
    var front, x, y := "TaggedStruct(", ", " + f + ")", ", " + g + ")";
    var a, b := d.quoted, e.quoted;
    assert SchemaCall(d, f) == front + (a + x) && SchemaCall(e, g) == front + (b + y);
    CancelFront(front, a + x, b + y);
    assert a[1..] + x == (a + x)[1..] && b[1..] + y == (b + y)[1..];
    TailsAgree(a[1..], x, b[1..], y);
    assert a == ['"'] + a[1..] && b == ['"'] + b[1..];
    CancelFront(", ", f + ")", g + ")") by { assert x == ", " + (f + ")") && y == ", " + (g + ")"); }
    CancelBack(f, g, ")");
  }

  lemma {:induction false} PlainCallsAgree(d: ClassDecl, f: string, e: ClassDecl, g: string)
    requires IsLiteral(d.quoted) && IsLiteral(e.quoted) && !ReadsAsAnnotated(f) && !ReadsAsAnnotated(g)
    requires d.kind.PlainClass? && e.kind.PlainClass? && SchemaCall(d, f) == SchemaCall(e, g)
    ensures f == g && Annotated(d) == Annotated(e) && (Annotated(d) ==> d.quoted == e.quoted)
  {
    PlainCall(d, f);
    PlainCall(e, g);
    hide SchemaCall, IsLiteral;
    var x := if Annotated(d) then f + MARK + d.quoted + " }" else f;
    var y := if Annotated(e) then g + MARK + e.quoted + " }" else g;
    CancelFront("Struct(", x + ")", y + ")");
    CancelBack(x, y, ")");
    if Annotated(d) && Annotated(e) {
      CancelBack(f + MARK + d.quoted, g + MARK + e.quoted, " }");
      AnnotationsAgree(f, d.quoted, g, e.quoted);
    }
  }

  lemma {:induction false} PlainCall(d: ClassDecl, f: string)
    requires d.kind.PlainClass?
    ensures SchemaCall(d, f) == "Struct(" + ((if Annotated(d) then f + MARK + d.quoted + " }" else f) + ")")
  {
    if Annotated(d) {
      assert "Struct(" + f + ").annotate({ identifier: " + d.quoted + " })"
          == "Struct(" + (f + MARK + d.quoted + " }" + ")");
    }
  }

  /** Equal replacements come from declarations that agree on everything a reader needs: the name,
      the export, the kind, the fields, and the tag or the annotated identifier. */
  lemma {:induction false} ReplacementDeterminesDeclaration(d: ClassDecl, f: string, e: ClassDecl, g: string)
    requires IsIdentifier(d.name) && IsIdentifier(e.name) && IsLiteral(d.quoted) && IsLiteral(e.quoted)
    requires !ReadsAsAnnotated(f) && !ReadsAsAnnotated(g) && BuildReplacement(d, f) == BuildReplacement(e, g)
    ensures d.name == e.name && d.exported == e.exported && d.kind == e.kind && f == g
    ensures d.kind.TaggedClass? ==> d.quoted == e.quoted
    ensures d.kind.PlainClass? ==> Annotated(d) == Annotated(e) && (Annotated(d) ==> d.quoted == e.quoted)
  {
    ReplacementNested(d, f);
    ReplacementNested(e, g);
    hide BuildReplacement, SchemaCall, Ending, ReadsAsAnnotated, IsLiteral;
    var x, y := SchemaCall(d, f) + Ending(d), SchemaCall(e, g) + Ending(e);
    var a, b := d.name + (" = Schema." + x), e.name + (" = Schema." + y);
    assert BuildReplacement(d, f)[0] == if d.exported then 'e' else 'c';
    assert BuildReplacement(e, g)[0] == if e.exported then 'e' else 'c';
    CancelFront(Export(d), "const " + a, "const " + b);
    CancelFront("const ", a, b);
    NamesEnd(d.name, " = Schema." + x, e.name, " = Schema." + y);
    CancelFront(" = Schema.", x, y);
    SameEnding(d, e);
    CancelBack(SchemaCall(d, f), SchemaCall(e, g), Ending(d));
    CallsAgree(d, f, e, g);
  }

  lemma {:induction false} SameEnding(d: ClassDecl, e: ClassDecl)
    requires d.name == e.name && d.exported == e.exported
    ensures Ending(d) == Ending(e)
  {
  }

  lemma {:induction false} ReplacementNested(d: ClassDecl, f: string)
    ensures BuildReplacement(d, f)
         == Export(d) + ("const " + (d.name + (" = Schema." + (SchemaCall(d, f) + Ending(d)))))
  {
    ReplacementSpelled(d, f);
    hide BuildReplacement, SchemaCall, Ending, Export;
    var a, b, c := Export(d), d.name, SchemaCall(d, f) + Ending(d);
    assert a + "const " + b + " = Schema." + SchemaCall(d, f) + Ending(d) == a + "const " + b + " = Schema." + c;
    assert a + "const " + b + " = Schema." + c == a + ("const " + (b + (" = Schema." + c)));
  }

  // ----- a file that is one declaration

  function OneDeclaration(d: ClassDecl, before: string, fields: string, after: string): Forest {
    Node(Class(d), Plain(before, Node(Fields, Plain(fields, Nil), Plain(after, Nil))), Nil)
  }

  lemma {:induction false} OneDeclarationText(before: string, fields: string, after: string, inside: Forest)
    requires inside == Plain(before, Node(Fields, Plain(fields, Nil), Plain(after, Nil)))
    ensures Text(inside) == before + fields + after && FieldsOf(inside) == Plain(fields, Nil)
    ensures Text(Plain(fields, Nil)) == fields
  {
    var x, tail := Plain(fields, Nil), Plain(after, Nil);
    var node := Node(Fields, x, tail);
    assert Text(Nil) == "" && Text(x) == fields + "" == fields && Text(tail) == after + "" == after;
    assert Text(node) == "" + fields + after == fields + after;
    Assoc(before, fields, after);
    assert FieldsOf(inside) == FieldsOf(node) == x;
  }

  lemma {:induction false} OneDeclarationIsPlain(d: ClassDecl, before: string, fields: string, after: string, n: Names)
    requires before != ""
    ensures var f := OneDeclaration(d, before, fields, after); Led(f) && Quiet(f.inside, n)
  {
    var x, tail := Plain(fields, Nil), Plain(after, Nil);
    var node := Node(Fields, x, tail);
    assert Led(Nil) && Led(x) && Led(tail) && Led(node) && Led(Plain(before, node));
    assert Quiet(Nil, n) && Quiet(x, n) && Quiet(tail, n) && Quiet(node, n);
  }

  /** A declaration without members is replaced around its field expression; one with members is
      left as it was. */
  lemma {:induction false} DeclarationIsReplaced(d: ClassDecl, before: string, fields: string, after: string, n: Names)
    requires before != ""
    ensures var f := OneDeclaration(d, before, fields, after);
      && Text(f) == before + fields + after
      && SpliceAll(Text(f), SortDescending(FoundEdits(f, n)))
         == if d.members == 0 then BuildReplacement(d, fields) else Text(f)
  {
    var f := OneDeclaration(d, before, fields, after);
    var inside := f.inside;
    assert Text(Nil) == "" && Text(f) == "" + Text(inside) + "" == Text(inside) && Spliced(Nil, n, "") == "";
    hide Text, BuildReplacement, SpliceAll, SortDescending, FoundEdits, FieldsOf, Led, Quiet, OneDeclaration;
    OneDeclarationText(before, fields, after, inside);
    OneDeclarationIsPlain(d, before, fields, after, n);
    CodemodResult(f, n);
    QuietSplices(inside, n, "");
    OneNodeSplices(Class(d), inside, n, Text(inside));
  }

  lemma {:induction false} OneNodeSplices(k: Kind, inside: Forest, n: Names, text: string)
    requires k.Class? && text == Text(inside) && Spliced(inside, n, "") == text + ""
    ensures Spliced(Node(k, inside, Nil), n, "")
         == if k.decl.members == 0 then BuildReplacement(k.decl, Text(FieldsOf(inside))) else text
  {
    hide Text, BuildReplacement, FieldsOf;
    assert Spliced(Nil, n, "") == "" && text + "" == text && SliceFrom(text, |text|) == "";
    var replacement := BuildReplacement(k.decl, Text(FieldsOf(inside)));
    assert replacement + "" == replacement && "" + text == text;
  }
}
