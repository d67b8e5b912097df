/** Concrete inputs that show the parser's acceptance rules and the emitter's limits. */
module Scenarios {
  import opened Wrappers
  import opened Tokens
  import opened Ast
  import opened Grammar
  import opened Naming
  import opened Output
  import opened Scope
  import opened Compiler

  /** `{a = 1 b = 2}`: entries without a separating comma are accepted. */
  lemma EntriesWithoutComma()
    ensures ParseInlineTable([Ident("a"), Eq, Lit(LitInt("1")), Ident("b"), Eq, Lit(LitInt("2"))])
      == Ok((Inline([Property("a", Number("1")), Property("b", Number("2"))]), []))
  {
    var ts := [Ident("a"), Eq, Lit(LitInt("1")), Ident("b"), Eq, Lit(LitInt("2"))];
    var t3 := ts[3..];
    assert ts[1..][1..][1..] == t3;
    assert t3[1..][1..][1..] == [];
    assert ParseProperty(t3) == Ok((Property("b", Number("2")), []));
    assert ParseInlineProps([], true) == Ok(([], []));
    assert [Property("b", Number("2"))] + [] == [Property("b", Number("2"))];
    assert ParseInlineProps(t3, true) == Ok(([Property("b", Number("2"))], []));
    assert [Property("a", Number("1"))] + [Property("b", Number("2"))] == [Property("a", Number("1")), Property("b", Number("2"))];
    assert ParseProperty(ts) == Ok((Property("a", Number("1")), t3));
  }

  /** `x = -1` and `x = [1, 2]`: an expression that is not a literal is refused. */
  lemma NonLiteralRefused()
    ensures ParseProperty([Ident("x"), Eq, OtherExpr]) == Err(NotALiteral)
    ensures ParseProperty([Ident("x"), Eq, Group(Bracket, [Lit(LitInt("1")), Comma, Lit(LitInt("2"))])]) == Err(NotALiteral)
  {
  }

  /** `x = 'c'`: a literal of a kind the value model has no variant for is refused. */
  lemma CharLiteralRefused()
    ensures ParseProperty([Ident("x"), Eq, Lit(LitChar('c'))]) == Err(InvalidLiteral)
  {
  }

  /** Inside `{a = 1,, b = 2}` the entries stop at the second comma. */
  lemma DoubleCommaBody()
    ensures ParseInlineTable([Ident("a"), Eq, Lit(LitInt("1")), Comma, Comma, Ident("b"), Eq, Lit(LitInt("2"))])
      == Ok((Inline([Property("a", Number("1"))]), [Comma, Ident("b"), Eq, Lit(LitInt("2"))]))
  {
    var body := [Ident("a"), Eq, Lit(LitInt("1")), Comma, Comma, Ident("b"), Eq, Lit(LitInt("2"))];
    var after := body[4..];
    assert after == [Comma, Ident("b"), Eq, Lit(LitInt("2"))];
    PropertyCases(body);
    assert body[3..][1..] == after;
    InlinePropsCases(after, true);
    InlinePropsStep(body);
    assert [Property("a", Number("1"))] + [] == [Property("a", Number("1"))];
  }

  /** `x = {a = 1,, b = 2}`: the second comma ends the entries, and the unread rest of the group is an error. */
  lemma DoubleCommaRefused()
    ensures ParseProperty([Ident("x"), Eq, Group(Brace, [Ident("a"), Eq, Lit(LitInt("1")), Comma, Comma, Ident("b"), Eq, Lit(LitInt("2"))])])
      == Err(UnexpectedToken)
  {
    DoubleCommaBody();
    PropertyBraceValue([Ident("x"), Eq, Group(Brace, [Ident("a"), Eq, Lit(LitInt("1")), Comma, Comma, Ident("b"), Eq, Lit(LitInt("2"))])]);
  }

  /** `y = 2;` alone: one line of table contents. */
  lemma LastContentLine()
    ensures ParseTableContents([Ident("y"), Eq, Lit(LitInt("2")), Semi]) == Ok(([Property("y", Number("2"))], []))
  {
    var c := [Ident("y"), Eq, Lit(LitInt("2")), Semi];
    PropertyCases(c);
    assert c[3..] == [Semi] && [Semi][1..] == [];
    assert [Property("y", Number("2"))] + [] == [Property("y", Number("2"))];
  }

  /** `x = 1; y = 2;`: the two lines, in order, as one table's contents. */
  lemma AbsorbedContents()
    ensures ParseTableContents([Ident("x"), Eq, Lit(LitInt("1")), Semi, Ident("y"), Eq, Lit(LitInt("2")), Semi])
      == Ok(([Property("x", Number("1")), Property("y", Number("2"))], []))
  {
    var c := [Ident("x"), Eq, Lit(LitInt("1")), Semi, Ident("y"), Eq, Lit(LitInt("2")), Semi];
    var line2 := [Ident("y"), Eq, Lit(LitInt("2")), Semi];
    PropertyCases(c);
    assert ParseProperty(c) == Ok((Property("x", Number("1")), c[3..]));
    assert c[3..][0].Semi? && c[3..][1..] == line2;
    LastContentLine();
    assert [Property("x", Number("1"))] + [Property("y", Number("2"))] == [Property("x", Number("1")), Property("y", Number("2"))];
  }

  /** `[t] x = 1;` followed by `y = 2;`: the table takes the second line as well. */
  lemma TableAbsorbsProperty()
    ensures ParseDocument([Group(Bracket, [Ident("t")]), Ident("x"), Eq, Lit(LitInt("1")), Semi,
                           Ident("y"), Eq, Lit(LitInt("2")), Semi])
      == Ok(Document([TableItem(Table("t", [Property("x", Number("1")), Property("y", Number("2"))]))]))
  {
    var ts := [Group(Bracket, [Ident("t")]), Ident("x"), Eq, Lit(LitInt("1")), Semi,
               Ident("y"), Eq, Lit(LitInt("2")), Semi];
    assert ts[1..] == [Ident("x"), Eq, Lit(LitInt("1")), Semi, Ident("y"), Eq, Lit(LitInt("2")), Semi];
    AbsorbedContents();
    var t := Table("t", [Property("x", Number("1")), Property("y", Number("2"))]);
    assert ParseTable(ts) == Ok((t, []));
    assert ParseItem(ts) == Ok((TableItem(t), []));
    assert ParseDocument([]) == Ok(Document([]));
    assert [TableItem(t)] + [] == [TableItem(t)];
  }

  function Identity(s: Ident): Ident
  {
    s
  }

  /** `a = { b = {} };` at top level: the type of `b` is referred to but never declared. */
  lemma DoublyNestedNotDeclared()
    ensures !DeclaredBeforeUse(RenderDocument(Document([PropertyItem(Property("a",
              InlineTable(Inline([Property("b", InlineTable(Inline([])))]))))]), Identity))
  {
    var doc := Document([PropertyItem(Property("a", InlineTable(Inline([Property("b", InlineTable(Inline([])))]))))]);
    var g := RenderDocument(doc, Identity);
    var inner := g.preludes[0];
    assert g.preludes == [inner];
    assert "Roota" + "b" == "Rootab";
    assert inner.fields[0].ty == Named("Rootab");
    assert "Rootab" in Refs(inner.fields);
    assert !(Refs(inner.fields) <= {});
    assert (g.preludes + [g.root])[0] == inner;
  }

  function Prefixing(s: Ident): Ident
  {
    "P" + s
  }

  /**
   * `[t] m = {};` with a casing that is not idempotent: the field of `m`
   * names `PRootPtPm` but the struct declared for it is `PPRootPtPm`.
   */
  lemma UnstableCasingNotDeclared()
    ensures !DeclaredBeforeUse(RenderDocument(Document([TableItem(Table("t", [Property("m", InlineTable(Inline([])))]))]), Prefixing))
  {
    var doc := Document([TableItem(Table("t", [Property("m", InlineTable(Inline([])))]))]);
    var g := RenderDocument(doc, Prefixing);
    var ds := g.preludes;
    assert |ds| == 2;
    assert "P" + ("PRoot" + "Pt") + "Pm" == "PPRootPtPm";
    assert "PRoot" + "Pt" + "Pm" == "PRootPtPm";
    assert ds[0].name == "PPRootPtPm";
    assert ds[1].fields[0].ty == Named("PRootPtPm");
    var all := ds + [g.root];
    assert all[0] == ds[0] && all[1..][0] == ds[1];
    assert "PRootPtPm" in Refs(ds[1].fields);
    assert |"PRootPtPm"| != |"PPRootPtPm"|;
    assert !(Refs(all[1..][0].fields) <= {} + {all[0].name});
    assert !ScopedIn({} + {all[0].name}, all[1..]);
  }
}
