/**
 * The reference definition of the parser: one function per `Parse` impl,
 * each returning the parsed node and the tokens it left, or the first error.
 * The imperative parser in module Parser is proved equal to these functions.
 */
module Grammar {
  import opened Wrappers
  import opened Tokens
  import opened Ast

  /** A parse that succeeds with a value and the tokens it did not consume. */
  type Parsed<T> = Result<(T, seq<Token>), ParseError>

  predicate StartsWithIdent(ts: seq<Token>)
  {
    ts != [] && ts[0].Ident?
  }

  predicate StartsWithBracket(ts: seq<Token>)
  {
    ts != [] && ts[0].Group? && ts[0].delim == Bracket
  }

  /**
   * `name = value`: an identifier, a mandatory `=`, then a brace group
   * (an inline table, which must use up the whole group) or one expression,
   * which must be a literal of a kind the value model accepts.
   */
  function ParseProperty(ts: seq<Token>): (r: Parsed<Property>)
    ensures r.Ok? ==> Size(r.value.1) < Size(ts)
    ensures r.Ok? ==> StartsWithIdent(ts) && r.value.0.name == ts[0].name
    decreases Size(ts), 0
  {
    if !StartsWithIdent(ts) then Err(ExpectedIdent)
    else
      var t1 := ts[1..];
      if t1 == [] || !t1[0].Eq? then Err(ExpectedEq)
      else
        var t2 := t1[1..];
        if t2 == [] then Err(ExpectedExpression)
        else
          var rest := t2[1..];
          assert Size(ts) == 1 + Size(t1) && Size(t1) == 1 + Size(t2);
          assert Size(t2) == TokenSize(t2[0]) + Size(rest);
          match t2[0]
          case Group(Brace, body) =>
            var inner :- ParseInlineTable(body);
            if inner.1 != [] then Err(UnexpectedToken)
            else Ok((Property(ts[0].name, InlineTable(inner.0)), rest))
          case Lit(l) =>
            (match LitToValue(l)
             case Some(v) => Ok((Property(ts[0].name, v), rest))
             case None => Err(InvalidLiteral))
          case Eq => Err(ExpectedExpression)
          case Semi => Err(ExpectedExpression)
          case Comma => Err(ExpectedExpression)
          case _ => Err(NotALiteral)
  }

  /** The contents of a brace group: entries while the next token is an identifier. */
  function ParseInlineTable(ts: seq<Token>): (r: Parsed<InlineTable>)
    ensures r.Ok? ==> Size(r.value.1) <= Size(ts) && !StartsWithIdent(r.value.1)
    decreases Size(ts), 2
  {
    var pr :- ParseInlineProps(ts, true);
    Ok((Inline(pr.0), pr.1))
  }

  /**
   * The entry loop of an inline table, with the `ate_last_comma` flag as
   * written: the flag starts true and is only ever set to true, and when it
   * is false a comma would be demanded where an identifier stands.
   */
  function ParseInlineProps(ts: seq<Token>, ateLastComma: bool): (r: Parsed<seq<Property>>)
    ensures r.Ok? ==> Size(r.value.1) <= Size(ts) && !StartsWithIdent(r.value.1)
    decreases Size(ts), 1
  {
    if !StartsWithIdent(ts) then Ok(([], ts))
    else if !ateLastComma then Err(ExpectedComma)
    else
      var pr :- ParseProperty(ts);
      var (p, t1) := pr;
      var comma := t1 != [] && t1[0].Comma?;
      var t2 := if comma then t1[1..] else t1;
      var more :- ParseInlineProps(t2, if comma then true else ateLastComma);
      Ok(([p] + more.0, more.1))
  }

  /** An inline table is exactly the entry loop started with the flag set, its entries wrapped and its failure passed on. */
  lemma InlineTableIsLoop(ts: seq<Token>)
    ensures var r := ParseInlineProps(ts, true);
      ParseInlineTable(ts) == if r.Err? then Err(r.error) else Ok((Inline(r.value.0), r.value.1))
  {
  }

  /** One turn of the entry loop, with the flag set: a property, an optional comma, then the rest of the loop. */
  lemma InlinePropsStep(ts: seq<Token>)
    requires StartsWithIdent(ts) && ParseProperty(ts).Ok?
    ensures var (p, t1) := ParseProperty(ts).value;
            var later := ParseInlineProps(if t1 != [] && t1[0].Comma? then t1[1..] else t1, true);
      ParseInlineProps(ts, true) == if later.Err? then Err(later.error) else Ok(([p] + later.value.0, later.value.1))
  {
  }

  /** The `name = value;` lines of a table, up to the first token that is not an identifier. */
  function ParseTableContents(ts: seq<Token>): (r: Parsed<seq<Property>>)
    ensures r.Ok? ==> Size(r.value.1) <= Size(ts) && !StartsWithIdent(r.value.1)
    ensures !StartsWithIdent(ts) ==> r == Ok(([], ts))
    decreases Size(ts)
  {
    if !StartsWithIdent(ts) then Ok(([], ts))
    else
      var pr :- ParseProperty(ts);
      var (p, t1) := pr;
      if t1 == [] || !t1[0].Semi? then Err(ExpectedSemi)
      else
        var more :- ParseTableContents(t1[1..]);
        Ok(([p] + more.0, more.1))
  }

  /** `[heading]`: a bracket group holding exactly one identifier, then the table's contents. */
  function ParseTable(ts: seq<Token>): (r: Parsed<Table>)
    ensures r.Ok? ==> Size(r.value.1) < Size(ts) && !StartsWithIdent(r.value.1)
    ensures r.Ok? ==>
      && StartsWithBracket(ts)
      && ts[0].body == [Ident(r.value.0.heading)]
      && ParseTableContents(ts[1..]) == Ok((r.value.0.contents, r.value.1))
    decreases Size(ts)
  {
    if !StartsWithBracket(ts) then Err(ExpectedBracket)
    else
      var heading := ts[0].body;
      if !StartsWithIdent(heading) then Err(ExpectedIdent)
      else if |heading| > 1 then Err(UnexpectedToken)
      else
        var cr :- ParseTableContents(ts[1..]);
        Ok((Table(heading[0].name, cr.0), cr.1))
  }

  /**
   * An item: a leading bracket group starts a table, a leading identifier a
   * property that must be followed by `;`; anything else is an error.
   */
  function ParseItem(ts: seq<Token>): (r: Parsed<Item>)
    ensures r.Ok? ==> Size(r.value.1) < Size(ts)
    ensures StartsWithBracket(ts) ==>
      (r.Ok? <==> ParseTable(ts).Ok?) &&
      (r.Ok? ==> r.value == (TableItem(ParseTable(ts).value.0), ParseTable(ts).value.1))
    ensures StartsWithIdent(ts) ==>
      (r.Ok? <==> (ParseProperty(ts).Ok? && ParseProperty(ts).value.1 != [] && ParseProperty(ts).value.1[0].Semi?))
    ensures r.Ok? && r.value.0.PropertyItem? ==>
      && StartsWithIdent(ts)
      && ParseProperty(ts).Ok?
      && var (p, after) := ParseProperty(ts).value;
         p == r.value.0.property && after != [] && after[0].Semi? && r.value.1 == after[1..]
    ensures !StartsWithBracket(ts) && !StartsWithIdent(ts) ==> r == Err(InvalidItem)
  {
    if StartsWithBracket(ts) then
      var tr :- ParseTable(ts);
      Ok((TableItem(tr.0), tr.1))
    else if StartsWithIdent(ts) then
      var pr :- ParseProperty(ts);
      if pr.1 == [] || !pr.1[0].Semi? then Err(ExpectedSemi)
      else Ok((PropertyItem(pr.0), pr.1[1..]))
    else Err(InvalidItem)
  }

  /** Items until the input is empty; the first failing item fails the document. */
  function ParseDocument(ts: seq<Token>): (r: Result<Document, ParseError>)
    ensures ts == [] ==> r == Ok(Document([]))
    ensures ts != [] && ParseItem(ts).Err? ==> r == Err(ParseItem(ts).error)
    decreases Size(ts)
  {
    if ts == [] then Ok(Document([]))
    else
      var ir :- ParseItem(ts);
      var rest :- ParseDocument(ir.1);
      Ok(Document([ir.0] + rest.items))
  }

  /**
   * How the table-contents loop ends: a failing property fails the contents,
   * a property without `;` fails with `ExpectedSemi`, and a line ended by `;`
   * comes first, before the lines the loop parses after it.
   */
  lemma TableContentsCases(ts: seq<Token>)
    ensures StartsWithIdent(ts) && ParseProperty(ts).Err? ==>
      ParseTableContents(ts) == Err(ParseProperty(ts).error)
    ensures (StartsWithIdent(ts) && ParseProperty(ts).Ok? &&
             (ParseProperty(ts).value.1 == [] || !ParseProperty(ts).value.1[0].Semi?)) ==>
      ParseTableContents(ts) == Err(ExpectedSemi)
    ensures (StartsWithIdent(ts) && ParseProperty(ts).Ok? &&
             ParseProperty(ts).value.1 != [] && ParseProperty(ts).value.1[0].Semi?) ==>
      var (p, t1) := ParseProperty(ts).value;
      var later := ParseTableContents(t1[1..]);
      ParseTableContents(ts) == if later.Err? then Err(later.error) else Ok(([p] + later.value.0, later.value.1))
  {
  }

  /**
   * How a table parse ends: no bracket group, a heading that does not start
   * with an identifier, or one with more tokens after it, each give their
   * error; a heading of exactly one identifier gives the table of the
   * contents that follow, or the contents' failure.
   */
  lemma TableCases(ts: seq<Token>)
    ensures !StartsWithBracket(ts) ==> ParseTable(ts) == Err(ExpectedBracket)
    ensures StartsWithBracket(ts) && !StartsWithIdent(ts[0].body) ==> ParseTable(ts) == Err(ExpectedIdent)
    ensures (StartsWithBracket(ts) && StartsWithIdent(ts[0].body) && |ts[0].body| > 1) ==>
      ParseTable(ts) == Err(UnexpectedToken)
    ensures (StartsWithBracket(ts) && |ts[0].body| == 1 && ts[0].body[0].Ident?) ==>
      var c := ParseTableContents(ts[1..]);
      ParseTable(ts) == if c.Err? then Err(c.error) else Ok((Table(ts[0].body[0].name, c.value.0), c.value.1))
  {
  }

  /**
   * How an item parse ends: a table's or a property's failure is the item's,
   * a property without `;` fails with `ExpectedSemi`, and a property ended by
   * `;` is a property item that consumes the `;`.
   */
  lemma ItemCases(ts: seq<Token>)
    ensures StartsWithBracket(ts) && ParseTable(ts).Err? ==> ParseItem(ts) == Err(ParseTable(ts).error)
    ensures StartsWithIdent(ts) && ParseProperty(ts).Err? ==> ParseItem(ts) == Err(ParseProperty(ts).error)
    ensures (StartsWithIdent(ts) && ParseProperty(ts).Ok? &&
             (ParseProperty(ts).value.1 == [] || !ParseProperty(ts).value.1[0].Semi?)) ==>
      ParseItem(ts) == Err(ExpectedSemi)
    ensures (StartsWithIdent(ts) && ParseProperty(ts).Ok? &&
             ParseProperty(ts).value.1 != [] && ParseProperty(ts).value.1[0].Semi?) ==>
      ParseItem(ts) == Ok((PropertyItem(ParseProperty(ts).value.0), ParseProperty(ts).value.1[1..]))
    ensures StartsWithIdent(ts) && ParseItem(ts).Ok? ==> ParseItem(ts).value.0.PropertyItem?
  {
  }

  /** One turn of the item loop: the first item, then the rest of the document, whose failure is the document's. */
  lemma DocumentStep(ts: seq<Token>)
    ensures ts != [] && ParseItem(ts).Ok? ==>
      var (it, rest) := ParseItem(ts).value;
      ParseDocument(ts) == if ParseDocument(rest).Err? then Err(ParseDocument(rest).error)
                           else Ok(Document([it] + ParseDocument(rest).value.items))
  {
  }

  // ---------------------------------------------------------------------------
  // The separator check in inline tables never fires.

  lemma {:induction false} PropertyNeverDemandsComma(ts: seq<Token>)
    ensures ParseProperty(ts) != Err(ExpectedComma)
    decreases Size(ts), 0
  {
    if StartsWithIdent(ts) {
      var t1 := ts[1..];
      if t1 != [] && t1[0].Eq? {
        var t2 := t1[1..];
        if t2 != [] && t2[0].Group? && t2[0].delim == Brace {
          assert Size(ts) == 1 + Size(t1) && Size(t1) == 1 + Size(t2);
          assert Size(t2) == TokenSize(t2[0]) + Size(t2[1..]);
          InlineNeverDemandsComma(t2[0].body);
        }
      }
    }
  }

  /** Started with the flag set, as the source always does, the entry loop never asks for a comma. */
  lemma {:induction false} InlineNeverDemandsComma(ts: seq<Token>)
    ensures ParseInlineProps(ts, true) != Err(ExpectedComma)
    ensures ParseInlineTable(ts) != Err(ExpectedComma)
    decreases Size(ts), 1
  {
    if StartsWithIdent(ts) {
      PropertyNeverDemandsComma(ts);
      var pr := ParseProperty(ts);
      if pr.Ok? {
        var t1 := pr.value.1;
        var t2 := if t1 != [] && t1[0].Comma? then t1[1..] else t1;
        InlineNeverDemandsComma(t2);
      }
    }
  }

  /**
   * How a property parse ends, by the tokens at its head: a missing name,
   * `=` or value, a literal converted or refused, and any other expression
   * refused as not a literal.
   */
  lemma PropertyCases(ts: seq<Token>)
    ensures !StartsWithIdent(ts) ==> ParseProperty(ts) == Err(ExpectedIdent)
    ensures StartsWithIdent(ts) && (|ts| < 2 || !ts[1].Eq?) ==> ParseProperty(ts) == Err(ExpectedEq)
    ensures StartsWithIdent(ts) && |ts| >= 2 && ts[1].Eq? && (|ts| == 2 || ts[2].Eq? || ts[2].Semi? || ts[2].Comma?) ==>
      ParseProperty(ts) == Err(ExpectedExpression)
    ensures |ts| >= 3 && StartsWithIdent(ts) && ts[1].Eq? && ts[2].Lit? ==>
      ParseProperty(ts) ==
        if LitToValue(ts[2].lit).Some? then Ok((Property(ts[0].name, LitToValue(ts[2].lit).value), ts[3..]))
        else Err(InvalidLiteral)
    ensures |ts| >= 3 && StartsWithIdent(ts) && ts[1].Eq? &&
            (ts[2].OtherExpr? || ts[2].Ident? || (ts[2].Group? && ts[2].delim != Brace)) ==>
      ParseProperty(ts) == Err(NotALiteral)
  {
    if |ts| >= 3 {
      assert ts[1..][1..][0] == ts[2] && ts[1..][1..][1..] == ts[3..];
    }
  }

  /** A property takes exactly three tokens: its name, `=` and the value's token or group. */
  lemma PropertyRest(ts: seq<Token>)
    ensures ParseProperty(ts).Ok? ==> |ts| >= 3 && ParseProperty(ts).value.1 == ts[3..]
  {
    if |ts| >= 3 {
      assert ts[1..][1..][1..] == ts[3..];
    }
  }

  /**
   * The entry loop stops, consuming nothing, at a non-identifier; with the
   * flag clear it would demand a comma; it fails as its first entry fails,
   * and on success its first entry is the first property parsed.
   */
  lemma InlinePropsCases(ts: seq<Token>, ateLastComma: bool)
    ensures !StartsWithIdent(ts) ==> ParseInlineProps(ts, ateLastComma) == Ok(([], ts))
    ensures !StartsWithIdent(ts) ==> ParseInlineTable(ts) == Ok((Inline([]), ts))
    ensures StartsWithIdent(ts) && !ateLastComma ==> ParseInlineProps(ts, ateLastComma) == Err(ExpectedComma)
    ensures StartsWithIdent(ts) && ateLastComma && ParseProperty(ts).Err? ==>
      ParseInlineProps(ts, ateLastComma) == Err(ParseProperty(ts).error)
    ensures StartsWithIdent(ts) && ParseInlineProps(ts, ateLastComma).Ok? ==>
      && ParseProperty(ts).Ok?
      && ParseInlineProps(ts, ateLastComma).value.0 != []
      && ParseInlineProps(ts, ateLastComma).value.0[0] == ParseProperty(ts).value.0
  {
  }

  /** `rest` is what is left of `ts` after a prefix was consumed. */
  predicate SuffixOf(rest: seq<Token>, ts: seq<Token>)
  {
    |rest| <= |ts| && rest == ts[|ts| - |rest|..]
  }

  lemma SuffixTrans(c: seq<Token>, b: seq<Token>, a: seq<Token>)
    requires SuffixOf(c, b) && SuffixOf(b, a)
    ensures SuffixOf(c, a)
  {
    assert a[|a| - |b|..][|b| - |c|..] == a[|a| - |c|..];
  }

  /** What the entry loop leaves is a suffix of its input: the tokens after the entries. */
  lemma {:induction false} InlineRestIsSuffix(ts: seq<Token>, ateLastComma: bool)
    ensures ParseInlineProps(ts, ateLastComma).Ok? ==> SuffixOf(ParseInlineProps(ts, ateLastComma).value.1, ts)
    decreases Size(ts)
  {
    var r := ParseInlineProps(ts, ateLastComma);
    if StartsWithIdent(ts) && ateLastComma && r.Ok? {
      PropertyRest(ts);
      var t1 := ParseProperty(ts).value.1;
      assert SuffixOf(t1, ts);
      var comma := t1 != [] && t1[0].Comma?;
      var t2 := if comma then t1[1..] else t1;
      assert SuffixOf(t2, t1);
      SuffixTrans(t2, t1, ts);
      InlineRestIsSuffix(t2, if comma then true else ateLastComma);
      SuffixTrans(r.value.1, t2, ts);
    }
  }

  lemma InlineTableRestIsSuffix(ts: seq<Token>)
    ensures ParseInlineTable(ts).Ok? ==> SuffixOf(ParseInlineTable(ts).value.1, ts)
  {
    InlineRestIsSuffix(ts, true);
  }

  /**
   * A brace group as value is parsed as an inline table, whose failure is
   * the property's and which must use up the whole group.
   */
  lemma PropertyBraceValue(ts: seq<Token>)
    requires |ts| >= 3 && StartsWithIdent(ts) && ts[1].Eq? && ts[2].Group? && ts[2].delim == Brace
    ensures var inner := ParseInlineTable(ts[2].body);
      ParseProperty(ts) ==
        if inner.Err? then Err(inner.error)
        else if inner.value.1 != [] then Err(UnexpectedToken)
        else Ok((Property(ts[0].name, InlineTable(inner.value.0)), ts[3..]))
  {
    assert ts[1..][1..][0] == ts[2] && ts[1..][1..][1..] == ts[3..];
  }

  /** The errors a property can fail with: never a missing comma, `;`, bracket or item. */
  predicate PropertyError(e: ParseError)
  {
    e.ExpectedIdent? || e.ExpectedEq? || e.ExpectedExpression? || e.UnexpectedToken? || e.NotALiteral? || e.InvalidLiteral?
  }

  lemma {:induction false} PropertyErrorKinds(ts: seq<Token>)
    ensures ParseProperty(ts).Err? ==> PropertyError(ParseProperty(ts).error)
    decreases Size(ts), 0
  {
    if StartsWithIdent(ts) && |ts| >= 3 && ts[1].Eq? && ts[2].Group? && ts[2].delim == Brace {
      assert ts[1..][1..][0] == ts[2] && ts[1..][1..][1..] == ts[3..];
      assert Size(ts) == 1 + Size(ts[1..]) && Size(ts[1..]) == 1 + Size(ts[1..][1..]);
      assert Size(ts[1..][1..]) == TokenSize(ts[2]) + Size(ts[3..]);
      InlineErrorKinds(ts[2].body);
    }
  }

  /** An inline table fails only as one of its entries does. */
  lemma {:induction false} InlineErrorKinds(ts: seq<Token>)
    ensures ParseInlineProps(ts, true).Err? ==> PropertyError(ParseInlineProps(ts, true).error)
    ensures ParseInlineTable(ts).Err? ==> PropertyError(ParseInlineTable(ts).error)
    decreases Size(ts), 1
  {
    if StartsWithIdent(ts) {
      PropertyErrorKinds(ts);
      var pr := ParseProperty(ts);
      if pr.Ok? {
        var t1 := pr.value.1;
        var t2 := if t1 != [] && t1[0].Comma? then t1[1..] else t1;
        InlineErrorKinds(t2);
      }
    }
  }

  lemma {:induction false} TableContentsNeverDemandsComma(ts: seq<Token>)
    ensures ParseTableContents(ts) != Err(ExpectedComma)
    decreases Size(ts)
  {
    if StartsWithIdent(ts) {
      PropertyNeverDemandsComma(ts);
      var pr := ParseProperty(ts);
      if pr.Ok? && pr.value.1 != [] && pr.value.1[0].Semi? {
        TableContentsNeverDemandsComma(pr.value.1[1..]);
      }
    }
  }

  /** No input makes the document parser report a missing comma. */
  lemma {:induction false} DocumentNeverDemandsComma(ts: seq<Token>)
    ensures ParseDocument(ts) != Err(ExpectedComma)
    decreases Size(ts)
  {
    if ts != [] {
      if StartsWithBracket(ts) {
        TableContentsNeverDemandsComma(ts[1..]);
      } else if StartsWithIdent(ts) {
        PropertyNeverDemandsComma(ts);
      }
      var ir := ParseItem(ts);
      if ir.Ok? {
        DocumentNeverDemandsComma(ir.value.1);
      }
    }
  }

  // ---------------------------------------------------------------------------
  // Tables absorb every following property line.

  lemma {:induction false} OnlyTablesAfterNonIdent(ts: seq<Token>)
    requires ParseDocument(ts).Ok? && !StartsWithIdent(ts)
    ensures forall i :: 0 <= i < |ParseDocument(ts).value.items| ==> ParseDocument(ts).value.items[i].TableItem?
    decreases Size(ts)
  {
    if ts != [] {
      var ir := ParseItem(ts);
      OnlyTablesAfterNonIdent(ir.value.1);
    }
  }

  /** In every document that parses, no property item comes after a table item. */
  lemma {:induction false} ParsedTablesLast(ts: seq<Token>)
    requires ParseDocument(ts).Ok?
    ensures TablesLast(ParseDocument(ts).value.items)
    decreases Size(ts)
  {
    if ts != [] {
      var ir := ParseItem(ts);
      var rest := ir.value.1;
      ParsedTablesLast(rest);
      var items := ParseDocument(ts).value.items;
      var tail := ParseDocument(rest).value.items;
      assert items == [ir.value.0] + tail;
      if ir.value.0.TableItem? {
        OnlyTablesAfterNonIdent(rest);
      }
      forall i, j | 0 <= i < j < |items| && items[i].TableItem?
        ensures items[j].TableItem?
      {
        if i > 0 {
          assert items[i] == tail[i - 1] && items[j] == tail[j - 1];
        } else {
          assert items[j] == tail[j - 1];
        }
      }
    }
  }
}
