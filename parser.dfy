/**
 * The parser as the source writes it: each `Parse` impl advances a cursor
 * step by step, and the document, table-contents and inline-table parsers
 * are loops that push onto a growing vector.  Every method is proved to
 * return exactly what the reference function of module Grammar returns.
 */
module Parser {
  import opened Wrappers
  import opened Tokens
  import opened Ast
  import Grammar

  type Parsed<T> = Grammar.Parsed<T>

  /** `Property::parse`. */
  method ParseProperty(ts: seq<Token>) returns (r: Parsed<Property>)
    ensures r == Grammar.ParseProperty(ts)
    decreases Size(ts), 0
  {
    if !Grammar.StartsWithIdent(ts) {
      return Err(ExpectedIdent);
    }
    var name := ts[0].name;
    var input := ts[1..];
    if input == [] || !input[0].Eq? {
      return Err(ExpectedEq);
    }
    assert Size(ts) == 1 + Size(input);
    assert Size(input) == 1 + Size(input[1..]);
    input := input[1..];
    if input == [] {
      return Err(ExpectedExpression);
    }
    var value := input[0];
    input := input[1..];
    match value {
      case Group(Brace, body) =>
        var contents :- ParseInlineTable(body);
        if contents.1 != [] {
          return Err(UnexpectedToken);
        }
        return Ok((Property(name, InlineTable(contents.0)), input));
      case Lit(l) =>
        var v := LitToValue(l);
        if v.None? {
          return Err(InvalidLiteral);
        }
        return Ok((Property(name, v.value), input));
      case Eq => return Err(ExpectedExpression);
      case Semi => return Err(ExpectedExpression);
      case Comma => return Err(ExpectedExpression);
      case _ => return Err(NotALiteral);
    }
  }

  /** Prefixes the entries already collected to the outcome of the rest of the loop. */
  function PrependEntries(done: seq<Property>, r: Parsed<seq<Property>>): Parsed<InlineTable>
  {
    match r
    case Ok((ps, rest)) => Ok((Inline(done + ps), rest))
    case Err(e) => Err(e)
  }

  /** One turn of the entry loop: the entry parsed moves from the rest of the loop to the collected ones. */
  lemma InlineStep(done: seq<Property>, input: seq<Token>, p: Property, t1: seq<Token>)
    requires Grammar.StartsWithIdent(input) && Grammar.ParseProperty(input) == Ok((p, t1))
    ensures PrependEntries(done, Grammar.ParseInlineProps(input, true))
      == PrependEntries(done + [p], Grammar.ParseInlineProps(if t1 != [] && t1[0].Comma? then t1[1..] else t1, true))
  {
    var later := Grammar.ParseInlineProps(if t1 != [] && t1[0].Comma? then t1[1..] else t1, true);
    Grammar.InlinePropsStep(input);
    if later.Ok? {
      var (ps, rest) := later.value;
      calc {
        PrependEntries(done, Grammar.ParseInlineProps(input, true));
        PrependEntries(done, Ok(([p] + ps, rest)));
        Ok((Inline(done + ([p] + ps)), rest));
        { assert done + ([p] + ps) == (done + [p]) + ps; }
        PrependEntries(done + [p], later);
      }
    }
  }

  /** `InlineTable::parse`: the loop over `ate_last_comma`. */
  method ParseInlineTable(ts: seq<Token>) returns (r: Parsed<InlineTable>)
    ensures r == Grammar.ParseInlineTable(ts)
    decreases Size(ts), 2
  {
    var properties: seq<Property> := [];
    var ateLastComma := true;
    var input := ts;
    var whole := Grammar.ParseInlineProps(ts, true);
    assert whole.Ok? ==> [] + whole.value.0 == whole.value.0;
    while Grammar.StartsWithIdent(input)
      invariant Size(input) <= Size(ts)
      invariant Grammar.ParseInlineTable(ts) == PrependEntries(properties, Grammar.ParseInlineProps(input, ateLastComma))
      decreases Size(input)
    {
      if !ateLastComma {
        // An identifier stands where the comma would be parsed.
        return Err(ExpectedComma);
      }
      var pr :- ParseProperty(input);
      InlineStep(properties, input, pr.0, pr.1);
      properties := properties + [pr.0];
      input := pr.1;
      if input != [] && input[0].Comma? {
        input := input[1..];
        ateLastComma := true;
      }
    }
    assert properties + [] == properties;
    return Ok((Inline(properties), input));
  }

  /** Prefixes the properties already collected to the outcome of the rest of the loop. */
  function PrependProperties(done: seq<Property>, r: Parsed<seq<Property>>): Parsed<seq<Property>>
  {
    match r
    case Ok((ps, rest)) => Ok((done + ps, rest))
    case Err(e) => Err(e)
  }

  /** `TableContents::parse`. */
  method ParseTableContents(ts: seq<Token>) returns (r: Parsed<seq<Property>>)
    ensures r == Grammar.ParseTableContents(ts)
  {
    var properties: seq<Property> := [];
    var input := ts;
    var whole := Grammar.ParseTableContents(ts);
    assert whole.Ok? ==> [] + whole.value.0 == whole.value.0;
    while Grammar.StartsWithIdent(input)
      invariant Grammar.ParseTableContents(ts) == PrependProperties(properties, Grammar.ParseTableContents(input))
      decreases Size(input)
    {
      var pr :- ParseProperty(input);
      input := pr.1;
      if input == [] || !input[0].Semi? {
        return Err(ExpectedSemi);
      }
      input := input[1..];
      ghost var later := Grammar.ParseTableContents(input);
      assert later.Ok? ==> properties + ([pr.0] + later.value.0) == (properties + [pr.0]) + later.value.0;
      properties := properties + [pr.0];
    }
    assert properties + [] == properties;
    return Ok((properties, input));
  }

  /** `Table::parse`. */
  method ParseTable(ts: seq<Token>) returns (r: Parsed<Table>)
    ensures r == Grammar.ParseTable(ts)
  {
    if !Grammar.StartsWithBracket(ts) {
      return Err(ExpectedBracket);
    }
    var heading := ts[0].body;
    if !Grammar.StartsWithIdent(heading) {
      return Err(ExpectedIdent);
    }
    if |heading| > 1 {
      return Err(UnexpectedToken);
    }
    var contents :- ParseTableContents(ts[1..]);
    return Ok((Table(heading[0].name, contents.0), contents.1));
  }

  /** `Item::parse`. */
  method ParseItem(ts: seq<Token>) returns (r: Parsed<Item>)
    ensures r == Grammar.ParseItem(ts)
  {
    if Grammar.StartsWithBracket(ts) {
      var table :- ParseTable(ts);
      return Ok((TableItem(table.0), table.1));
    }
    if Grammar.StartsWithIdent(ts) {
      var property :- ParseProperty(ts);
      var input := property.1;
      if input == [] || !input[0].Semi? {
        return Err(ExpectedSemi);
      }
      return Ok((PropertyItem(property.0), input[1..]));
    }
    return Err(InvalidItem);
  }

  /** Prefixes the items already collected to the outcome of the rest of the loop. */
  function PrependItems(done: seq<Item>, r: Result<Document, ParseError>): Result<Document, ParseError>
  {
    match r
    case Ok(doc) => Ok(Document(done + doc.items))
    case Err(e) => Err(e)
  }

  /** `TomlDocument::parse`: items until the input is empty. */
  method ParseDocument(ts: seq<Token>) returns (r: Result<Document, ParseError>)
    ensures r == Grammar.ParseDocument(ts)
  {
    var items: seq<Item> := [];
    var input := ts;
    var whole := Grammar.ParseDocument(ts);
    assert whole.Ok? ==> [] + whole.value.items == whole.value.items;
    while input != []
      invariant Grammar.ParseDocument(ts) == PrependItems(items, Grammar.ParseDocument(input))
      decreases Size(input)
    {
      var item :- ParseItem(input);
      ghost var later := Grammar.ParseDocument(item.1);
      assert later.Ok? ==> items + ([item.0] + later.value.items) == (items + [item.0]) + later.value.items;
      items := items + [item.0];
      input := item.1;
    }
    assert items + [] == items;
    return Ok(Document(items));
  }
}
