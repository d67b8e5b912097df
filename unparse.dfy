/**
 * A printer from documents back to token trees, and the round trip: a
 * document prints to tokens that parse back to the same document exactly
 * when no property item follows a table item.
 */
module Unparse {
  import opened Wrappers
  import opened Tokens
  import opened Ast
  import opened Grammar

  function ValueTokens(v: Value): seq<Token>
    decreases v, 1
  {
    match v
    case Boolean(b) => [Lit(LitBool(b))]
    case Number(d) => [Lit(LitFloat(d))]
    case String(s) => [Lit(LitStr(s))]
    case InlineTable(t) => [Group(Brace, InlineTokens(t.properties))]
  }

  function PropertyTokens(p: Property): seq<Token>
    decreases p, 2
  {
    [Ident(p.name), Eq] + ValueTokens(p.value)
  }

  /** Inline-table entries, each followed by a comma (the last one a trailing comma). */
  function InlineTokens(ps: seq<Property>): seq<Token>
    decreases ps, 0
  {
    if ps == [] then [] else PropertyTokens(ps[0]) + [Comma] + InlineTokens(ps[1..])
  }

  function ContentsTokens(ps: seq<Property>): seq<Token>
  {
    if ps == [] then [] else PropertyTokens(ps[0]) + [Semi] + ContentsTokens(ps[1..])
  }

  function ItemTokens(it: Item): seq<Token>
  {
    match it
    case TableItem(t) => [Group(Bracket, [Ident(t.heading)])] + ContentsTokens(t.contents)
    case PropertyItem(p) => PropertyTokens(p) + [Semi]
  }

  function DocumentTokens(items: seq<Item>): seq<Token>
  {
    if items == [] then [] else ItemTokens(items[0]) + DocumentTokens(items[1..])
  }

  lemma {:induction false} PropertyRoundTrip(p: Property, rest: seq<Token>)
    ensures ParseProperty(PropertyTokens(p) + rest) == Ok((p, rest))
    decreases p, 2
  {
    var ts := PropertyTokens(p) + rest;
    assert ts[1..][1..] == ValueTokens(p.value) + rest;
    assert ts[1..][1..][1..] == rest;
    match p.value {
      case InlineTable(t) =>
        InlineRoundTrip(t.properties);
      case _ =>
    }
  }

  /** Comma-terminated entries, trailing comma included, parse back to the same entries. */
  lemma {:induction false} InlineRoundTrip(ps: seq<Property>)
    ensures ParseInlineProps(InlineTokens(ps), true) == Ok((ps, []))
    ensures ParseInlineTable(InlineTokens(ps)) == Ok((Inline(ps), []))
    decreases ps, 0
  {
    if ps != [] {
      var tail := InlineTokens(ps[1..]);
      assert InlineTokens(ps) == PropertyTokens(ps[0]) + ([Comma] + tail);
      PropertyRoundTrip(ps[0], [Comma] + tail);
      assert ([Comma] + tail)[1..] == tail;
      InlineRoundTrip(ps[1..]);
      assert [ps[0]] + ps[1..] == ps;
    }
  }

  lemma {:induction false} ContentsRoundTrip(ps: seq<Property>, rest: seq<Token>)
    requires !StartsWithIdent(rest)
    ensures ParseTableContents(ContentsTokens(ps) + rest) == Ok((ps, rest))
  {
    if ps == [] {
      assert ContentsTokens(ps) + rest == rest;
    } else {
      var tail := ContentsTokens(ps[1..]) + rest;
      assert ContentsTokens(ps) + rest == PropertyTokens(ps[0]) + ([Semi] + tail);
      PropertyRoundTrip(ps[0], [Semi] + tail);
      assert ([Semi] + tail)[1..] == tail;
      ContentsRoundTrip(ps[1..], rest);
      assert [ps[0]] + ps[1..] == ps;
    }
  }

  lemma TableRoundTrip(t: Table, rest: seq<Token>)
    requires !StartsWithIdent(rest)
    ensures ParseTable(ItemTokens(TableItem(t)) + rest) == Ok((t, rest))
  {
    var contents := ContentsTokens(t.contents) + rest;
    var ts := [Group(Bracket, [Ident(t.heading)])] + contents;
    assert ItemTokens(TableItem(t)) + rest == ts;
    assert ts[1..] == contents;
    ContentsRoundTrip(t.contents, rest);
  }

  lemma {:induction false} ItemRoundTrip(it: Item, rest: seq<Token>)
    requires it.TableItem? ==> !StartsWithIdent(rest)
    ensures ParseItem(ItemTokens(it) + rest) == Ok((it, rest))
  {
    match it {
      case TableItem(t) =>
        TableRoundTrip(t, rest);
      case PropertyItem(p) =>
        assert ItemTokens(it) + rest == PropertyTokens(p) + ([Semi] + rest);
        PropertyRoundTrip(p, [Semi] + rest);
        assert ([Semi] + rest)[1..] == rest;
    }
  }

  lemma TablesPrintBracketFirst(items: seq<Item>)
    requires forall i :: 0 <= i < |items| ==> items[i].TableItem?
    ensures !StartsWithIdent(DocumentTokens(items))
  {
  }

  /** A document whose tables come last prints to tokens that parse back to it. */
  lemma {:induction false} DocumentRoundTrip(items: seq<Item>)
    requires TablesLast(items)
    ensures ParseDocument(DocumentTokens(items)) == Ok(Document(items))
  {
    if items != [] {
      var tail := items[1..];
      assert TablesLast(tail) by {
        forall i, j | 0 <= i < j < |tail| && tail[i].TableItem? ensures tail[j].TableItem? {
          assert items[i + 1] == tail[i] && items[j + 1] == tail[j];
        }
      }
      if items[0].TableItem? {
        forall i | 0 <= i < |tail| ensures tail[i].TableItem? {
          assert items[i + 1] == tail[i];
        }
        TablesPrintBracketFirst(tail);
      }
      ItemRoundTrip(items[0], DocumentTokens(tail));
      DocumentRoundTrip(tail);
      assert [items[0]] + tail == items;
    }
  }

  /**
   * Printing and re-parsing gives the document back if and only if no
   * property item follows a table item: otherwise the table absorbs it.
   */
  lemma DocumentRoundTripExactly(items: seq<Item>)
    ensures ParseDocument(DocumentTokens(items)) == Ok(Document(items)) <==> TablesLast(items)
  {
    if TablesLast(items) {
      DocumentRoundTrip(items);
    } else if ParseDocument(DocumentTokens(items)) == Ok(Document(items)) {
      ParsedTablesLast(DocumentTokens(items));
    }
  }
}
