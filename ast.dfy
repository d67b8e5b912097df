/** The parsed document and the value model. */
module Ast {
  import opened Wrappers
  import opened Tokens

  type Ident = string

  /** A property value.  Integer and float literals both become `Number`. */
  datatype Value =
    | Boolean(b: bool)
    | Number(digits: string)
    | String(s: string)
    | InlineTable(table: InlineTable)

  datatype InlineTable = Inline(properties: seq<Property>)

  datatype Property = Property(name: Ident, value: Value)

  /** A `[heading]` followed by its `name = value;` lines. */
  datatype Table = Table(heading: Ident, contents: seq<Property>)

  datatype Item = TableItem(table: Table) | PropertyItem(property: Property)

  datatype Document = Document(items: seq<Item>)

  /** No property item follows a table item. */
  predicate TablesLast(items: seq<Item>)
  {
    forall i, j :: 0 <= i < j < |items| && items[i].TableItem? ==> items[j].TableItem?
  }

  /** Conversion of a literal token into a value; any other kind of literal is refused. */
  function LitToValue(l: Literal): (v: Option<Value>)
    ensures l.LitBool? ==> v == Some(Boolean(l.b))
    ensures l.LitStr? ==> v == Some(String(l.s))
    ensures l.LitInt? || l.LitFloat? ==> v == Some(Number(l.digits))
    ensures v.None? <==> !(l.LitBool? || l.LitStr? || l.LitInt? || l.LitFloat?)
  {
    match l
    case LitBool(b) => Some(Boolean(b))
    case LitStr(s) => Some(String(s))
    case LitInt(d) => Some(Number(d))
    case LitFloat(d) => Some(Number(d))
    case _ => None
  }
}
