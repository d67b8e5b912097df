/**
 * The token trees the macro receives.  Lexing is done by the host; a value
 * position holds either one literal token, one brace group, or something
 * that parses as a non-literal expression, abstracted as `OtherExpr`.
 */
module Tokens {
  /** The three kinds of delimited group. */
  datatype Delim = Bracket | Brace | Paren

  /** One constructor per kind of Rust literal. */
  datatype Literal =
    | LitBool(b: bool)
    | LitStr(s: string)          // the unescaped contents
    | LitInt(digits: string)     // the base-10 digits, suffix dropped
    | LitFloat(digits: string)
    | LitChar(c: char)
    | LitByte(byte: bv8)
    | LitByteStr(bytes: seq<bv8>)
    | LitCStr(bytes: seq<bv8>)
    | LitVerbatim(text: string)

  /**
   * `Ident` stands for an identifier that is not a Rust keyword. The keywords
   * `true` and `false` are `Lit(LitBool(_))`, as syn reads them; every other
   * keyword, and paths, unary and binary expressions and the like, are `OtherExpr`.
   */
  datatype Token =
    | Ident(name: string)
    | Eq
    | Semi
    | Comma
    | Lit(lit: Literal)
    | OtherExpr
    | Group(delim: Delim, body: seq<Token>)

  /** Number of tokens, counting those inside groups: the parser's termination measure. */
  function Size(ts: seq<Token>): nat
    decreases ts
  {
    if ts == [] then 0 else TokenSize(ts[0]) + Size(ts[1..])
  }

  function TokenSize(t: Token): (n: nat)
    ensures n >= 1
    decreases t
  {
    match t
    case Group(_, body) => 1 + Size(body)
    case _ => 1
  }

  /** Why a parse failed.  Positions and message texts are not modelled. */
  datatype ParseError =
    | ExpectedIdent       // an identifier was required
    | ExpectedEq          // `=` after a property name
    | ExpectedSemi        // `;` after a property of a table or of the document
    | ExpectedComma       // separator between inline-table entries
    | ExpectedBracket     // a table starts with a bracket group
    | ExpectedExpression  // no expression where a value belongs
    | NotALiteral         // an expression that is not a literal
    | InvalidLiteral      // a literal of a kind the value model rejects
    | UnexpectedToken     // tokens left over inside a delimited group
    | InvalidItem         // an item that is neither `[heading]` nor a property
}
