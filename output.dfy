/**
 * The generated code, kept abstract: struct declarations, default-value
 * expressions, and the whole expansion of a document.
 */
module Output {
  import opened Ast

  datatype TypeRef = BoolType | StringType | F64Type | Named(name: Ident)

  datatype Field = Field(name: Ident, ty: TypeRef)

  datatype StructDecl = StructDecl(name: Ident, isPub: bool, fields: seq<Field>)

  /** `true`, `8080f64`, `"svc".into()`, `Name { field: expr, ... }`. */
  datatype DefaultExpr =
    | Bool(b: bool)
    | Num(digits: string)
    | StrInto(s: string)
    | StructLit(name: Ident, entries: seq<Entry>)

  datatype Entry = Entry(name: Ident, value: DefaultExpr)

  /**
   * A whole expansion: the preludes in order, then the root struct, then
   * `impl Default for Root { fn default() -> Root { rootDefault } }`.
   */
  datatype Generated = Generated(preludes: seq<StructDecl>, root: StructDecl, rootDefault: DefaultExpr)

  /** The default expression has the shape of a value of the type (struct literals by name). */
  predicate Conforms(e: DefaultExpr, ty: TypeRef)
  {
    match ty
    case BoolType => e.Bool?
    case StringType => e.StrInto?
    case F64Type => e.Num?
    case Named(n) => e.StructLit? && e.name == n
  }
}
