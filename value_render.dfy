/**
 * Rendering of values and inline tables (`ChildValue` and the three
 * `ChildInlineTable*` renderers).  A `ChildValue`'s default calls the inline
 * table's default renderer and that calls back for each entry, so both live
 * here.
 */
module ValueRender {
  import opened Wrappers
  import opened Ast
  import opened Naming
  import opened Output

  /** A value in the position of property `propertyName` of the struct `parentName`. */
  datatype ChildValue = ChildValue(value: Value, parentName: Ident, propertyName: Ident)

  /** An inline table that is the value of property `name` of the struct `parentName`. */
  datatype ChildInlineTable = ChildInlineTable(table: InlineTable, parentName: Ident, name: Ident)

  /** Field type of a scalar value: `bool`, `String` or `f64`. */
  function ScalarType(v: Value): (t: TypeRef)
    requires !v.InlineTable?
    ensures v.Boolean? <==> t == BoolType
    ensures v.String? <==> t == StringType
    ensures v.Number? <==> t == F64Type
  {
    match v
    case Boolean(_) => BoolType
    case String(_) => StringType
    case Number(_) => F64Type
  }

  /**
   * The member a property becomes inside the struct named `headingType`
   * (the closure of both the table and the inline-table prelude).
   */
  function MemberField(pascal: Casing, p: Property, headingType: Ident): Field
  {
    Field(p.name, if p.value.InlineTable? then Named(MemberTypeName(pascal, headingType, p.name)) else ScalarType(p.value))
  }

  function InlineHeadingType(c: ChildInlineTable, pascal: Casing): Ident
  {
    TypeName(pascal, c.parentName, c.name)
  }

  /** `ChildInlineTable::to_tokens`: an inline table renders nothing by itself. */
  function InlineTableTokens(c: ChildInlineTable): (out: seq<StructDecl>)
    ensures |out| == 0
  {
    []
  }

  /**
   * `ChildInlineTablePrelude`: one `pub struct` named from the parent and
   * the property name, one member per entry in order.  Members that are
   * themselves inline tables get a type name, but no declaration is emitted
   * for them.
   */
  function InlineTablePrelude(c: ChildInlineTable, pascal: Casing): (s: StructDecl)
    ensures s.name == TypeName(pascal, c.parentName, c.name) && s.isPub
    ensures |s.fields| == |c.table.properties|
    ensures forall k :: 0 <= k < |s.fields| ==>
      var p := c.table.properties[k];
      && s.fields[k].name == p.name
      && (p.value.InlineTable? ==> s.fields[k].ty == Named(MemberTypeName(pascal, s.name, p.name)))
      && (!p.value.InlineTable? ==> s.fields[k].ty == ScalarType(p.value))
  {
    var headingType := InlineHeadingType(c, pascal);
    var ps := c.table.properties;
    StructDecl(headingType, true, seq(|ps|, k requires 0 <= k < |ps| => MemberField(pascal, ps[k], headingType)))
  }

  /**
   * `ChildInlineTableDefault`: a struct literal of the same name, one entry
   * per property in order, each value rendered with that name as parent.
   */
  function InlineTableDefault(c: ChildInlineTable, pascal: Casing): (e: DefaultExpr)
    ensures e.StructLit? && e.name == TypeName(pascal, c.parentName, c.name)
    ensures |e.entries| == |c.table.properties|
    ensures forall k :: 0 <= k < |e.entries| ==>
      var p := c.table.properties[k];
      e.entries[k] == Entry(p.name, ChildValueDefault(ChildValue(p.value, e.name, p.name), pascal))
    decreases c.table, 0
  {
    var headingType := InlineHeadingType(c, pascal);
    var ps := c.table.properties;
    StructLit(headingType, seq(|ps|, k requires 0 <= k < |ps| =>
      Entry(ps[k].name, ChildValueDefault(ChildValue(ps[k].value, headingType, ps[k].name), pascal))))
  }

  /**
   * `ChildValue::to_tokens`: scalars are emitted as their literal (a string
   * followed by `.into()`); an inline table delegates to its default
   * renderer with the property as name and the parent unchanged.
   */
  function ChildValueDefault(cv: ChildValue, pascal: Casing): (e: DefaultExpr)
    ensures cv.value.Boolean? ==> e == Bool(cv.value.b)
    ensures cv.value.Number? ==> e == Num(cv.value.digits)
    ensures cv.value.String? ==> e == StrInto(cv.value.s)
    ensures cv.value.InlineTable? ==>
      e == InlineTableDefault(ChildInlineTable(cv.value.table, cv.parentName, cv.propertyName), pascal)
    decreases cv.value, 1
  {
    match cv.value
    case Boolean(b) => Bool(b)
    case String(s) => StrInto(s)
    case Number(d) => Num(d)
    case InlineTable(t) => InlineTableDefault(ChildInlineTable(t, cv.parentName, cv.propertyName), pascal)
  }

  /** The value a scalar default expression stands for. */
  function DefaultScalar(e: DefaultExpr): Option<Value>
  {
    match e
    case Bool(b) => Some(Boolean(b))
    case Num(d) => Some(Number(d))
    case StrInto(s) => Some(String(s))
    case StructLit(_, _) => None
  }

  /** A scalar default gives back the value it was rendered from, whatever its position. */
  lemma ScalarDefaultRoundTrip(v: Value, parent: Ident, name: Ident, pascal: Casing)
    requires !v.InlineTable?
    ensures DefaultScalar(ChildValueDefault(ChildValue(v, parent, name), pascal)) == Some(v)
    ensures Conforms(ChildValueDefault(ChildValue(v, parent, name), pascal), ScalarType(v))
  {
  }

  /**
   * A member's default has the member's declared type exactly when the
   * member is a scalar or the casing leaves the enclosing struct's name as is.
   */
  lemma MemberConforms(pascal: Casing, p: Property, headingType: Ident)
    ensures Conforms(ChildValueDefault(ChildValue(p.value, headingType, p.name), pascal), MemberField(pascal, p, headingType).ty)
      <==> (!p.value.InlineTable? || FixedBy(pascal, headingType))
  {
    if p.value.InlineTable? {
      MemberTypeNameAgrees(pascal, headingType, p.name);
    }
  }

  predicate HasInlineMember(ps: seq<Property>)
  {
    exists k :: 0 <= k < |ps| && ps[k].value.InlineTable?
  }

  /**
   * The inline table's default literal matches its declaration entry by
   * entry (same names, same order, values of the declared types) exactly
   * when it has no inline-table member or the casing is idempotent on its name.
   */
  lemma InlineDefaultConforms(c: ChildInlineTable, pascal: Casing)
    ensures var s := InlineTablePrelude(c, pascal);
            var e := InlineTableDefault(c, pascal);
      (forall k :: 0 <= k < |s.fields| ==>
         e.entries[k].name == s.fields[k].name && Conforms(e.entries[k].value, s.fields[k].ty))
      <==> (!HasInlineMember(c.table.properties) || FixedBy(pascal, s.name))
  {
    var s := InlineTablePrelude(c, pascal);
    var e := InlineTableDefault(c, pascal);
    var ps := c.table.properties;
    forall k | 0 <= k < |ps|
      ensures Conforms(e.entries[k].value, s.fields[k].ty) <==> (!ps[k].value.InlineTable? || FixedBy(pascal, s.name))
    {
      MemberConforms(pascal, ps[k], s.name);
      assert s.fields[k] == MemberField(pascal, ps[k], s.name);
    }
  }
}
