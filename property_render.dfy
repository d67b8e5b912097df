/** The three renderers of a property in the struct `parentName`. */
module PropertyRender {
  import opened Ast
  import opened Naming
  import opened Output
  import opened ValueRender

  datatype ChildProperty = ChildProperty(parentName: Ident, property: Property)

  function PropertyTypeName(cp: ChildProperty, pascal: Casing): Ident
  {
    TypeName(pascal, cp.parentName, cp.property.name)
  }

  /** `ChildProperty::to_tokens`: `name: bool | String | f64`, or the inline table's type name. */
  function PropertyField(cp: ChildProperty, pascal: Casing): (f: Field)
    ensures f.name == cp.property.name
    ensures cp.property.value.InlineTable? ==> f.ty == Named(TypeName(pascal, cp.parentName, cp.property.name))
    ensures !cp.property.value.InlineTable? ==> f.ty == ScalarType(cp.property.value)
  {
    var typeName := PropertyTypeName(cp, pascal);
    match cp.property.value
    case Boolean(_) => Field(cp.property.name, BoolType)
    case String(_) => Field(cp.property.name, StringType)
    case Number(_) => Field(cp.property.name, F64Type)
    case InlineTable(_) => Field(cp.property.name, Named(typeName))
  }

  /**
   * `ChildPropertyPrelude`: nothing for a scalar; for an inline table its
   * prelude, with the same parent and name, which declares exactly the type
   * the field names.
   */
  function PropertyPrelude(cp: ChildProperty, pascal: Casing): (ds: seq<StructDecl>)
    ensures !cp.property.value.InlineTable? ==> ds == []
    ensures cp.property.value.InlineTable? ==>
      ds == [InlineTablePrelude(ChildInlineTable(cp.property.value.table, cp.parentName, cp.property.name), pascal)]
    ensures cp.property.value.InlineTable? ==> PropertyField(cp, pascal).ty == Named(ds[0].name)
  {
    match cp.property.value
    case InlineTable(t) => [InlineTablePrelude(ChildInlineTable(t, cp.parentName, cp.property.name), pascal)]
    case _ => []
  }

  /**
   * `ChildPropertyDefault`: `name: value`, the value rendered with the same
   * parent and property name as the field, so that it has the field's type.
   */
  function PropertyDefault(cp: ChildProperty, pascal: Casing): (e: Entry)
    ensures e.name == PropertyField(cp, pascal).name
    ensures e.value == ChildValueDefault(ChildValue(cp.property.value, cp.parentName, cp.property.name), pascal)
    ensures Conforms(e.value, PropertyField(cp, pascal).ty)
  {
    Entry(cp.property.name, ChildValueDefault(ChildValue(cp.property.value, cp.parentName, cp.property.name), pascal))
  }
}
