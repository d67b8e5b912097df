/**
 * Items with their parent name attached, and the dispatch of the three
 * renderers to the table or property renderer of the item's variant.
 */
module ItemRender {
  import opened Ast
  import opened Naming
  import opened Output
  import opened PropertyRender
  import opened TableRender

  datatype ChildItem = ChildTableItem(table: ChildTable) | ChildPropertyItem(property: ChildProperty)

  datatype ChildItemPrelude = TablePreludeItem(table: ChildTable) | PropertyPreludeItem(property: ChildProperty)

  datatype ChildItemDefault = TableDefaultItem(table: ChildTable) | PropertyDefaultItem(property: ChildProperty)

  /** `Item::into_child_item`: same variant, same payload, parent name attached. */
  function IntoChildItem(it: Item, parentName: Ident): (ci: ChildItem)
    ensures it.TableItem? <==> ci.ChildTableItem?
    ensures it.TableItem? ==> ci.table.table == it.table && ci.table.parentName == parentName
    ensures it.PropertyItem? ==> ci.property.property == it.property && ci.property.parentName == parentName
  {
    match it
    case TableItem(t) => ChildTableItem(ChildTable(t, parentName))
    case PropertyItem(p) => ChildPropertyItem(ChildProperty(parentName, p))
  }

  /** `ChildItem::into_item_prelude`: the variant is kept. */
  function IntoItemPrelude(ci: ChildItem): (pi: ChildItemPrelude)
    ensures ci.ChildTableItem? <==> pi.TablePreludeItem?
    ensures ci.ChildTableItem? ==> pi.table == ci.table
    ensures ci.ChildPropertyItem? ==> pi.property == ci.property
  {
    match ci
    case ChildTableItem(t) => TablePreludeItem(t)
    case ChildPropertyItem(p) => PropertyPreludeItem(p)
  }

  /** `ChildItem::into_item_default`: the variant is kept. */
  function IntoItemDefault(ci: ChildItem): (di: ChildItemDefault)
    ensures ci.ChildTableItem? <==> di.TableDefaultItem?
    ensures ci.ChildTableItem? ==> di.table == ci.table
    ensures ci.ChildPropertyItem? ==> di.property == ci.property
  {
    match ci
    case ChildTableItem(t) => TableDefaultItem(t)
    case ChildPropertyItem(p) => PropertyDefaultItem(p)
  }

  /** `ChildItem::to_tokens`: the field of the wrapped table or property. */
  function ItemField(ci: ChildItem, pascal: Casing): (f: Field)
    ensures ci.ChildTableItem? ==> f == TableField(ci.table, pascal)
    ensures ci.ChildPropertyItem? ==> f == PropertyField(ci.property, pascal)
  {
    match ci
    case ChildTableItem(t) => TableField(t, pascal)
    case ChildPropertyItem(p) => PropertyField(p, pascal)
  }

  /** `ChildItemPrelude::to_tokens`: the prelude of the wrapped table or property. */
  function ItemPrelude(pi: ChildItemPrelude, pascal: Casing): (ds: seq<StructDecl>)
    ensures pi.TablePreludeItem? ==> ds == TablePrelude(pi.table, pascal)
    ensures pi.PropertyPreludeItem? ==> ds == PropertyPrelude(pi.property, pascal)
  {
    match pi
    case TablePreludeItem(t) => TablePrelude(t, pascal)
    case PropertyPreludeItem(p) => PropertyPrelude(p, pascal)
  }

  /** `ChildItemDefault::to_tokens`: the default entry of the wrapped table or property. */
  function ItemDefault(di: ChildItemDefault, pascal: Casing): (e: Entry)
    ensures di.TableDefaultItem? ==> e == TableDefault(di.table, pascal)
    ensures di.PropertyDefaultItem? ==> e == PropertyDefault(di.property, pascal)
  {
    match di
    case TableDefaultItem(t) => TableDefault(t, pascal)
    case PropertyDefaultItem(p) => PropertyDefault(p, pascal)
  }

  /**
   * Whatever the casing, the default entry of an item has the field's name
   * and a value of the field's type.
   */
  lemma ItemDefaultMatchesField(ci: ChildItem, pascal: Casing)
    ensures ItemDefault(IntoItemDefault(ci), pascal).name == ItemField(ci, pascal).name
    ensures Conforms(ItemDefault(IntoItemDefault(ci), pascal).value, ItemField(ci, pascal).ty)
  {
  }

  /**
   * The item's prelude declares, as its last struct, the type its field
   * names, unless the item is a scalar property, which needs no declaration
   * and has none.
   */
  lemma ItemPreludeDeclaresField(ci: ChildItem, pascal: Casing)
    ensures var ds := ItemPrelude(IntoItemPrelude(ci), pascal);
            var f := ItemField(ci, pascal);
      f.ty.Named? <==> ds != []
    ensures var ds := ItemPrelude(IntoItemPrelude(ci), pascal);
            var f := ItemField(ci, pascal);
      ds != [] ==> f.ty == Named(ds[|ds| - 1].name)
  {
  }
}
