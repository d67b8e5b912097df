/**
 * `TomlDocument::to_tokens`: every top-level item gets the parent name
 * `Root`; the output is every item's prelude in item order, then
 * `struct Root` with one field per item, then its `Default` impl with one
 * entry per item.
 */
module Compiler {
  import opened Ast
  import opened Naming
  import opened Output
  import opened Scope
  import opened ValueRender
  import opened PropertyRender
  import opened TableRender
  import opened ItemRender

  /** The hard-coded name of the root struct and parent of every top-level item. */
  const RootName: Ident := "Root"

  function ChildItems(items: seq<Item>): seq<ChildItem>
  {
    seq(|items|, i requires 0 <= i < |items| => IntoChildItem(items[i], RootName))
  }

  /** The preludes of the items, concatenated in item order. */
  function DocumentPreludes(cs: seq<ChildItem>, pascal: Casing): seq<StructDecl>
  {
    if cs == [] then [] else ItemPrelude(IntoItemPrelude(cs[0]), pascal) + DocumentPreludes(cs[1..], pascal)
  }

  /** The whole expansion of a parsed document. */
  function RenderDocument(doc: Document, pascal: Casing): (g: Generated)
    ensures g.preludes == DocumentPreludes(ChildItems(doc.items), pascal)
    ensures g.root.name == RootName && !g.root.isPub && |g.root.fields| == |doc.items|
    ensures forall i :: 0 <= i < |doc.items| ==> g.root.fields[i] == ItemField(IntoChildItem(doc.items[i], RootName), pascal)
    ensures g.rootDefault.StructLit? && g.rootDefault.name == RootName && |g.rootDefault.entries| == |doc.items|
    ensures forall i :: 0 <= i < |doc.items| ==>
      g.rootDefault.entries[i] == ItemDefault(IntoItemDefault(IntoChildItem(doc.items[i], RootName)), pascal)
  {
    var items := ChildItems(doc.items);
    var prelude := DocumentPreludes(items, pascal);
    var fields := seq(|items|, i requires 0 <= i < |items| => ItemField(items[i], pascal));
    var defaults := seq(|items|, i requires 0 <= i < |items| => ItemDefault(IntoItemDefault(items[i]), pascal));
    Generated(prelude, StructDecl(RootName, false, fields), StructLit(RootName, defaults))
  }

  /** The name an item is known by in its parent: a table's heading or a property's name. */
  function ItemName(it: Item): Ident
  {
    match it
    case TableItem(t) => t.heading
    case PropertyItem(p) => p.name
  }

  /**
   * `Root`'s fields and its default's entries follow the items one to one
   * and in order, under the items' own names, and each entry has its
   * field's type, whatever the casing.
   */
  lemma RootFieldsMatchDefaults(doc: Document, pascal: Casing)
    ensures var g := RenderDocument(doc, pascal);
      forall i :: 0 <= i < |doc.items| ==>
        && g.root.fields[i].name == ItemName(doc.items[i])
        && g.rootDefault.entries[i].name == ItemName(doc.items[i])
        && Conforms(g.rootDefault.entries[i].value, g.root.fields[i].ty)
  {
  }

  // ---------------------------------------------------------------------------
  // Declaration before use.

  /** Every struct the expansion refers to is declared earlier in it. */
  predicate DeclaredBeforeUse(g: Generated)
  {
    ScopedIn({}, g.preludes + [g.root])
  }

  /** An inline table's value has no inline-table entry: the deepest nesting the emitter declares. */
  predicate ShallowValue(v: Value)
  {
    v.InlineTable? ==> !HasInlineMember(v.table.properties)
  }

  predicate ShallowItem(it: Item)
  {
    match it
    case PropertyItem(p) => ShallowValue(p.value)
    case TableItem(t) => forall k :: 0 <= k < |t.contents| ==> ShallowValue(t.contents[k].value)
  }

  /** A table with inline members has a type name the casing leaves unchanged. */
  predicate StableTableName(it: Item, pascal: Casing)
  {
    it.TableItem? && HasInlineMember(it.table.contents) ==> FixedBy(pascal, TypeName(pascal, RootName, it.table.heading))
  }

  lemma FlatInlinePrelude(c: ChildInlineTable, pascal: Casing)
    requires !HasInlineMember(c.table.properties)
    ensures Refs(InlineTablePrelude(c, pascal).fields) == {}
  {
  }

  lemma {:induction false} InlineMemberIndex(ps: seq<Property>, k: nat)
    requires k < |ps| && ps[k].value.InlineTable?
    ensures exists j :: 0 <= j < |InlineMembers(ps)| && InlineMembers(ps)[j] == ps[k]
  {
    if k > 0 {
      InlineMemberIndex(ps[1..], k - 1);
      var j :| 0 <= j < |InlineMembers(ps[1..])| && InlineMembers(ps[1..])[j] == ps[k];
      var front := if ps[0].value.InlineTable? then [ps[0]] else [];
      assert InlineMembers(ps)[|front| + j] == ps[k];
    } else {
      assert InlineMembers(ps)[0] == ps[0];
    }
  }

  /** A table's prelude is scoped: its inline members' structs come first and its own struct uses only them. */
  lemma TablePreludeScoped(env: set<Ident>, it: Item, pascal: Casing)
    requires it.TableItem? && ShallowItem(it) && StableTableName(it, pascal)
    ensures ScopedIn(env, TablePrelude(ChildTable(it.table, RootName), pascal))
  {
    var ct := ChildTable(it.table, RootName);
    var ds := TablePrelude(ct, pascal);
    var ps := it.table.contents;
    var ms := InlineMembers(ps);
    var n := |ms|;
    var members, s := ds[..n], ds[n];
    assert ds == members + [s];
    forall j | 0 <= j < n ensures Refs(members[j].fields) == {} {
      var k :| 0 <= k < |ps| && ps[k] == ms[j] by {
        assert ms[j].value.InlineTable?;
        MembersFromContents(ps, j);
      }
      FlatInlinePrelude(ChildInlineTable(ms[j].value.table, s.name, ms[j].name), pascal);
    }
    ScopedNoRefs(env, members);
    forall r | r in Refs(s.fields) ensures r in Names(members) {
      var k :| 0 <= k < |s.fields| && s.fields[k].ty.Named? && s.fields[k].ty.name == r;
      assert ps[k].value.InlineTable?;
      assert HasInlineMember(ps);
      MemberTypeNameAgrees(pascal, s.name, ps[k].name);
      InlineMemberIndex(ps, k);
      var j :| 0 <= j < |ms| && ms[j] == ps[k];
      assert members[j].name == r;
    }
    assert ScopedIn(env + Names(members), [s]);
    ScopedAppend(env, members, [s]);
  }

  lemma {:induction false} MembersFromContents(ps: seq<Property>, j: nat)
    requires j < |InlineMembers(ps)|
    ensures exists k :: 0 <= k < |ps| && ps[k] == InlineMembers(ps)[j]
  {
    if ps[0].value.InlineTable? && j == 0 {
      assert ps[0] == InlineMembers(ps)[0];
    } else {
      var front := if ps[0].value.InlineTable? then [ps[0]] else [];
      MembersFromContents(ps[1..], j - |front|);
      var k :| 0 <= k < |ps[1..]| && ps[1..][k] == InlineMembers(ps[1..])[j - |front|];
      assert ps[k + 1] == InlineMembers(ps)[j];
    }
  }

  lemma ItemPreludeScoped(env: set<Ident>, it: Item, pascal: Casing)
    requires ShallowItem(it) && StableTableName(it, pascal)
    ensures ScopedIn(env, ItemPrelude(IntoItemPrelude(IntoChildItem(it, RootName)), pascal))
  {
    match it {
      case TableItem(_) =>
        TablePreludeScoped(env, it, pascal);
      case PropertyItem(p) =>
        if p.value.InlineTable? {
          FlatInlinePrelude(ChildInlineTable(p.value.table, RootName, p.name), pascal);
          ScopedNoRefs(env, PropertyPrelude(ChildProperty(RootName, p), pascal));
        }
    }
  }

  lemma {:induction false} DocumentPreludesScoped(env: set<Ident>, items: seq<Item>, pascal: Casing)
    requires forall i :: 0 <= i < |items| ==> ShallowItem(items[i]) && StableTableName(items[i], pascal)
    ensures ScopedIn(env, DocumentPreludes(ChildItems(items), pascal))
    decreases |items|
  {
    var cs := ChildItems(items);
    if items != [] {
      var first := ItemPrelude(IntoItemPrelude(cs[0]), pascal);
      ItemPreludeScoped(env, items[0], pascal);
      assert cs[1..] == ChildItems(items[1..]);
      DocumentPreludesScoped(env + Names(first), items[1..], pascal);
      ScopedAppend(env, first, DocumentPreludes(cs[1..], pascal));
    }
  }

  /** Every struct an item's prelude declares is among the document's preludes. */
  lemma {:induction false} DocumentPreludesNames(cs: seq<ChildItem>, pascal: Casing, i: nat)
    requires i < |cs|
    ensures Names(ItemPrelude(IntoItemPrelude(cs[i]), pascal)) <= Names(DocumentPreludes(cs, pascal))
    decreases i
  {
    var first := ItemPrelude(IntoItemPrelude(cs[0]), pascal);
    var later := DocumentPreludes(cs[1..], pascal);
    assert DocumentPreludes(cs, pascal) == first + later;
    NamesAppend(first, later);
    if i > 0 {
      assert cs[1..][i - 1] == cs[i];
      DocumentPreludesNames(cs[1..], pascal, i - 1);
    }
  }

  /** Every type a field of `Root` names is declared by the preludes, whatever the casing. */
  lemma RootRefsDeclared(doc: Document, pascal: Casing)
    ensures var g := RenderDocument(doc, pascal);
      Refs(g.root.fields) <= Names(g.preludes)
  {
    var g := RenderDocument(doc, pascal);
    var cs := ChildItems(doc.items);
    forall r | r in Refs(g.root.fields) ensures r in Names(g.preludes) {
      var i :| 0 <= i < |g.root.fields| && g.root.fields[i].ty.Named? && g.root.fields[i].ty.name == r;
      var ds := ItemPrelude(IntoItemPrelude(cs[i]), pascal);
      ItemPreludeDeclaresField(cs[i], pascal);
      assert ds[|ds| - 1].name == r;
      DocumentPreludesNames(cs, pascal, i);
    }
  }

  /**
   * The expansion declares every struct before it is referred to, provided
   * no inline table sits inside an inline table and the casing leaves the
   * type names of tables with inline members unchanged.
   */
  lemma RenderedDeclaredBeforeUse(doc: Document, pascal: Casing)
    requires forall i :: 0 <= i < |doc.items| ==> ShallowItem(doc.items[i])
    requires forall i :: 0 <= i < |doc.items| ==> StableTableName(doc.items[i], pascal)
    ensures DeclaredBeforeUse(RenderDocument(doc, pascal))
  {
    var g := RenderDocument(doc, pascal);
    DocumentPreludesScoped({}, doc.items, pascal);
    RootRefsDeclared(doc, pascal);
    assert ScopedIn({} + Names(g.preludes), [g.root]);
    ScopedAppend({}, g.preludes, [g.root]);
  }
}
