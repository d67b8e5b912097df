/** The three renderers of a `[heading]` table in the struct `parentName`. */
module TableRender {
  import opened Ast
  import opened Naming
  import opened Output
  import opened Scope
  import opened ValueRender
  import opened PropertyRender

  datatype ChildTable = ChildTable(table: Table, parentName: Ident)

  function HeadingType(ct: ChildTable, pascal: Casing): Ident
  {
    TypeName(pascal, ct.parentName, ct.table.heading)
  }

  /** `ChildTable::to_tokens`: `heading: HeadingType`. */
  function TableField(ct: ChildTable, pascal: Casing): (f: Field)
    ensures f == Field(ct.table.heading, Named(TypeName(pascal, ct.parentName, ct.table.heading)))
  {
    Field(ct.table.heading, Named(HeadingType(ct, pascal)))
  }

  /** What the prelude closure writes to the output for one member before the struct. */
  function MemberPrelude(pascal: Casing, p: Property, headingType: Ident): seq<StructDecl>
  {
    match p.value
    case InlineTable(t) => [InlineTablePrelude(ChildInlineTable(t, headingType, p.name), pascal)]
    case _ => []
  }

  function MemberPreludes(pascal: Casing, ps: seq<Property>, headingType: Ident): seq<StructDecl>
  {
    if ps == [] then [] else MemberPrelude(pascal, ps[0], headingType) + MemberPreludes(pascal, ps[1..], headingType)
  }

  /** The members whose value is an inline table, in order. */
  function InlineMembers(ps: seq<Property>): (ms: seq<Property>)
    ensures forall j :: 0 <= j < |ms| ==> ms[j].value.InlineTable?
  {
    if ps == [] then []
    else (if ps[0].value.InlineTable? then [ps[0]] else []) + InlineMembers(ps[1..])
  }

  lemma {:induction false} MemberPreludesInOrder(pascal: Casing, ps: seq<Property>, headingType: Ident)
    ensures var ds := MemberPreludes(pascal, ps, headingType);
            var ms := InlineMembers(ps);
      && |ds| == |ms|
      && forall j :: 0 <= j < |ds| ==>
           ds[j] == InlineTablePrelude(ChildInlineTable(ms[j].value.table, headingType, ms[j].name), pascal)
  {
    if ps != [] {
      MemberPreludesInOrder(pascal, ps[1..], headingType);
      var ds, ms := MemberPreludes(pascal, ps, headingType), InlineMembers(ps);
      var d0, dt := MemberPrelude(pascal, ps[0], headingType), MemberPreludes(pascal, ps[1..], headingType);
      var m0, mt := (if ps[0].value.InlineTable? then [ps[0]] else []), InlineMembers(ps[1..]);
      assert ds == d0 + dt && ms == m0 + mt && |d0| == |m0|;
      forall j | 0 <= j < |ds|
        ensures ds[j] == InlineTablePrelude(ChildInlineTable(ms[j].value.table, headingType, ms[j].name), pascal)
      {
        if j >= |d0| {
          assert ds[j] == dt[j - |d0|] && ms[j] == mt[j - |m0|];
        }
      }
    }
  }

  /**
   * `ChildTablePrelude`: the preludes of the inline-table members, in
   * member order, then one non-`pub` struct named HeadingType with one
   * member per property in order.
   */
  function TablePrelude(ct: ChildTable, pascal: Casing): (ds: seq<StructDecl>)
    ensures |ds| == |InlineMembers(ct.table.contents)| + 1
    ensures var ht := TypeName(pascal, ct.parentName, ct.table.heading);
            var ps := ct.table.contents;
            var ms := InlineMembers(ps);
            var s := ds[|ds| - 1];
      && (forall j :: 0 <= j < |ms| ==> ds[j] == InlineTablePrelude(ChildInlineTable(ms[j].value.table, ht, ms[j].name), pascal))
      && s.name == ht && !s.isPub && |s.fields| == |ps|
      && (forall k :: 0 <= k < |ps| ==>
            && s.fields[k].name == ps[k].name
            && (ps[k].value.InlineTable? ==> s.fields[k].ty == Named(MemberTypeName(pascal, ht, ps[k].name)))
            && (!ps[k].value.InlineTable? ==> s.fields[k].ty == ScalarType(ps[k].value)))
  {
    var headingType := HeadingType(ct, pascal);
    var ps := ct.table.contents;
    MemberPreludesInOrder(pascal, ps, headingType);
    MemberPreludes(pascal, ps, headingType)
      + [StructDecl(headingType, false, seq(|ps|, k requires 0 <= k < |ps| => MemberField(pascal, ps[k], headingType)))]
  }

  /** `ChildTableDefault`: `heading: HeadingType { ... }`, one property default per member, with HeadingType as parent. */
  function TableDefault(ct: ChildTable, pascal: Casing): (e: Entry)
    ensures var ht := TypeName(pascal, ct.parentName, ct.table.heading);
            var ps := ct.table.contents;
      && e.name == ct.table.heading
      && e.value.StructLit? && e.value.name == ht
      && |e.value.entries| == |ps|
      && forall k :: 0 <= k < |ps| ==> e.value.entries[k] == PropertyDefault(ChildProperty(ht, ps[k]), pascal)
  {
    var headingType := HeadingType(ct, pascal);
    var ps := ct.table.contents;
    Entry(ct.table.heading, StructLit(headingType, seq(|ps|, k requires 0 <= k < |ps| =>
      PropertyDefault(ChildProperty(headingType, ps[k]), pascal))))
  }

  /** The field, the declared struct and the default literal of a table all use one type name. */
  lemma TableNamesAgree(ct: ChildTable, pascal: Casing)
    ensures var ds := TablePrelude(ct, pascal);
      && TableField(ct, pascal).ty == Named(ds[|ds| - 1].name)
      && TableDefault(ct, pascal).value.name == ds[|ds| - 1].name
  {
  }

  /**
   * The table's default literal matches its struct entry by entry (names,
   * order and types) exactly when the table has no inline-table member or
   * the casing leaves the table's type name unchanged.
   */
  lemma TableDefaultConforms(ct: ChildTable, pascal: Casing)
    ensures var ds := TablePrelude(ct, pascal);
            var s := ds[|ds| - 1];
            var e := TableDefault(ct, pascal).value;
      (forall k :: 0 <= k < |s.fields| ==>
         e.entries[k].name == s.fields[k].name && Conforms(e.entries[k].value, s.fields[k].ty))
      <==> (!HasInlineMember(ct.table.contents) || FixedBy(pascal, s.name))
  {
    var ds := TablePrelude(ct, pascal);
    var s := ds[|ds| - 1];
    var e := TableDefault(ct, pascal).value;
    var ps := ct.table.contents;
    forall k | 0 <= k < |ps|
      ensures Conforms(e.entries[k].value, s.fields[k].ty) <==> (!ps[k].value.InlineTable? || FixedBy(pascal, s.name))
    {
      MemberConforms(pascal, ps[k], s.name);
      assert s.fields[k] == MemberField(pascal, ps[k], s.name);
    }
  }
}
