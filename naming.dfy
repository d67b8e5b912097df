/**
 * Names of generated types.  The PascalCase conversion is a foreign library
 * and stays a parameter of the whole emitter, about which nothing is assumed
 * except where a lemma says so.
 */
module Naming {
  import opened Ast

  type Casing = Ident -> Ident

  /** The type name for `local` nested in `parent`: both converted, then joined. */
  function TypeName(pascal: Casing, parent: Ident, local: Ident): Ident
  {
    pascal(parent) + pascal(local)
  }

  /**
   * The type name a struct gives to an inline-table member: the struct's own
   * (already converted) name joined with the converted member name.
   */
  function MemberTypeName(pascal: Casing, headingType: Ident, local: Ident): Ident
  {
    headingType + pascal(local)
  }

  predicate FixedBy(pascal: Casing, s: Ident)
  {
    pascal(s) == s
  }

  /** The two ways of naming a nested type agree exactly when the casing leaves the outer name unchanged. */
  lemma MemberTypeNameAgrees(pascal: Casing, headingType: Ident, local: Ident)
    ensures MemberTypeName(pascal, headingType, local) == TypeName(pascal, headingType, local)
      <==> FixedBy(pascal, headingType)
  {
    var a, b, c := headingType, pascal(headingType), pascal(local);
    if a + c == b + c {
      assert |a| == |b|;
      assert a == (a + c)[..|a|] && b == (b + c)[..|b|];
    }
  }
}
