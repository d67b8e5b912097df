/** Declaration before use over a sequence of struct declarations. */
module Scope {
  import opened Ast
  import opened Output

  /** Names of the types the fields refer to. */
  function Refs(fields: seq<Field>): set<Ident>
  {
    set k | 0 <= k < |fields| && fields[k].ty.Named? :: fields[k].ty.name
  }

  function Names(ds: seq<StructDecl>): set<Ident>
  {
    set j | 0 <= j < |ds| :: ds[j].name
  }

  /** Each declaration refers only to names in `env` or declared earlier in `ds`. */
  predicate ScopedIn(env: set<Ident>, ds: seq<StructDecl>)
    decreases |ds|
  {
    ds == [] || (Refs(ds[0].fields) <= env && ScopedIn(env + {ds[0].name}, ds[1..]))
  }

  lemma NamesAppend(a: seq<StructDecl>, b: seq<StructDecl>)
    ensures Names(a + b) == Names(a) + Names(b)
  {
    var ab := a + b;
    forall n | n in Names(a + b) ensures n in Names(a) + Names(b) {
      var j :| 0 <= j < |ab| && ab[j].name == n;
      if j < |a| { assert a[j] == ab[j]; } else { assert b[j - |a|] == ab[j]; }
    }
    forall n | n in Names(a) + Names(b) ensures n in Names(a + b) {
      if n in Names(a) {
        var j :| 0 <= j < |a| && a[j].name == n;
        assert ab[j] == a[j];
      } else {
        var j :| 0 <= j < |b| && b[j].name == n;
        assert ab[|a| + j] == b[j];
      }
    }
  }

  lemma {:induction false} ScopedAppend(env: set<Ident>, a: seq<StructDecl>, b: seq<StructDecl>)
    requires ScopedIn(env, a) && ScopedIn(env + Names(a), b)
    ensures ScopedIn(env, a + b)
    decreases |a|
  {
    if a == [] {
      assert a + b == b;
      assert env + Names(a) == env;
    } else {
      assert (a + b)[0] == a[0] && (a + b)[1..] == a[1..] + b;
      NamesAppend([a[0]], a[1..]);
      assert [a[0]] + a[1..] == a;
      assert Names([a[0]]) == {a[0].name};
      assert env + {a[0].name} + Names(a[1..]) == env + Names(a);
      ScopedAppend(env + {a[0].name}, a[1..], b);
    }
  }

  /** Declarations that refer to nothing are scoped anywhere. */
  lemma {:induction false} ScopedNoRefs(env: set<Ident>, ds: seq<StructDecl>)
    requires forall j :: 0 <= j < |ds| ==> Refs(ds[j].fields) == {}
    ensures ScopedIn(env, ds)
    decreases |ds|
  {
    if ds != [] {
      ScopedNoRefs(env + {ds[0].name}, ds[1..]);
    }
  }

  /** The recursive definition says: every reference is to `env` or to a strictly earlier declaration. */
  lemma {:induction false} ScopedIndexed(env: set<Ident>, ds: seq<StructDecl>, i: nat, k: nat)
    requires ScopedIn(env, ds)
    requires i < |ds| && k < |ds[i].fields| && ds[i].fields[k].ty.Named?
    ensures ds[i].fields[k].ty.name in env || exists j :: 0 <= j < i && ds[j].name == ds[i].fields[k].ty.name
    decreases i
  {
    var n := ds[i].fields[k].ty.name;
    if i == 0 {
      assert n in Refs(ds[0].fields);
    } else {
      ScopedIndexed(env + {ds[0].name}, ds[1..], i - 1, k);
      if n !in env && n != ds[0].name {
        var j :| 0 <= j < i - 1 && ds[1..][j].name == n;
        assert ds[j + 1].name == n;
      }
    }
  }
}
