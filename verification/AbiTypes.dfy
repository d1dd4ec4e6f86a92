/**
 Names of types in an ABI: aliases, struct bases, and the checks that no chain of either goes round
 in a circle (libraries/chain/abi_serializer.cpp).
 */
module AbiTypes {
  import opened Basics

  type TypeName = string

  datatype Field = Field(name: string, kind: TypeName)

  /** A struct; an empty base name means it has none. */
  datatype Struct = Struct(base: TypeName, fields: seq<Field>)

  type Links = map<TypeName, TypeName>

  // ---------------------------------------------------------------- following links

  /** The name reached from x by following exactly n links. */
  ghost predicate Leads(m: Links, x: TypeName, y: TypeName, n: nat)
    decreases n
  {
    if n == 0 then x == y else x in m && Leads(m, m[x], y, n - 1)
  }

  /** Following links from x comes to an end. */
  ghost predicate Ends(m: Links, x: TypeName)
  {
    exists y, n: nat :: y !in m && Leads(m, x, y, n)
  }

  lemma {:induction false} LeadsUnique(m: Links, x: TypeName, y: TypeName, z: TypeName, n: nat)
    requires Leads(m, x, y, n) && Leads(m, x, z, n)
    ensures y == z
    decreases n
  {
    if n > 0 { LeadsUnique(m, m[x], y, z, n - 1); }
  }

  lemma {:induction false} LeadsTrans(m: Links, x: TypeName, y: TypeName, z: TypeName, i: nat, j: nat)
    requires Leads(m, x, y, i) && Leads(m, y, z, j)
    ensures Leads(m, x, z, i + j)
    decreases i
  {
    if i > 0 { LeadsTrans(m, m[x], y, z, i - 1, j); }
  }

  /** A chain that comes back to where it started never ends. */
  lemma {:induction false} CircleNeverEnds(m: Links, x: TypeName, c: nat, y: TypeName, n: nat)
    requires c > 0 && Leads(m, x, x, c)
    requires Leads(m, x, y, n)
    ensures y in m
    decreases n
  {
    if n >= c {
      Shift(m, x, x, c, y, n);
      CircleNeverEnds(m, x, c, y, n - c);
    } else {
      Shift(m, x, y, n, x, c);
      assert Leads(m, y, x, c - n);
    }
  }

  /** What is reached in n steps is reached from any earlier stop in the steps that are left. */
  lemma {:induction false} Shift(m: Links, x: TypeName, stop: TypeName, i: nat, y: TypeName, n: nat)
    requires i <= n && Leads(m, x, stop, i) && Leads(m, x, y, n)
    ensures Leads(m, stop, y, n - i)
    decreases i
  {
    if i > 0 { Shift(m, m[x], stop, i - 1, y, n - 1); }
  }

  // ---------------------------------------------------------------- the circularity check

  /** seen holds a chain: each name links to the next, and all are different. */
  ghost predicate IsChain(m: Links, seen: seq<TypeName>)
  {
    && seen != []
    && (forall i :: 0 <= i < |seen| - 1 ==> seen[i] in m && m[seen[i]] == seen[i + 1])
    && forall i, j :: 0 <= i < j < |seen| ==> seen[i] != seen[j]
  }

  lemma {:induction false} ChainLeads(m: Links, seen: seq<TypeName>, i: nat, j: nat)
    requires IsChain(m, seen) && i <= j < |seen|
    ensures Leads(m, seen[i], seen[j], j - i)
    decreases j - i
  {
    if i < j { ChainLeads(m, seen, i + 1, j); }
  }

  lemma {:induction false} ChainFits(m: Links, seen: seq<TypeName>)
    requires IsChain(m, seen)
    ensures |seen| <= |m| + 1
  {
    var keys := set i | 0 <= i < |seen| - 1 :: seen[i];
    DistinctCount(seen, |seen| - 1);
    assert keys <= m.Keys;
    SubsetSize(keys, m.Keys);
  }

  lemma {:induction false} DistinctCount(seen: seq<TypeName>, n: nat)
    requires n <= |seen| && forall i, j :: 0 <= i < j < |seen| ==> seen[i] != seen[j]
    ensures |set i | 0 <= i < n :: seen[i]| == n
  {
    if n > 0 {
      DistinctCount(seen, n - 1);
      assert (set i | 0 <= i < n :: seen[i]) == (set i | 0 <= i < n - 1 :: seen[i]) + {seen[n - 1]};
    }
  }

  /** Walks the links from x, remembering the names seen; a name seen twice means a circle. */
  method CheckChain(m: Links, x: TypeName) returns (ok: bool)
    ensures ok <==> Ends(m, x)
  {
    var seen := [x];
    while seen[|seen| - 1] in m
      invariant IsChain(m, seen) && seen[0] == x
      decreases |m| + 1 - |seen|
    {
      var next := m[seen[|seen| - 1]];
      if next in seen {
        ghost var i :| 0 <= i < |seen| && seen[i] == next;
        CircleFound(m, seen, i);
        return false;
      }
      seen := seen + [next];
      ChainFits(m, seen);
    }
    ChainLeads(m, seen, 0, |seen| - 1);
    return true;
  }

  lemma CircleFound(m: Links, seen: seq<TypeName>, i: nat)
    requires IsChain(m, seen) && i < |seen| && seen[|seen| - 1] in m && m[seen[|seen| - 1]] == seen[i]
    ensures !Ends(m, seen[0])
  {
    var last := |seen| - 1;
    ChainLeads(m, seen, 0, i);
    ChainLeads(m, seen, i, last);
    assert Leads(m, seen[last], seen[i], 1);
    LeadsTrans(m, seen[i], seen[last], seen[i], last - i, 1);
    forall y, n: nat | Leads(m, seen[0], y, n) ensures y in m {
      if n >= i {
        Shift(m, seen[0], seen[i], i, y, n);
        CircleNeverEnds(m, seen[i], last - i + 1, y, n - i);
      } else {
        ChainLeads(m, seen, 0, n);
        LeadsUnique(m, seen[0], seen[n], y, n);
      }
    }
  }

  // ---------------------------------------------------------------- resolving aliases

  /** No alias goes round in a circle. */
  ghost predicate Acyclic(typedefs: Links)
  {
    forall x :: x in typedefs ==> Ends(typedefs, x)
  }

  /** Follows aliases, at most `left` more, and gives up by returning `original`. */
  function ResolveFrom(typedefs: Links, x: TypeName, left: nat, original: TypeName): TypeName
    requires x in typedefs
    decreases left
  {
    if left == 0 then original
    else if typedefs[x] !in typedefs then typedefs[x]
    else ResolveFrom(typedefs, typedefs[x], left - 1, original)
  }

  function Resolve(typedefs: Links, x: TypeName): TypeName
  {
    if x in typedefs then ResolveFrom(typedefs, x, |typedefs|, x) else x
  }

  /** The loop: it stops after as many steps as there are aliases. */
  method ResolveType(typedefs: Links, name: TypeName) returns (r: TypeName)
    ensures r == Resolve(typedefs, name)
  {
    if name in typedefs {
      var at := name;
      for i := |typedefs| downto 0
        invariant at in typedefs
        invariant Resolve(typedefs, name) == ResolveFrom(typedefs, at, i, name)
      {
        var t := typedefs[at];
        if t !in typedefs { return t; }
        at := t;
      }
    }
    return name;
  }

  /** With enough steps left the end of the chain is found. */
  lemma {:induction false} ResolveFromReaches(typedefs: Links, x: TypeName, left: nat, original: TypeName,
                                              y: TypeName, n: nat)
    requires x in typedefs && y !in typedefs && Leads(typedefs, x, y, n) && n <= left
    ensures ResolveFrom(typedefs, x, left, original) == y
    decreases left
  {
    if typedefs[x] in typedefs {
      ResolveFromReaches(typedefs, typedefs[x], left - 1, original, y, n - 1);
    } else if n > 1 {
      assert false;
    }
  }

  /** A chain that ends does so within as many links as there are. */
  lemma ShortEnough(m: Links, x: TypeName, y: TypeName, n: nat)
    requires y !in m && Leads(m, x, y, n)
    ensures n <= |m|
  {
    var seen := ChainOf(m, x, y, n);
    ChainFits(m, seen);
  }

  lemma {:induction false} ChainOf(m: Links, x: TypeName, y: TypeName, n: nat) returns (seen: seq<TypeName>)
    requires y !in m && Leads(m, x, y, n)
    ensures IsChain(m, seen) && |seen| == n + 1 && seen[0] == x
    decreases n
  {
    if n == 0 {
      seen := [x];
    } else {
      var rest := ChainOf(m, m[x], y, n - 1);
      seen := [x] + rest;
      forall i | 0 <= i < |rest| ensures rest[i] != x {
        if rest[i] == x {
          ChainLeads(m, rest, 0, i);
          assert Leads(m, x, x, i + 1);
          CircleNeverEnds(m, x, i + 1, y, n);
        }
      }
    }
  }

  /** Without circles an alias resolves to a name that is not one, the end of its chain. */
  lemma ResolveEnds(typedefs: Links, x: TypeName)
    requires Acyclic(typedefs)
    ensures Resolve(typedefs, x) !in typedefs
    ensures exists n: nat :: Leads(typedefs, x, Resolve(typedefs, x), n)
  {
    if x in typedefs {
      var y, n: nat :| y !in typedefs && Leads(typedefs, x, y, n);
      ShortEnough(typedefs, x, y, n);
      ResolveFromReaches(typedefs, x, |typedefs|, x, y, n);
    } else {
      assert Leads(typedefs, x, x, 0);
    }
  }

  lemma ResolveIdempotent(typedefs: Links, x: TypeName)
    requires Acyclic(typedefs)
    ensures Resolve(typedefs, Resolve(typedefs, x)) == Resolve(typedefs, x)
  {
    ResolveEnds(typedefs, x);
  }

  /** The first loop of validate: it accepts exactly the aliases without circles. */
  method ValidateTypedefs(typedefs: Links) returns (ok: bool)
    ensures ok <==> Acyclic(typedefs)
  {
    var rest := typedefs.Keys;
    while rest != {}
      invariant rest <= typedefs.Keys
      invariant forall x :: x in typedefs && x !in rest ==> Ends(typedefs, x)
    {
      var x :| x in rest;
      var fine := CheckChain(typedefs, x);
      if !fine { return false; }
      rest := rest - {x};
    }
    return true;
  }

  // ---------------------------------------------------------------- struct bases

  /** Each struct with a base, linked to the struct its base resolves to. */
  function Bases(typedefs: Links, structs: map<TypeName, Struct>): Links
  {
    map s | s in structs && structs[s].base != "" :: Resolve(typedefs, structs[s].base)
  }

  /** Every base is a struct, and no struct is its own ancestor. */
  ghost predicate BasesOk(typedefs: Links, structs: map<TypeName, Struct>)
  {
    && (forall s :: s in structs && structs[s].base != "" ==> Resolve(typedefs, structs[s].base) in structs)
    && (forall s :: s in structs ==> Ends(Bases(typedefs, structs), s))
  }

  /** The base check of validate for one struct: fails on a missing base or a circle. */
  method CheckBases(typedefs: Links, structs: map<TypeName, Struct>, s: TypeName) returns (ok: bool)
    requires s in structs
    ensures ok ==>
      Ends(Bases(typedefs, structs), s) && (structs[s].base != "" ==> Resolve(typedefs, structs[s].base) in structs)
    ensures BasesOk(typedefs, structs) ==> ok
  {
    ghost var m := Bases(typedefs, structs);
    var current, seen := s, [s];
    while structs[current].base != ""
      invariant current in structs && IsChain(m, seen) && seen[0] == s && current == seen[|seen| - 1]
      invariant current != s ==> structs[s].base != "" ==> Resolve(typedefs, structs[s].base) in structs
      decreases |m| + 1 - |seen|
    {
      var base := ResolveType(typedefs, structs[current].base);
      if base !in structs { return false; }
      if base in seen {
        ghost var i :| 0 <= i < |seen| && seen[i] == base;
        CircleFound(m, seen, i);
        return false;
      }
      seen := seen + [base];
      current := base;
      ChainFits(m, seen);
    }
    ChainLeads(m, seen, 0, |seen| - 1);
    return true;
  }

  /** The struct loop of validate: it accepts exactly the structs whose bases exist and have no circles. */
  method ValidateBases(typedefs: Links, structs: map<TypeName, Struct>) returns (ok: bool)
    ensures ok <==> BasesOk(typedefs, structs)
  {
    var rest := structs.Keys;
    while rest != {}
      invariant rest <= structs.Keys
      invariant forall s :: s in structs && s !in rest ==>
        Ends(Bases(typedefs, structs), s) && (structs[s].base != "" ==> Resolve(typedefs, structs[s].base) in structs)
    {
      var s :| s in rest;
      var fine := CheckBases(typedefs, structs, s);
      if !fine { return false; }
      rest := rest - {s};
    }
    return true;
  }
}
