/**
 What becomes of values that are accepted but not in the form decoding gives: an object may list its
 fields in any order, have entries that are no fields, and lack optional fields. It is encoded exactly
 like its normal form, and decoding gives the normal form back.
 */
module AbiNormal {
  import opened Wrappers
  import opened Basics
  import opened AbiTypes
  import opened AbiCodec
  import opened AbiRoundTrip

  // ---------------------------------------------------------------- the normal form

  /** Every object has its struct's fields, in order, those of the base first, and Null for optional ones it lacked. */
  ghost function Normal(abi: Abi, t: TypeName, v: Value, scopes: nat): Value
    decreases scopes, 2, 0
  {
    if scopes == 0 then v
    else
      var rt := Resolve(abi.typedefs, t);
      match ShapeOf(abi, rt)
      case OfBuiltin => v
      case OfArray => if v.Arr? then Arr(NormalItems(abi, Fundamental(rt), v.items, scopes)) else v
      case OfOptional => if v == Null then Null else Normal(abi, Fundamental(rt), v, scopes - 1)
      case OfVariant =>
        if v.Arr? && |v.items| == 2 && v.items[0].Str?
        then Arr([v.items[0], Normal(abi, v.items[0].text, v.items[1], scopes - 1)]) else v
      case OfStruct => if v.Obj? then Obj(NormalStruct(abi, rt, v.entries, scopes)) else v
  }

  ghost function NormalItems(abi: Abi, t: TypeName, vs: seq<Value>, scopes: nat): (r: seq<Value>)
    requires scopes > 0
    ensures |r| == |vs|
    decreases scopes, 0, |vs|
  {
    if vs == [] then [] else [Normal(abi, t, vs[0], scopes - 1)] + NormalItems(abi, t, vs[1..], scopes)
  }

  ghost function NormalStruct(abi: Abi, s: TypeName, entries: seq<(string, Value)>, scopes: nat): seq<(string, Value)>
    decreases scopes, 1, 0
  {
    if scopes == 0 || s !in abi.structs then []
    else
      var st := abi.structs[s];
      (if st.base == "" then [] else NormalStruct(abi, Resolve(abi.typedefs, st.base), entries, scopes - 1))
        + NormalFields(abi, st.fields, 0, entries, scopes)
  }

  ghost function NormalFields(abi: Abi, fields: seq<Field>, i: nat, entries: seq<(string, Value)>, scopes: nat)
    : seq<(string, Value)>
    requires scopes > 0 && i <= |fields|
    decreases scopes, 0, |fields| - i
  {
    if i == |fields| then []
    else FieldEntry(abi, fields[i], entries, scopes) + NormalFields(abi, fields, i + 1, entries, scopes)
  }

  ghost function FieldEntry(abi: Abi, f: Field, entries: seq<(string, Value)>, scopes: nat): seq<(string, Value)>
    requires scopes > 0
    decreases scopes, 0, 0
  {
    if Has(entries, f.name)
    then [(f.name, Normal(abi, WithoutExtension(f.kind), Get(entries, f.name), scopes - 1))]
    else if IsOptional(f.kind) then [(f.name, Null)]
    else []
  }

  /** The names of a struct's fields, those of its bases first. */
  ghost function AllNames(abi: Abi, s: TypeName, scopes: nat): seq<string>
    decreases scopes
  {
    if scopes == 0 || s !in abi.structs then []
    else
      var st := abi.structs[s];
      (if st.base == "" then [] else AllNames(abi, Resolve(abi.typedefs, st.base), scopes - 1))
        + FieldNames(st.fields, 0)
  }

  /** No struct has two fields of one name, its bases included, and what is named like an optional is one. */
  ghost predicate Unambiguous(abi: Abi)
  {
    && (forall s, scopes: nat :: Distinct(AllNames(abi, s, scopes)))
    && forall t :: t in abi.typedefs && IsOptional(t) ==> IsOptional(Resolve(abi.typedefs, t))
  }

  // ---------------------------------------------------------------- the entries of the normal form

  /** Normal says of the field what the object says of it. */
  ghost predicate Matches(abi: Abi, f: Field, entries: seq<(string, Value)>, normal: seq<(string, Value)>, scopes: nat)
    requires scopes > 0
  {
    if Has(entries, f.name) then
      && Has(normal, f.name)
      && Get(normal, f.name) == Normal(abi, WithoutExtension(f.kind), Get(entries, f.name), scopes - 1)
    else if IsOptional(f.kind) then Has(normal, f.name) && Get(normal, f.name) == Null
    else !Has(normal, f.name)
  }

  /** The same for all fields of a struct and of its bases. */
  ghost predicate MatchesAll(abi: Abi, s: TypeName, entries: seq<(string, Value)>, normal: seq<(string, Value)>,
                             scopes: nat)
    decreases scopes
  {
    scopes > 0 && s in abi.structs ==>
      var st := abi.structs[s];
      && (st.base != "" ==> MatchesAll(abi, Resolve(abi.typedefs, st.base), entries, normal, scopes - 1))
      && forall i :: 0 <= i < |st.fields| ==> Matches(abi, st.fields[i], entries, normal, scopes)
  }

  lemma {:induction false} GetAppend(a: seq<(string, Value)>, b: seq<(string, Value)>, name: string)
    ensures Has(a + b, name) <==> Has(a, name) || Has(b, name)
    ensures Has(a, name) ==> Get(a + b, name) == Get(a, name)
    ensures !Has(a, name) && Has(b, name) ==> Get(a + b, name) == Get(b, name)
  {
    HasAppend(a, b, name);
    if a == [] {
      assert a + b == b;
    } else if a[0].0 != name {
      assert (a + b)[1..] == a[1..] + b;
      HasTail(a, name);
      GetAppend(a[1..], b, name);
    }
  }

  lemma HasAppend(a: seq<(string, Value)>, b: seq<(string, Value)>, name: string)
    ensures Has(a + b, name) <==> Has(a, name) || Has(b, name)
  {
    if i :| 0 <= i < |a| && a[i].0 == name { assert (a + b)[i].0 == name; }
    if i :| 0 <= i < |b| && b[i].0 == name { assert (a + b)[|a| + i].0 == name; }
  }

  lemma HasTail(a: seq<(string, Value)>, name: string)
    requires a != [] && a[0].0 != name
    ensures Has(a, name) <==> Has(a[1..], name)
  {
    if i :| 0 <= i < |a| && a[i].0 == name { assert a[1..][i - 1].0 == name; }
    if i :| 0 <= i < |a[1..]| && a[1..][i].0 == name { assert a[i + 1].0 == name; }
  }

  lemma {:induction false} NormalFieldsNames(abi: Abi, fields: seq<Field>, i: nat, entries: seq<(string, Value)>,
                                             scopes: nat, name: string)
    requires scopes > 0 && i <= |fields| && name !in FieldNames(fields, i)
    ensures !Has(NormalFields(abi, fields, i, entries, scopes), name)
    decreases |fields| - i
  {
    if i < |fields| {
      hide Normal;
      var head, tail := FieldEntry(abi, fields[i], entries, scopes), NormalFields(abi, fields, i + 1, entries, scopes);
      assert FieldNames(fields, i) == [fields[i].name] + FieldNames(fields, i + 1);
      assert FieldNames(fields, i)[0] == fields[i].name;
      NormalFieldsNames(abi, fields, i + 1, entries, scopes, name);
      HasAppend(head, tail, name);
    }
  }

  lemma {:induction false} NormalStructNames(abi: Abi, s: TypeName, entries: seq<(string, Value)>, scopes: nat,
                                             name: string)
    requires name !in AllNames(abi, s, scopes)
    ensures !Has(NormalStruct(abi, s, entries, scopes), name)
    decreases scopes
  {
    hide NormalFields, FieldNames, Has, Resolve;
    if scopes > 0 && s in abi.structs {
      var st := abi.structs[s];
      var b, own := Resolve(abi.typedefs, st.base), NormalFields(abi, st.fields, 0, entries, scopes);
      var based := if st.base == "" then [] else NormalStruct(abi, b, entries, scopes - 1);
      var before := if st.base == "" then [] else AllNames(abi, b, scopes - 1);
      assert AllNames(abi, s, scopes) == before + FieldNames(st.fields, 0);
      assert NormalStruct(abi, s, entries, scopes) == based + own;
      NormalFieldsNames(abi, st.fields, 0, entries, scopes, name);
      if st.base == "" { NothingHas(name); } else { NormalStructNames(abi, b, entries, scopes - 1, name); }
      HasAppend(based, own, name);
    } else {
      NothingHas(name);
    }
  }

  lemma NothingHas(name: string)
    ensures !Has([], name)
  {
  }

  lemma {:induction false} FieldNameAt(fields: seq<Field>, i: nat, j: nat)
    requires i <= j < |fields|
    ensures |FieldNames(fields, i)| == |fields| - i && FieldNames(fields, i)[j - i] == fields[j].name
    decreases |fields| - i
  {
    if i < j { FieldNameAt(fields, i + 1, j); } else { FieldCount(fields, i); }
  }

  lemma {:induction false} FieldCount(fields: seq<Field>, i: nat)
    requires i <= |fields|
    ensures |FieldNames(fields, i)| == |fields| - i
    decreases |fields| - i
  {
    if i < |fields| { FieldCount(fields, i + 1); }
  }

  /** Among the own fields from i on, with other entries in front that have none of their names. */
  lemma {:induction false} FieldMatches(abi: Abi, fields: seq<Field>, i: nat, j: nat,
                                        entries: seq<(string, Value)>, scopes: nat)
    requires scopes > 0 && i <= j < |fields| && Distinct(FieldNames(fields, i))
    ensures Matches(abi, fields[j], entries, NormalFields(abi, fields, i, entries, scopes), scopes)
    decreases |fields| - i
  {
    hide Normal;
    var head, tail := FieldEntry(abi, fields[i], entries, scopes), NormalFields(abi, fields, i + 1, entries, scopes);
    var names, later := FieldNames(fields, i), FieldNames(fields, i + 1);
    assert names == [fields[i].name] + later && names[1..] == later;
    assert fields[i].name !in later by {
      forall k | 0 <= k < |later| ensures later[k] != fields[i].name { assert later[k] == names[k + 1] != names[0]; }
    }
    GetAppend(head, tail, fields[j].name);
    if i == j {
      NormalFieldsNames(abi, fields, i + 1, entries, scopes, fields[i].name);
      if head != [] { OneEntry(fields[i].name, head[0].1); }
    } else {
      FieldNameAt(fields, i + 1, j);
      FieldMatches(abi, fields, i + 1, j, entries, scopes);
      HeadIsOther(abi, fields[i], fields[j].name, entries, scopes);
    }
  }

  lemma HeadIsOther(abi: Abi, f: Field, name: string, entries: seq<(string, Value)>, scopes: nat)
    requires scopes > 0 && f.name != name
    ensures !Has(FieldEntry(abi, f, entries, scopes), name)
  {
  }

  lemma DistinctParts(a: seq<string>, b: seq<string>)
    requires Distinct(a + b)
    ensures Distinct(a) && Distinct(b) && forall x :: x in a ==> x !in b
  {
    forall i, j | 0 <= i < j < |a| ensures a[i] != a[j] { assert (a + b)[i] != (a + b)[j]; }
    forall i, j | 0 <= i < j < |b| ensures b[i] != b[j] { assert (a + b)[|a| + i] != (a + b)[|a| + j]; }
    forall i, j | 0 <= i < |a| && 0 <= j < |b| ensures a[i] != b[j] { assert (a + b)[i] != (a + b)[|a| + j]; }
  }

  /** Entries of other names around them do not matter. */
  lemma MatchesAppend(abi: Abi, f: Field, entries: seq<(string, Value)>, a: seq<(string, Value)>,
                      b: seq<(string, Value)>, scopes: nat)
    requires scopes > 0
    requires || (Matches(abi, f, entries, a, scopes) && !Has(b, f.name))
             || (!Has(a, f.name) && Matches(abi, f, entries, b, scopes))
    ensures Matches(abi, f, entries, a + b, scopes)
  {
    hide Normal, Has, Get;
    GetAppend(a, b, f.name);
  }

  /** The normal form of an object says of every field what the object says. */
  lemma {:induction false} NormalMatches(abi: Abi, s: TypeName, entries: seq<(string, Value)>, scopes: nat)
    requires Unambiguous(abi)
    ensures MatchesAll(abi, s, entries, NormalStruct(abi, s, entries, scopes), scopes)
    decreases scopes
  {
    hide Normal, Matches, NormalFields, FieldNames;
    if scopes > 0 && s in abi.structs {
      var st := abi.structs[s];
      var b := Resolve(abi.typedefs, st.base);
      var based := if st.base == "" then [] else NormalStruct(abi, b, entries, scopes - 1);
      var own := NormalFields(abi, st.fields, 0, entries, scopes);
      var before := if st.base == "" then [] else AllNames(abi, b, scopes - 1);
      assert AllNames(abi, s, scopes) == before + FieldNames(st.fields, 0);
      assert Distinct(AllNames(abi, s, scopes));
      DistinctParts(before, FieldNames(st.fields, 0));
      if st.base != "" {
        NormalMatches(abi, b, entries, scopes - 1);
        forall x | x !in FieldNames(st.fields, 0) ensures !Has(own, x) {
          NormalFieldsNames(abi, st.fields, 0, entries, scopes, x);
        }
        AppendMatches(abi, b, entries, based, own, scopes - 1, before, FieldNames(st.fields, 0));
      }
      forall i | 0 <= i < |st.fields| ensures Matches(abi, st.fields[i], entries, based + own, scopes) {
        FieldMatches(abi, st.fields, 0, i, entries, scopes);
        FieldNameAt(st.fields, 0, i);
        if st.base == "" { assert !Has(based, st.fields[i].name); }
        else { NormalStructNames(abi, b, entries, scopes - 1, st.fields[i].name); }
        MatchesAppend(abi, st.fields[i], entries, based, own, scopes);
      }
    }
  }

  lemma {:induction false} AppendMatches(abi: Abi, s: TypeName, entries: seq<(string, Value)>, a: seq<(string, Value)>,
                                         b: seq<(string, Value)>, scopes: nat, names: seq<string>, others: seq<string>)
    requires MatchesAll(abi, s, entries, a, scopes)
    requires forall x :: x in AllNames(abi, s, scopes) ==> x in names
    requires forall x :: x in names ==> x !in others
    requires forall x :: x !in others ==> !Has(b, x)
    ensures MatchesAll(abi, s, entries, a + b, scopes)
    decreases scopes
  {
    hide Normal, Matches, FieldNames;
    if scopes > 0 && s in abi.structs {
      var st := abi.structs[s];
      if st.base != "" {
        AppendMatches(abi, Resolve(abi.typedefs, st.base), entries, a, b, scopes - 1, names, others);
      }
      forall i | 0 <= i < |st.fields| ensures Matches(abi, st.fields[i], entries, a + b, scopes) {
        FieldNameAt(st.fields, 0, i);
        MatchesAppend(abi, st.fields[i], entries, a, b, scopes);
      }
    }
  }

  // ---------------------------------------------------------------- encoding the normal form

  lemma {:induction false} NormalNotNull(abi: Abi, t: TypeName, v: Value, f: nat)
    requires v != Null
    ensures Normal(abi, t, v, f) != Null
    decreases f
  {
    hide NormalItems, NormalStruct, ShapeOf, Resolve, Fundamental;
    if f > 0 {
      var rt := Resolve(abi.typedefs, t);
      if ShapeOf(abi, rt).OfOptional? { NormalNotNull(abi, Fundamental(rt), v, f - 1); }
    }
  }

  /**
   Whatever is accepted is encoded exactly like its normal form. The normal form may take one scope more,
   because an optional field that is missing is written without entering one.
   */
  lemma {:induction false} EncodesLikeNormal(abi: Abi, t: TypeName, v: Value, ext: bool, f: nat)
    requires ValidAbi(abi) && Unambiguous(abi) && Encode(abi, t, v, ext, f).Ok?
    ensures Encode(abi, t, Normal(abi, t, v, f), ext, f + 1) == Encode(abi, t, v, ext, f)
    decreases f, 3, 0
  {
    hide Encode, Normal, ValidAbi, Unambiguous;
    SomeScopes(abi, t, v, ext, f);
    match ShapeOf(abi, Resolve(abi.typedefs, t))
    case OfBuiltin => NormalBuiltin(abi, t, v, ext, f);
    case OfArray => NormalArray(abi, t, v, ext, f);
    case OfOptional => NormalOptional(abi, t, v, ext, f);
    case OfVariant => NormalVariant(abi, t, v, ext, f);
    case OfStruct => NormalObject(abi, t, v, ext, f);
  }

  lemma SomeScopes(abi: Abi, t: TypeName, v: Value, ext: bool, f: nat)
    requires Encode(abi, t, v, ext, f).Ok?
    ensures f > 0
  {
  }

  lemma {:induction false} NormalBuiltin(abi: Abi, t: TypeName, v: Value, ext: bool, f: nat)
    requires f > 0 && ShapeOf(abi, Resolve(abi.typedefs, t)) == OfBuiltin
    ensures Encode(abi, t, Normal(abi, t, v, f), ext, f + 1) == Encode(abi, t, v, ext, f)
  {
    hide PackBuiltin, Resolve, Fundamental, IsArray, IsOptional;
  }

  lemma {:induction false} NormalArray(abi: Abi, t: TypeName, v: Value, ext: bool, f: nat)
    requires ValidAbi(abi) && Unambiguous(abi) && f > 0 && Encode(abi, t, v, ext, f).Ok?
    requires ShapeOf(abi, Resolve(abi.typedefs, t)) == OfArray
    ensures Encode(abi, t, Normal(abi, t, v, f), ext, f + 1) == Encode(abi, t, v, ext, f)
    decreases f, 2, 0
  {
    hide PackNum, Resolve, Fundamental, IsArray, IsOptional, EncodeItems, NormalItems, ValidAbi, Unambiguous;
    NormalEachItem(abi, Fundamental(Resolve(abi.typedefs, t)), v.items, f);
  }

  lemma {:induction false} NormalEachItem(abi: Abi, t: TypeName, vs: seq<Value>, f: nat)
    requires ValidAbi(abi) && Unambiguous(abi) && f > 0 && EncodeItems(abi, t, vs, f).Ok?
    ensures EncodeItems(abi, t, NormalItems(abi, t, vs, f), f + 1) == EncodeItems(abi, t, vs, f)
    decreases f, 0, |vs|
  {
    hide Encode, Normal, ValidAbi, Unambiguous;
    if vs != [] {
      EncodesLikeNormal(abi, t, vs[0], false, f - 1);
      NormalEachItem(abi, t, vs[1..], f);
      assert NormalItems(abi, t, vs, f)[1..] == NormalItems(abi, t, vs[1..], f);
    }
  }

  lemma {:induction false} NormalOptional(abi: Abi, t: TypeName, v: Value, ext: bool, f: nat)
    requires ValidAbi(abi) && Unambiguous(abi) && f > 0 && Encode(abi, t, v, ext, f).Ok?
    requires ShapeOf(abi, Resolve(abi.typedefs, t)) == OfOptional
    ensures Encode(abi, t, Normal(abi, t, v, f), ext, f + 1) == Encode(abi, t, v, ext, f)
    decreases f, 2, 0
  {
    hide Resolve, Fundamental, IsArray, IsOptional, ValidAbi, Unambiguous;
    if v != Null {
      var ft := Fundamental(Resolve(abi.typedefs, t));
      NormalNotNull(abi, ft, v, f - 1);
      EncodesLikeNormal(abi, ft, v, ext, f - 1);
    }
  }

  lemma {:induction false} NormalVariant(abi: Abi, t: TypeName, v: Value, ext: bool, f: nat)
    requires ValidAbi(abi) && Unambiguous(abi) && f > 0 && Encode(abi, t, v, ext, f).Ok?
    requires ShapeOf(abi, Resolve(abi.typedefs, t)) == OfVariant
    ensures Encode(abi, t, Normal(abi, t, v, f), ext, f + 1) == Encode(abi, t, v, ext, f)
    decreases f, 2, 0
  {
    hide PackNum, Resolve, Fundamental, IsArray, IsOptional, IndexOf, ValidAbi, Unambiguous;
    EncodesLikeNormal(abi, v.items[0].text, v.items[1], ext, f - 1);
  }

  lemma {:induction false} NormalObject(abi: Abi, t: TypeName, v: Value, ext: bool, f: nat)
    requires ValidAbi(abi) && Unambiguous(abi) && f > 0 && Encode(abi, t, v, ext, f).Ok?
    requires ShapeOf(abi, Resolve(abi.typedefs, t)) == OfStruct
    ensures Encode(abi, t, Normal(abi, t, v, f), ext, f + 1) == Encode(abi, t, v, ext, f)
    decreases f, 2, 0
  {
    hide Resolve, Fundamental, IsArray, IsOptional, ValidAbi, Unambiguous, EncodeFields, NormalStruct, MatchesAll;
    var rt := Resolve(abi.typedefs, t);
    var normal := NormalStruct(abi, rt, v.entries, f);
    assert Encode(abi, t, v, ext, f) == StructBytes(abi, rt, v.entries, ext, f);
    assert Encode(abi, t, Obj(normal), ext, f + 1) == StructBytes(abi, rt, normal, ext, f + 1);
    NormalMatches(abi, rt, v.entries, f);
    StructLikeNormal(abi, rt, v.entries, normal, ext, f);
  }

  lemma {:induction false} StructLikeNormal(abi: Abi, s: TypeName, entries: seq<(string, Value)>,
                                            normal: seq<(string, Value)>, ext: bool, f: nat)
    requires ValidAbi(abi) && Unambiguous(abi) && f > 0 && s in abi.structs
    requires StructBytes(abi, s, entries, ext, f).Ok? && MatchesAll(abi, s, entries, normal, f)
    ensures StructBytes(abi, s, normal, ext, f + 1) == StructBytes(abi, s, entries, ext, f)
    decreases f, 1, 0
  {
    hide Encode, Resolve, EncodeFields, Matches, Faithful, Acyclic, Unambiguous, IsOptional;
    var st := abi.structs[s];
    FieldsLikeNormal(abi, st.fields, 0, entries, normal, ext, false, f);
    if st.base != "" {
      var b := Resolve(abi.typedefs, st.base);
      SomeScopes(abi, b, Obj(entries), false, f - 1);
      EncodeBase(abi, st.base, entries, false, f - 1);
      StructLikeNormal(abi, b, entries, normal, false, f - 1);
      BaseShape(abi, st.base, entries, normal, f - 1);
    }
  }

  /** A name under which an object was written as a struct writes every object as that struct. */
  lemma {:induction false} BaseShape(abi: Abi, base: TypeName, entries: seq<(string, Value)>,
                                     others: seq<(string, Value)>, f: nat)
    requires Acyclic(abi.typedefs) && f > 0
    requires var b := Resolve(abi.typedefs, base);
      b in abi.structs && PlainBase(abi, b) && Encode(abi, b, Obj(entries), false, f).Ok?
    ensures var b := Resolve(abi.typedefs, base);
      Encode(abi, b, Obj(others), false, f + 1) == StructBytes(abi, b, others, false, f + 1)
  {
    hide Encode, Resolve;
    var b := Resolve(abi.typedefs, base);
    ResolveIdempotent(abi.typedefs, base);
    ObjectShape(abi, b, entries, f);
    EncodesStruct(abi, b, others, f + 1);
  }

  /** Under a plain name only a struct takes an object. */
  lemma {:induction false} ObjectShape(abi: Abi, b: TypeName, entries: seq<(string, Value)>, f: nat)
    requires f > 0 && b in abi.structs && PlainBase(abi, b) && Resolve(abi.typedefs, b) == b
    requires Encode(abi, b, Obj(entries), false, f).Ok?
    ensures ShapeOf(abi, b) == OfStruct
  {
    hide Resolve, EncodeFields, IsArray, IsOptional;
  }

  lemma {:induction false} EncodesStruct(abi: Abi, b: TypeName, entries: seq<(string, Value)>, f: nat)
    requires f > 0 && b in abi.structs && Resolve(abi.typedefs, b) == b && ShapeOf(abi, b) == OfStruct
    ensures Encode(abi, b, Obj(entries), false, f) == StructBytes(abi, b, entries, false, f)
  {
    hide Resolve, EncodeFields, IsArray, IsOptional, PackBuiltin;
  }

  lemma {:induction false} FieldsLikeNormal(abi: Abi, fields: seq<Field>, i: nat, entries: seq<(string, Value)>,
                                            normal: seq<(string, Value)>, ext: bool, closed: bool, f: nat)
    requires ValidAbi(abi) && Unambiguous(abi) && f > 0 && i <= |fields|
    requires forall j :: 0 <= j < |fields| ==> Matches(abi, fields[j], entries, normal, f)
    requires EncodeFields(abi, fields, i, entries, ext, closed, f).Ok?
    ensures EncodeFields(abi, fields, i, normal, ext, closed, f + 1)
         == EncodeFields(abi, fields, i, entries, ext, closed, f)
    decreases f, 0, |fields| - i
  {
    hide Encode, Normal, ValidAbi, Unambiguous, WithoutExtension, Has, Get;
    if i < |fields| {
      var k := fields[i].kind;
      assert Matches(abi, fields[i], entries, normal, f);
      if Has(entries, fields[i].name) {
        var v := Get(entries, fields[i].name);
        EncodesLikeNormal(abi, WithoutExtension(k), v, ext && i == |fields| - 1, f - 1);
        FieldsLikeNormal(abi, fields, i + 1, entries, normal, ext, closed, f);
      } else if IsOptional(k) {
        NullOptional(abi, k, ext && i == |fields| - 1, f);
        FieldsLikeNormal(abi, fields, i + 1, entries, normal, ext, closed, f);
      } else if IsExtension(k) && ext {
        FieldsLikeNormal(abi, fields, i + 1, entries, normal, ext, true, f);
      }
    }
  }

  /** A field of an optional type that holds nothing is a zero byte. */
  lemma {:induction false} NullOptional(abi: Abi, k: TypeName, ext: bool, f: nat)
    requires Unambiguous(abi) && IsOptional(k) && f > 0
    ensures Encode(abi, WithoutExtension(k), Null, ext, f) == Ok([0])
  {
    OptionalName(k);
    StaysOptional(abi, k);
    OptionalName(Resolve(abi.typedefs, k));
    hide Unambiguous, IsOptional, IsArray, IsExtension, Resolve;
  }

  lemma OptionalName(k: TypeName)
    requires IsOptional(k)
    ensures !IsArray(k) && !IsExtension(k)
  {
    LastOf(k, "?");
    LastOf(k, "$");
    LastOf(k, "[]");
    hide EndsWith;
  }

  lemma LastOf(k: TypeName, suffix: string)
    requires suffix != ""
    ensures EndsWith(k, suffix) ==> k != "" && k[|k| - 1] == suffix[|suffix| - 1]
  {
    if EndsWith(k, suffix) { assert k[|k| - |suffix|..][|suffix| - 1] == k[|k| - 1]; }
  }

  lemma StaysOptional(abi: Abi, k: TypeName)
    requires Unambiguous(abi) && IsOptional(k)
    ensures IsOptional(Resolve(abi.typedefs, k))
  {
    hide IsOptional, Distinct;
  }

  /** No value of a built-in type is null. */
  ghost predicate NeverNull(abi: Abi)
  {
    forall t, bs: Bytes :: t in abi.builtins && abi.builtins[t].unpack(bs).Some? ==>
      abi.builtins[t].unpack(bs).value.0 != Null
  }

  /**
   The zero byte that stands for a missing optional field is read as Null if and only if the name of its type
   leads to an optional.
   */
  lemma {:induction false} MissingIsNullIff(abi: Abi, k: TypeName, suffix: Bytes, g: nat)
    requires NeverNull(abi) && g > 0
    ensures IsOptional(Resolve(abi.typedefs, k)) <==> Decode(abi, k, [0] + suffix, g) == Ok(Decoded(Null, suffix))
  {
    var bs := [0] + suffix;
    assert bs[1..] == suffix;
    var rt := Resolve(abi.typedefs, k);
    if IsOptional(rt) { OptionalName(rt); }
    hide Resolve, Fundamental, IsOptional, IsArray, UnpackNum, UnpackPlains, DecodeItems, DecodeStruct;
  }

  /**
   Decoding the encoding of any accepted value gives its normal form back, with exactly the scopes that
   the normal form needs; an optional field that was missing comes back as Null.
   */
  lemma NormalComesBack(abi: Abi, t: TypeName, v: Value, ext: bool, more: bool, f: nat, suffix: Bytes, g: nat)
    requires ValidAbi(abi) && Unambiguous(abi) && Encode(abi, t, v, ext, f).Ok?
    requires Canonical(abi, t, Normal(abi, t, v, f), ext, more, f + 1)
    requires (ext ==> suffix == []) && (more ==> suffix != [])
    ensures var normal := Normal(abi, t, v, f);
      Decode(abi, t, Encode(abi, t, v, ext, f).value + suffix, g)
      == Outcome(g >= Needs(abi, t, normal, f + 1), Decoded(normal, suffix))
  {
    hide Encode, Decode, Normal, Needs, Canonical, ValidAbi, Unambiguous;
    EncodesLikeNormal(abi, t, v, ext, f);
    RoundTrip(abi, t, Normal(abi, t, v, f), ext, more, f + 1, suffix, g);
  }
}
