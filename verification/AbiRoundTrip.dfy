/** Decoding what was encoded gives the value back. */
module AbiRoundTrip {
  import opened Wrappers
  import opened Basics
  import opened AbiTypes
  import opened AbiCodec

  // ---------------------------------------------------------------- numbers and built-in types

  lemma {:induction false} GroupsRoundTrip(n: nat, suffix: Bytes)
    ensures UnpackGroups(PackNum(n) + suffix) == Some((n, suffix))
  {
    if n < 128 {
      assert (PackNum(n) + suffix)[1..] == suffix;
    } else {
      var rest := PackNum(n / 128);
      assert PackNum(n) == [128 + n % 128] + rest;
      GroupsRoundTrip(n / 128, suffix);
      hide PackNum;
      MoreGroups(n % 128, rest + suffix, n / 128, suffix);
      assert [128 + n % 128] + rest + suffix == [128 + n % 128] + (rest + suffix);
    }
  }

  lemma {:induction false} MoreGroups(low: nat, bs: Bytes, high: nat, suffix: Bytes)
    requires low < 128 && UnpackGroups(bs) == Some((high, suffix))
    ensures UnpackGroups([128 + low] + bs) == Some((low + 128 * high, suffix))
  {
    assert ([128 + low] + bs)[1..] == bs;
  }

  lemma NumRoundTrip(n: nat, suffix: Bytes)
    requires n < WORD32
    ensures UnpackNum(PackNum(n) + suffix) == Some((n, suffix))
  {
    GroupsRoundTrip(n, suffix);
    hide PackNum, UnpackGroups;
  }

  lemma FixedWidthFaithful(w: nat)
    ensures Faithful(FixedWidth(w))
  {
  }

  lemma VarUintFaithful()
    ensures Faithful(VarUint())
  {
    forall v, rest: Bytes | VarUint().pack(v).Some?
      ensures VarUint().unpack(VarUint().pack(v).value + rest) == Some((v, rest))
    {
      NumRoundTrip(v.n, rest);
    }
  }

  lemma BlobFaithful()
    ensures Faithful(Blob())
  {
    forall v, rest: Bytes | Blob().pack(v).Some?
      ensures Blob().unpack(Blob().pack(v).value + rest) == Some((v, rest))
    {
      assert PackNum(|v.data|) + v.data + rest == PackNum(|v.data|) + (v.data + rest);
      NumRoundTrip(|v.data|, v.data + rest);
    }
  }

  /** The values of a built-in type, an array of it or an optional of it as unpacking gives them. */
  predicate CanonicalBuiltin(b: Builtin, v: Value, isArray: bool, isOptional: bool)
  {
    if isArray then v.Arr? && forall i :: 0 <= i < |v.items| ==> b.canonical(v.items[i])
    else (isOptional && v == Null) || b.canonical(v)
  }

  lemma {:induction false} PlainsRoundTrip(b: Builtin, vs: seq<Value>, suffix: Bytes)
    requires Faithful(b) && PackPlains(b, vs).Ok? && forall i :: 0 <= i < |vs| ==> b.canonical(vs[i])
    ensures UnpackPlains(b, |vs|, PackPlains(b, vs).value + suffix) == Ok((vs, suffix))
  {
    if vs == [] {
      assert [] + suffix == suffix;
    } else {
      var first, rest := PackPlain(b, vs[0]).value, PackPlains(b, vs[1..]).value;
      assert first + rest + suffix == first + (rest + suffix);
      PlainsRoundTrip(b, vs[1..], suffix);
      assert [vs[0]] + vs[1..] == vs;
    }
  }

  lemma BuiltinRoundTrip(b: Builtin, v: Value, isArray: bool, isOptional: bool, suffix: Bytes)
    requires Faithful(b) && CanonicalBuiltin(b, v, isArray, isOptional) && PackBuiltin(b, v, isArray, isOptional).Ok?
    ensures UnpackBuiltin(b, PackBuiltin(b, v, isArray, isOptional).value + suffix, isArray, isOptional)
         == Ok(Decoded(v, suffix))
  {
    var bs := PackBuiltin(b, v, isArray, isOptional).value;
    if isArray {
      var items := PackPlains(b, v.items).value;
      assert bs + suffix == PackNum(|v.items|) + (items + suffix);
      NumRoundTrip(|v.items|, items + suffix);
      PlainsRoundTrip(b, v.items, suffix);
    } else if isOptional {
      if v == Null {
        assert (bs + suffix)[1..] == suffix;
      } else {
        assert (bs + suffix)[1..] == PackPlain(b, v).value + suffix;
      }
    }
  }

  // ---------------------------------------------------------------- objects

  function Names(entries: seq<(string, Value)>): (r: seq<string>)
    ensures |r| == |entries| && forall i :: 0 <= i < |r| ==> r[i] == entries[i].0
  {
    seq(|entries|, i requires 0 <= i < |entries| => entries[i].0)
  }

  lemma {:induction false} GetAt(entries: seq<(string, Value)>, k: nat)
    requires Distinct(Names(entries)) && k < |entries|
    ensures Has(entries, entries[k].0) && Get(entries, entries[k].0) == entries[k].1
  {
    if k > 0 {
      assert Names(entries)[0] != Names(entries)[k];
      assert Names(entries[1..]) == Names(entries)[1..];
      GetAt(entries[1..], k - 1);
      assert entries[1..][k - 1] == entries[k];
    }
  }

  lemma {:induction false} SetNew(entries: seq<(string, Value)>, name: string, v: Value)
    requires forall i :: 0 <= i < |entries| ==> entries[i].0 != name
    ensures Set(entries, name, v) == entries + [(name, v)]
  {
    if entries != [] {
      SetNew(entries[1..], name, v);
    }
  }

  lemma {:induction false} IndexOfFinds(types: seq<TypeName>, t: TypeName)
    ensures IndexOf(types, t).Some? ==> IndexOf(types, t).value < |types| && types[IndexOf(types, t).value] == t
  {
    if types != [] && types[0] != t { IndexOfFinds(types[1..], t); }
  }

  // ---------------------------------------------------------------- canonical values

  /** The names among the fields i onwards that the object has. */
  function PresentNames(fields: seq<Field>, i: nat, entries: seq<(string, Value)>): seq<string>
    requires i <= |fields|
    decreases |fields| - i
  {
    if i == |fields| then []
    else (if Has(entries, fields[i].name) then [fields[i].name] else []) + PresentNames(fields, i + 1, entries)
  }

  /** The names of a struct's fields that the object has, those of the base first. */
  function StructNames(abi: Abi, s: TypeName, entries: seq<(string, Value)>, scopes: nat): seq<string>
    decreases scopes
  {
    if scopes == 0 || s !in abi.structs then []
    else
      var st := abi.structs[s];
      (if st.base == "" then [] else StructNames(abi, Resolve(abi.typedefs, st.base), entries, scopes - 1))
        + PresentNames(st.fields, 0, entries)
  }

  /**
   A value in the form decoding produces: no nulls inside arrays; objects list exactly their struct's
   fields, in order and under distinct names, except that trailing extensions may be missing; and
   the stream does not end where a field that is there begins. `followed` says that bytes follow.
   */
  ghost predicate Canonical(abi: Abi, t: TypeName, v: Value, allowExtensions: bool, followed: bool, scopes: nat)
    decreases scopes, 2, 0
  {
    && scopes > 0
    && var rt := Resolve(abi.typedefs, t);
    var ft := Fundamental(rt);
    if ft in abi.builtins then CanonicalBuiltin(abi.builtins[ft], v, IsArray(rt), IsOptional(rt))
    else if IsArray(rt) then v.Arr? && CanonicalItems(abi, ft, v.items, followed, scopes)
    else if IsOptional(rt) then v == Null || Canonical(abi, ft, v, allowExtensions, followed, scopes - 1)
    else if rt in abi.variants then
      && v.Arr? && |v.items| == 2 && v.items[0].Str?
      && Canonical(abi, v.items[0].text, v.items[1], allowExtensions, followed, scopes - 1)
    else
      && v.Obj? && Distinct(Names(v.entries)) && Names(v.entries) == StructNames(abi, rt, v.entries, scopes)
      && CanonicalStruct(abi, rt, v.entries, allowExtensions, followed, scopes)
  }

  ghost predicate CanonicalItems(abi: Abi, t: TypeName, vs: seq<Value>, followed: bool, scopes: nat)
    requires scopes > 0
    decreases scopes, 0, |vs|
  {
    vs != [] ==>
      && vs[0] != Null
      && Canonical(abi, t, vs[0], false, followed || EncodeItems(abi, t, vs[1..], scopes) != Ok([]), scopes - 1)
      && CanonicalItems(abi, t, vs[1..], followed, scopes)
  }

  ghost predicate CanonicalStruct(abi: Abi, s: TypeName, entries: seq<(string, Value)>, allowExtensions: bool,
                                  followed: bool, scopes: nat)
    decreases scopes, 1, 0
  {
    && scopes > 0 && s in abi.structs
    && var st := abi.structs[s];
    && (st.base != "" ==>
          var more := followed || EncodeFields(abi, st.fields, 0, entries, allowExtensions, false, scopes) != Ok([]);
          CanonicalStruct(abi, Resolve(abi.typedefs, st.base), entries, false, more, scopes - 1))
    && CanonicalFields(abi, st.fields, 0, entries, allowExtensions, followed, scopes)
  }

  ghost predicate CanonicalFields(abi: Abi, fields: seq<Field>, i: nat, entries: seq<(string, Value)>,
                                  allowExtensions: bool, followed: bool, scopes: nat)
    requires scopes > 0 && i <= |fields|
    decreases scopes, 0, |fields| - i
  {
    if i == |fields| then true
    else if Has(entries, fields[i].name) then
      var t, v := WithoutExtension(fields[i].kind), Get(entries, fields[i].name);
      var ext := allowExtensions && i == |fields| - 1;
      var more := followed || EncodeFields(abi, fields, i + 1, entries, allowExtensions, false, scopes) != Ok([]);
      && Canonical(abi, t, v, ext, more, scopes - 1)
      && (more || Encode(abi, t, v, ext, scopes - 1) != Ok([]))
      && CanonicalFields(abi, fields, i + 1, entries, allowExtensions, followed, scopes)
    else Omitted(fields, i, entries)
  }

  /** Fields i onwards are extensions that the object does not have. */
  predicate Omitted(fields: seq<Field>, i: nat, entries: seq<(string, Value)>)
  {
    forall j :: i <= j < |fields| ==> IsExtension(fields[j].kind) && !Has(entries, fields[j].name)
  }

  /** What validate accepts: aliases without circles, and bases that are structs without circles. */
  ghost predicate Accepted(abi: Abi)
  {
    Acyclic(abi.typedefs) && BasesOk(abi.typedefs, abi.structs)
  }

  /**
   An accepted ABI in which no struct is based on one that is named like an optional or like a built-in type that takes
   objects, so that the base is not written as that and then read as a struct. Built-in types are faithful, and the tags
   of variants are 32-bit numbers.
   */
  ghost predicate ValidAbi(abi: Abi)
  {
    && Accepted(abi)
    && (forall t :: t in abi.builtins ==> Faithful(abi.builtins[t]))
    && (forall t :: t in abi.variants ==> |abi.variants[t]| < WORD32)
    && forall s :: s in abi.structs && abi.structs[s].base != "" ==>
      PlainBase(abi, Resolve(abi.typedefs, abi.structs[s].base))
  }

  /** The name of a base is not that of an optional, nor of a built-in type that can be given as an object. */
  ghost predicate PlainBase(abi: Abi, b: TypeName)
  {
    !IsOptional(b) && (b in abi.builtins ==> forall entries :: abi.builtins[b].pack(Obj(entries)) == None)
  }

  predicate PlainStruct(abi: Abi, s: TypeName)
  {
    s in abi.structs && !IsArray(s) && !IsOptional(s) && s !in abi.builtins && s !in abi.variants
  }

  // ---------------------------------------------------------------- how deep decoding goes

  /** The number of nested scopes decoding enters for a value that is encoded within the given scopes. */
  ghost function Needs(abi: Abi, t: TypeName, v: Value, scopes: nat): (n: nat)
    ensures scopes > 0 ==> 0 < n
    ensures n <= 2 * scopes
    decreases scopes, 2, 0
  {
    if scopes == 0 then 0
    else
      var rt := Resolve(abi.typedefs, t);
      1 +
      match ShapeOf(abi, rt)
      case OfBuiltin => 0
      case OfArray => if v.Arr? then NeedsItems(abi, Fundamental(rt), v.items, scopes) else 0
      case OfOptional => if v == Null then 0 else Needs(abi, Fundamental(rt), v, scopes - 1)
      case OfVariant =>
        if v.Arr? && |v.items| == 2 && v.items[0].Str? then Needs(abi, v.items[0].text, v.items[1], scopes - 1) else 0
      case OfStruct => if v.Obj? then NeedsStruct(abi, rt, v.entries, scopes) else 0
  }

  ghost function NeedsItems(abi: Abi, t: TypeName, vs: seq<Value>, scopes: nat): (n: nat)
    requires scopes > 0
    ensures n <= 2 * (scopes - 1)
    decreases scopes, 0, |vs|
  {
    if vs == [] then 0 else Max(Needs(abi, t, vs[0], scopes - 1), NeedsItems(abi, t, vs[1..], scopes))
  }

  ghost function NeedsStruct(abi: Abi, s: TypeName, entries: seq<(string, Value)>, scopes: nat): (n: nat)
    ensures n <= 2 * scopes && (scopes > 0 ==> n <= 2 * scopes - 1)
    decreases scopes, 1, 0
  {
    if scopes == 0 || s !in abi.structs then 0
    else
      var st := abi.structs[s];
      1 + Max(if st.base == "" then 0 else NeedsStruct(abi, Resolve(abi.typedefs, st.base), entries, scopes - 1),
              NeedsFields(abi, st.fields, 0, entries, scopes))
  }

  ghost function NeedsFields(abi: Abi, fields: seq<Field>, i: nat, entries: seq<(string, Value)>, scopes: nat): (n: nat)
    requires scopes > 0 && i <= |fields|
    ensures n <= 2 * (scopes - 1)
    decreases scopes, 0, |fields| - i
  {
    if i == |fields| then 0
    else
      Max(if Has(entries, fields[i].name)
          then Needs(abi, WithoutExtension(fields[i].kind), Get(entries, fields[i].name), scopes - 1) else 0,
          NeedsFields(abi, fields, i + 1, entries, scopes))
  }

  /** How a type is encoded and decoded, once aliases are resolved. */
  datatype Shape = OfBuiltin | OfArray | OfOptional | OfVariant | OfStruct

  function ShapeOf(abi: Abi, rt: TypeName): Shape
  {
    if Fundamental(rt) in abi.builtins then OfBuiltin
    else if IsArray(rt) then OfArray
    else if IsOptional(rt) then OfOptional
    else if rt in abi.variants then OfVariant
    else OfStruct
  }

  // ---------------------------------------------------------------- the round trip

  /** The struct part of encoding. */
  function StructBytes(abi: Abi, s: TypeName, entries: seq<(string, Value)>, allowExtensions: bool, scopes: nat)
    : Result<Bytes, Error>
    requires scopes > 0 && s in abi.structs
  {
    var st := abi.structs[s];
    var base :- if st.base == "" then Ok([])
                else Encode(abi, Resolve(abi.typedefs, st.base), Obj(entries), false, scopes - 1);
    var own :- EncodeFields(abi, st.fields, 0, entries, allowExtensions, false, scopes);
    Ok(base + own)
  }

  lemma {:induction false} DecodeResolved(abi: Abi, t: TypeName, bs: Bytes, scopes: nat)
    requires Acyclic(abi.typedefs)
    ensures Decode(abi, Resolve(abi.typedefs, t), bs, scopes) == Decode(abi, t, bs, scopes)
  {
    ResolveIdempotent(abi.typedefs, t);
    hide Resolve, DecodeAs;
  }

  lemma {:induction false} EncodePlainStruct(abi: Abi, base: TypeName, entries: seq<(string, Value)>, ext: bool, f: nat)
    requires Acyclic(abi.typedefs) && f > 0 && PlainStruct(abi, Resolve(abi.typedefs, base))
    ensures var b := Resolve(abi.typedefs, base);
      Encode(abi, b, Obj(entries), ext, f) == StructBytes(abi, b, entries, ext, f)
  {
    ResolveIdempotent(abi.typedefs, base);
    hide Resolve, EncodeFields, PackBuiltin, IsArray, IsOptional;
  }

  /** An object that is accepted for a base is written as the base struct, where the base has a plain name. */
  lemma {:induction false} EncodeBase(abi: Abi, base: TypeName, entries: seq<(string, Value)>, ext: bool, f: nat)
    requires Acyclic(abi.typedefs) && f > 0
    requires var b := Resolve(abi.typedefs, base);
      b in abi.structs && PlainBase(abi, b) && Encode(abi, b, Obj(entries), ext, f).Ok?
    ensures var b := Resolve(abi.typedefs, base);
      Encode(abi, b, Obj(entries), ext, f) == StructBytes(abi, b, entries, ext, f)
  {
    ResolveIdempotent(abi.typedefs, base);
    hide Resolve, EncodeFields, IsArray, IsOptional;
  }

  lemma {:induction false} OmittedRoundTrip(abi: Abi, fields: seq<Field>, i: nat, entries: seq<(string, Value)>,
                                            closed: bool, f: nat, done: seq<(string, Value)>, g: nat)
    requires f > 0 && g > 0 && i <= |fields| && Omitted(fields, i, entries)
    ensures EncodeFields(abi, fields, i, entries, true, closed, f) == Ok([])
    ensures i < |fields| ==> EncodeFields(abi, fields, i, entries, false, closed, f).Err?
    ensures PresentNames(fields, i, entries) == [] && NeedsFields(abi, fields, i, entries, f) == 0
    ensures DecodeFields(abi, fields, i, [], done, g) == Ok((done, []))
    decreases |fields| - i
  {
    if i < |fields| {
      OmittedRoundTrip(abi, fields, i + 1, entries, true, f, done, g);
    }
  }

  /** The outcome of decoding with the given scopes: the value and what follows it, or too deep. */
  function Outcome<T>(enough: bool, r: T): Result<T, Error>
  {
    if enough then Ok(r) else Err(TooDeep)
  }

  /**
   Decoding what was encoded gives the value back and leaves exactly the bytes that follow, if and
   only if the scopes it needs are there; otherwise it is refused as too deep.
   */
  lemma {:induction false} RoundTrip(abi: Abi, t: TypeName, v: Value, ext: bool, more: bool, f: nat, suffix: Bytes,
                                     g: nat)
    requires ValidAbi(abi) && Canonical(abi, t, v, ext, more, f)
    requires Encode(abi, t, v, ext, f).Ok? && (ext ==> suffix == []) && (more ==> suffix != [])
    ensures Decode(abi, t, Encode(abi, t, v, ext, f).value + suffix, g)
         == Outcome(g >= Needs(abi, t, v, f), Decoded(v, suffix))
    decreases f, 3, 0
  {
    if g == 0 {
      NoScopes(abi, t, v, f, Encode(abi, t, v, ext, f).value + suffix);
    } else {
      hide Encode, Decode, Needs;
      match ShapeOf(abi, Resolve(abi.typedefs, t))
      case OfBuiltin => BuiltinCase(abi, t, v, ext, more, f, suffix, g);
      case OfArray => ArrayCase(abi, t, v, ext, more, f, suffix, g);
      case OfOptional => OptionalCase(abi, t, v, ext, more, f, suffix, g);
      case OfVariant => VariantCase(abi, t, v, ext, more, f, suffix, g);
      case OfStruct => StructCase(abi, t, v, ext, more, f, suffix, g);
    }
  }

  lemma NoScopes(abi: Abi, t: TypeName, v: Value, f: nat, bs: Bytes)
    requires f > 0
    ensures Decode(abi, t, bs, 0) == Err(TooDeep) && Needs(abi, t, v, f) > 0
  {
  }

  lemma {:induction false} BuiltinCase(abi: Abi, t: TypeName, v: Value, ext: bool, more: bool, f: nat,
                                       suffix: Bytes, g: nat)
    requires ValidAbi(abi) && Canonical(abi, t, v, ext, more, f)
    requires Encode(abi, t, v, ext, f).Ok? && g > 0 && ShapeOf(abi, Resolve(abi.typedefs, t)) == OfBuiltin
    ensures Decode(abi, t, Encode(abi, t, v, ext, f).value + suffix, g)
         == Outcome(g >= Needs(abi, t, v, f), Decoded(v, suffix))
  {
    hide PackBuiltin, UnpackBuiltin, Resolve, Fundamental, IsArray, IsOptional, Faithful, CanonicalBuiltin, Accepted;
    var rt := Resolve(abi.typedefs, t);
    BuiltinRoundTrip(abi.builtins[Fundamental(rt)], v, IsArray(rt), IsOptional(rt), suffix);
  }

  lemma {:induction false} ArrayCase(abi: Abi, t: TypeName, v: Value, ext: bool, more: bool, f: nat, suffix: Bytes,
                                     g: nat)
    requires ValidAbi(abi) && Canonical(abi, t, v, ext, more, f)
    requires Encode(abi, t, v, ext, f).Ok? && (more ==> suffix != []) && g > 0
    requires ShapeOf(abi, Resolve(abi.typedefs, t)) == OfArray
    ensures Decode(abi, t, Encode(abi, t, v, ext, f).value + suffix, g)
         == Outcome(g >= Needs(abi, t, v, f), Decoded(v, suffix))
    decreases f, 2, 0
  {
    hide PackNum, UnpackNum, Resolve, Fundamental, IsArray, IsOptional, EncodeItems, DecodeItems, ValidAbi,
      CanonicalItems, NeedsItems;
    var ft := Fundamental(Resolve(abi.typedefs, t));
    var items := EncodeItems(abi, ft, v.items, f).value;
    assert PackNum(|v.items|) + items + suffix == PackNum(|v.items|) + (items + suffix);
    NumRoundTrip(|v.items|, items + suffix);
    ItemsRoundTrip(abi, ft, v.items, more, f, suffix, g);
  }

  lemma {:induction false} OptionalCase(abi: Abi, t: TypeName, v: Value, ext: bool, more: bool, f: nat,
                                        suffix: Bytes, g: nat)
    requires ValidAbi(abi) && Canonical(abi, t, v, ext, more, f)
    requires Encode(abi, t, v, ext, f).Ok? && (ext ==> suffix == []) && (more ==> suffix != []) && g > 0
    requires ShapeOf(abi, Resolve(abi.typedefs, t)) == OfOptional
    ensures Decode(abi, t, Encode(abi, t, v, ext, f).value + suffix, g)
         == Outcome(g >= Needs(abi, t, v, f), Decoded(v, suffix))
    decreases f, 2, 0
  {
    hide Resolve, Fundamental, IsArray, IsOptional, ValidAbi;
    var ft := Fundamental(Resolve(abi.typedefs, t));
    if v == Null {
      assert ([0] + suffix)[1..] == suffix;
    } else {
      var inner := Encode(abi, ft, v, ext, f - 1).value;
      assert ([1] + inner + suffix)[1..] == inner + suffix;
      RoundTrip(abi, ft, v, ext, more, f - 1, suffix, g - 1);
    }
  }

  lemma {:induction false} VariantCase(abi: Abi, t: TypeName, v: Value, ext: bool, more: bool, f: nat,
                                       suffix: Bytes, g: nat)
    requires ValidAbi(abi) && Canonical(abi, t, v, ext, more, f)
    requires Encode(abi, t, v, ext, f).Ok? && (ext ==> suffix == []) && (more ==> suffix != []) && g > 0
    requires ShapeOf(abi, Resolve(abi.typedefs, t)) == OfVariant
    ensures Decode(abi, t, Encode(abi, t, v, ext, f).value + suffix, g)
         == Outcome(g >= Needs(abi, t, v, f), Decoded(v, suffix))
    decreases f, 2, 0
  {
    hide PackNum, UnpackNum, Resolve, Fundamental, IsArray, IsOptional, IndexOf, Accepted, Faithful;
    var types := abi.variants[Resolve(abi.typedefs, t)];
    var chosen := v.items[0].text;
    IndexOfFinds(types, chosen);
    var tag := IndexOf(types, chosen).value;
    var inner := Encode(abi, chosen, v.items[1], ext, f - 1).value;
    assert PackNum(tag) + inner + suffix == PackNum(tag) + (inner + suffix);
    NumRoundTrip(tag, inner + suffix);
    RoundTrip(abi, chosen, v.items[1], ext, more, f - 1, suffix, g - 1);
    assert v.items == [Str(chosen), v.items[1]];
  }

  lemma {:induction false} StructCase(abi: Abi, t: TypeName, v: Value, ext: bool, more: bool, f: nat, suffix: Bytes,
                                      g: nat)
    requires ValidAbi(abi) && Canonical(abi, t, v, ext, more, f)
    requires Encode(abi, t, v, ext, f).Ok? && (ext ==> suffix == []) && (more ==> suffix != []) && g > 0
    requires ShapeOf(abi, Resolve(abi.typedefs, t)) == OfStruct
    ensures Decode(abi, t, Encode(abi, t, v, ext, f).value + suffix, g)
         == Outcome(g >= Needs(abi, t, v, f), Decoded(v, suffix))
    decreases f, 2, 0
  {
    hide Resolve, Fundamental, IsArray, IsOptional, ValidAbi, EncodeFields, DecodeStruct, StructNames, CanonicalStruct,
      Distinct, NeedsStruct;
    var rt := Resolve(abi.typedefs, t);
    assert Encode(abi, t, v, ext, f) == StructBytes(abi, rt, v.entries, ext, f);
    StructRoundTrip(abi, rt, v.entries, ext, more, f, suffix, g - 1);
    assert v.entries[..|v.entries|] == v.entries;
  }

  lemma {:induction false} ItemsRoundTrip(abi: Abi, t: TypeName, vs: seq<Value>, more: bool, f: nat, suffix: Bytes,
                                          g: nat)
    requires f > 0 && ValidAbi(abi) && CanonicalItems(abi, t, vs, more, f)
    requires EncodeItems(abi, t, vs, f).Ok? && (more ==> suffix != []) && g > 0
    ensures DecodeItems(abi, t, |vs|, EncodeItems(abi, t, vs, f).value + suffix, g)
         == Outcome(g > NeedsItems(abi, t, vs, f), (vs, suffix))
    decreases f, 0, |vs|
  {
    hide Encode, Decode, DecodeAs, ValidAbi, Canonical, Needs;
    if vs == [] {
      assert [] + suffix == suffix;
    } else {
      var first := Encode(abi, t, vs[0], false, f - 1).value;
      var rest := EncodeItems(abi, t, vs[1..], f).value;
      assert first + rest + suffix == first + (rest + suffix);
      RoundTrip(abi, t, vs[0], false, more || rest != [], f - 1, rest + suffix, g - 1);
      ItemsRoundTrip(abi, t, vs[1..], more, f, suffix, g);
      assert [vs[0]] + vs[1..] == vs;
    }
  }

  lemma {:induction false} StructRoundTrip(abi: Abi, s: TypeName, entries: seq<(string, Value)>, ext: bool, more: bool,
                                           f: nat, suffix: Bytes, g: nat)
    requires ValidAbi(abi) && CanonicalStruct(abi, s, entries, ext, more, f)
    requires StructBytes(abi, s, entries, ext, f).Ok? && (ext ==> suffix == []) && (more ==> suffix != [])
    requires Distinct(Names(entries)) && StructNames(abi, s, entries, f) <= Names(entries)
    ensures DecodeStruct(abi, s, StructBytes(abi, s, entries, ext, f).value + suffix, [], g)
         == Outcome(g >= NeedsStruct(abi, s, entries, f), (entries[..|StructNames(abi, s, entries, f)|], suffix))
    decreases f, 1, 0
  {
    hide Encode, Resolve, EncodeFields, DecodeFields, Names, Distinct, PresentNames, CanonicalFields, IsOptional,
      NeedsFields, Faithful, Acyclic;
    if g > 0 {
      var st := abi.structs[s];
      if st.base == "" {
        var own := EncodeFields(abi, st.fields, 0, entries, ext, false, f).value;
        assert [] + own + suffix == own + suffix;
        assert StructNames(abi, s, entries, f) == PresentNames(st.fields, 0, entries);
        assert Names(entries)[0..] == Names(entries);
        FieldsRoundTrip(abi, st.fields, 0, entries, 0, ext, more, f, suffix, g);
      } else {
        BasedRoundTrip(abi, s, entries, ext, more, f, suffix, g);
      }
    }
  }

  /** The same for a struct with a base. */
  lemma {:induction false} BasedRoundTrip(abi: Abi, s: TypeName, entries: seq<(string, Value)>, ext: bool, more: bool,
                                          f: nat, suffix: Bytes, g: nat)
    requires ValidAbi(abi) && CanonicalStruct(abi, s, entries, ext, more, f) && abi.structs[s].base != "" && g > 0
    requires StructBytes(abi, s, entries, ext, f).Ok? && (ext ==> suffix == []) && (more ==> suffix != [])
    requires Distinct(Names(entries)) && StructNames(abi, s, entries, f) <= Names(entries)
    ensures DecodeStruct(abi, s, StructBytes(abi, s, entries, ext, f).value + suffix, [], g)
         == Outcome(g >= NeedsStruct(abi, s, entries, f), (entries[..|StructNames(abi, s, entries, f)|], suffix))
    decreases f, 0, 1 + |abi.structs[s].fields|
  {
    hide Encode, Resolve, EncodeFields, DecodeFields, Names, Distinct, PresentNames, CanonicalFields, IsOptional,
      NeedsFields, Faithful, Acyclic;
    var st := abi.structs[s];
    var b := Resolve(abi.typedefs, st.base);
    var own := EncodeFields(abi, st.fields, 0, entries, ext, false, f).value;
    EncodeBase(abi, st.base, entries, false, f - 1);
    var based := StructBytes(abi, b, entries, false, f - 1).value;
    assert based + own + suffix == based + (own + suffix);
    var names, all := StructNames(abi, b, entries, f - 1), StructNames(abi, s, entries, f);
    var k := |names|;
    assert all == names + PresentNames(st.fields, 0, entries);
    assert names == all[..k] && all[k..] == PresentNames(st.fields, 0, entries);
    PrefixSplit(all, Names(entries), k);
    StructRoundTrip(abi, b, entries, false, more || own != [], f - 1, own + suffix, g - 1);
    FieldsRoundTrip(abi, st.fields, 0, entries, k, ext, more, f, suffix, g);
  }

  lemma PrefixSplit(a: seq<string>, b: seq<string>, k: nat)
    requires a <= b && k <= |a|
    ensures a[..k] <= b && a[k..] <= b[k..]
  {
  }

  lemma {:induction false} FieldsRoundTrip(abi: Abi, fields: seq<Field>, i: nat, entries: seq<(string, Value)>, k: nat,
                                           ext: bool, more: bool, f: nat, suffix: Bytes, g: nat)
    requires f > 0 && i <= |fields| && ValidAbi(abi) && CanonicalFields(abi, fields, i, entries, ext, more, f)
    requires EncodeFields(abi, fields, i, entries, ext, false, f).Ok?
    requires (ext ==> suffix == []) && (more ==> suffix != []) && g > 0
    requires Distinct(Names(entries)) && k <= |entries| && PresentNames(fields, i, entries) <= Names(entries)[k..]
    ensures var bs := EncodeFields(abi, fields, i, entries, ext, false, f).value + suffix;
         DecodeFields(abi, fields, i, bs, entries[..k], g)
         == Outcome(g > NeedsFields(abi, fields, i, entries, f),
                    (entries[..k + |PresentNames(fields, i, entries)|], suffix))
    decreases f, 0, |fields| - i
  {
    hide Encode, Decode, Canonical, EncodeFields, DecodeFields, PresentNames, Names, Distinct, Resolve,
      WithoutExtension, IsOptional, BasesOk, Acyclic, Omitted, Needs, Faithful;
    var bs := EncodeFields(abi, fields, i, entries, ext, false, f).value;
    if i == |fields| {
      NoFields(abi, fields, entries, ext, f, suffix, entries[..k], g);
      assert bs + suffix == suffix;
    } else if !Has(entries, fields[i].name) {
      OmittedRoundTrip(abi, fields, i, entries, false, f, entries[..k], g);
      assert bs + suffix == [];
    } else {
      var t, last := WithoutExtension(fields[i].kind), i == |fields| - 1;
      PresentField(fields, i, entries, k);
      var v := entries[k].1;
      EncodePresent(abi, fields, i, entries, ext, f);
      var first := Encode(abi, t, v, ext && last, f - 1).value;
      var rest := EncodeFields(abi, fields, i + 1, entries, ext, false, f).value;
      assert bs + suffix == first + (rest + suffix);
      if last { NoFields(abi, fields, entries, ext, f, suffix, [], g); }
      RoundTrip(abi, t, v, ext && last, more || rest != [], f - 1, rest + suffix, g - 1);
      DecodeResolved(abi, t, bs + suffix, g - 1);
      if g - 1 < Needs(abi, t, v, f - 1) {
        DecodeTooDeep(abi, fields, i, bs + suffix, entries[..k], g);
      } else {
        FieldsRoundTrip(abi, fields, i + 1, entries, k + 1, ext, more, f, suffix, g);
        DecodePresent(abi, fields, i, bs + suffix, entries[..k], Decoded(v, rest + suffix), g,
                      Outcome(g > NeedsFields(abi, fields, i + 1, entries, f),
                              (entries[..k + |PresentNames(fields, i, entries)|], suffix)));
      }
    }
  }

  lemma {:induction false} DecodeTooDeep(abi: Abi, fields: seq<Field>, i: nat, bs: Bytes,
                                         done: seq<(string, Value)>, g: nat)
    requires g > 0 && i < |fields| && bs != []
    requires Decode(abi, Resolve(abi.typedefs, WithoutExtension(fields[i].kind)), bs, g - 1) == Err(TooDeep)
    ensures DecodeFields(abi, fields, i, bs, done, g) == Err(TooDeep)
  {
    hide Decode, Resolve, WithoutExtension, Set, IsExtension;
  }

  lemma NoFields(abi: Abi, fields: seq<Field>, entries: seq<(string, Value)>, ext: bool, f: nat,
                 bs: Bytes, done: seq<(string, Value)>, g: nat)
    requires f > 0 && g > 0
    ensures EncodeFields(abi, fields, |fields|, entries, ext, false, f) == Ok([])
    ensures DecodeFields(abi, fields, |fields|, bs, done, g) == Ok((done, bs))
    ensures PresentNames(fields, |fields|, entries) == []
  {
  }

  lemma {:induction false} EncodePresent(abi: Abi, fields: seq<Field>, i: nat, entries: seq<(string, Value)>,
                                         ext: bool, f: nat)
    requires f > 0 && i < |fields| && Has(entries, fields[i].name)
    requires EncodeFields(abi, fields, i, entries, ext, false, f).Ok?
    ensures var t, v := WithoutExtension(fields[i].kind), Get(entries, fields[i].name);
      var first := Encode(abi, t, v, ext && i == |fields| - 1, f - 1);
      var rest := EncodeFields(abi, fields, i + 1, entries, ext, false, f);
      first.Ok? && rest.Ok? && EncodeFields(abi, fields, i, entries, ext, false, f) == Ok(first.value + rest.value)
  {
    hide Encode;
  }

  lemma {:induction false} DecodePresent(abi: Abi, fields: seq<Field>, i: nat, bs: Bytes,
                                         done: seq<(string, Value)>, first: Decoded, g: nat,
                                         r: Result<(seq<(string, Value)>, Bytes), Error>)
    requires g > 0 && i < |fields| && bs != []
    requires Decode(abi, Resolve(abi.typedefs, WithoutExtension(fields[i].kind)), bs, g - 1) == Ok(first)
    requires DecodeFields(abi, fields, i + 1, first.rest, Set(done, fields[i].name, first.value), g) == r
    ensures DecodeFields(abi, fields, i, bs, done, g) == r
  {
    hide Decode, Resolve, WithoutExtension, Set, IsExtension;
  }

  /** The next field present is the next entry of the object, and adding it extends the entries decoded so far. */
  lemma PresentField(fields: seq<Field>, i: nat, entries: seq<(string, Value)>, k: nat)
    requires i < |fields| && Has(entries, fields[i].name)
    requires Distinct(Names(entries)) && k <= |entries| && PresentNames(fields, i, entries) <= Names(entries)[k..]
    ensures k < |entries| && entries[k].0 == fields[i].name && Get(entries, fields[i].name) == entries[k].1
    ensures Set(entries[..k], fields[i].name, entries[k].1) == entries[..k + 1]
    ensures PresentNames(fields, i + 1, entries) <= Names(entries)[k + 1..]
    ensures |PresentNames(fields, i, entries)| == 1 + |PresentNames(fields, i + 1, entries)|
  {
    var names := PresentNames(fields, i, entries);
    assert names[0] == Names(entries)[k..][0];
    GetAt(entries, k);
    assert forall j :: 0 <= j < k ==> Names(entries)[j] != Names(entries)[k];
    SetNew(entries[..k], fields[i].name, entries[k].1);
    assert entries[..k] + [entries[k]] == entries[..k + 1];
    assert names[1..] == PresentNames(fields, i + 1, entries);
    assert Names(entries)[k..][1..] == Names(entries)[k + 1..];
  }

  // ---------------------------------------------------------------- extensions, and the edge of the round trip

  function FieldNames(fields: seq<Field>, i: nat): seq<string>
    requires i <= |fields|
    decreases |fields| - i
  {
    if i == |fields| then [] else [fields[i].name] + FieldNames(fields, i + 1)
  }

  /** Where extensions are not allowed, that is wherever something may follow, none is left out. */
  lemma {:induction false} NothingOmittedInside(abi: Abi, fields: seq<Field>, i: nat, entries: seq<(string, Value)>,
                                                more: bool, f: nat)
    requires f > 0 && i <= |fields| && CanonicalFields(abi, fields, i, entries, false, more, f)
    requires EncodeFields(abi, fields, i, entries, false, false, f).Ok?
    ensures PresentNames(fields, i, entries) == FieldNames(fields, i)
    decreases |fields| - i
  {
    hide Encode, Canonical;
    if i < |fields| {
      if Has(entries, fields[i].name) {
        NothingOmittedInside(abi, fields, i + 1, entries, more, f);
      } else {
        OmittedRoundTrip(abi, fields, i, entries, false, f, [], 1);
      }
    }
  }

  /**
   A field that takes up no bytes at the very end of the stream does not come back: a struct whose
   only field is an empty struct encodes to nothing, and nothing does not decode.
   */
  lemma {:induction false} EmptyFieldIsLost(abi: Abi, s: TypeName, e: TypeName, name: string, f: nat, g: nat)
    requires Acyclic(abi.typedefs) && s !in abi.typedefs && e !in abi.typedefs && f >= 2 && g >= 2
    requires PlainStruct(abi, s) && abi.structs[s] == Struct("", [Field(name, e)])
    requires PlainStruct(abi, e) && abi.structs[e] == Struct("", []) && !IsExtension(e)
    ensures Encode(abi, s, Obj([(name, Obj([]))]), true, f) == Ok([])
    ensures Decode(abi, s, [], g) == Err(StreamEnded)
  {
    EncodeEmptyStruct(abi, e, f - 1);
    EncodeOneField(abi, s, e, name, f);
    DecodeNothing(abi, s, e, name, g);
  }

  lemma {:induction false} EncodeEmptyStruct(abi: Abi, e: TypeName, f: nat)
    requires Acyclic(abi.typedefs) && e !in abi.typedefs && f >= 1
    requires PlainStruct(abi, e) && abi.structs[e] == Struct("", [])
    ensures Encode(abi, e, Obj([]), true, f) == Ok([])
  {
    var fields, nothing: Bytes := abi.structs[e].fields, [];
    NoFields(abi, fields, [], true, f, [], [], 1);
    EncodePlainStruct(abi, e, [], true, f);
    hide Encode, EncodeFields, PlainStruct;
    assert nothing + nothing == nothing;
    assert StructBytes(abi, e, [], true, f) == Ok(nothing);
  }

  lemma {:induction false} EncodeOneField(abi: Abi, s: TypeName, e: TypeName, name: string, f: nat)
    requires Acyclic(abi.typedefs) && s !in abi.typedefs && f >= 2
    requires PlainStruct(abi, s) && abi.structs[s] == Struct("", [Field(name, e)]) && !IsExtension(e)
    requires Encode(abi, e, Obj([]), true, f - 1) == Ok([])
    ensures Encode(abi, s, Obj([(name, Obj([]))]), true, f) == Ok([])
  {
    var fields, entries, nothing: Bytes := [Field(name, e)], [(name, Obj([]))], [];
    EncodePlainStruct(abi, s, entries, true, f);
    NoFields(abi, fields, entries, true, f, [], [], 1);
    OneEntry(name, Obj([]));
    assert WithoutExtension(e) == e;
    hide Encode, EncodeFields, PlainStruct, IsExtension, WithoutExtension, Has, Get;
    FieldPresent(abi, fields, 0, entries, true, f, nothing, nothing);
    assert nothing + nothing == nothing;
    assert StructBytes(abi, s, entries, true, f) == Ok(nothing);
  }

  lemma OneEntry(name: string, v: Value)
    ensures Has([(name, v)], name) && Get([(name, v)], name) == v
  {
    assert [(name, v)][0].0 == name;
  }

  lemma {:induction false} FieldPresent(abi: Abi, fields: seq<Field>, i: nat, entries: seq<(string, Value)>,
                                        ext: bool, f: nat, first: Bytes, rest: Bytes)
    requires f > 0 && i < |fields| && Has(entries, fields[i].name)
    requires var t, v := WithoutExtension(fields[i].kind), Get(entries, fields[i].name);
      Encode(abi, t, v, ext && i == |fields| - 1, f - 1) == Ok(first)
    requires EncodeFields(abi, fields, i + 1, entries, ext, false, f) == Ok(rest)
    ensures EncodeFields(abi, fields, i, entries, ext, false, f) == Ok(first + rest)
  {
    hide Encode, WithoutExtension, Has, Get, IsOptional, IsExtension;
  }

  lemma {:induction false} DecodeNothing(abi: Abi, s: TypeName, e: TypeName, name: string, g: nat)
    requires s !in abi.typedefs && g >= 2
    requires PlainStruct(abi, s) && abi.structs[s] == Struct("", [Field(name, e)]) && !IsExtension(e)
    ensures Decode(abi, s, [], g) == Err(StreamEnded)
  {
    hide IsExtension, IsArray, IsOptional;
    assert DecodeFields(abi, [Field(name, e)], 0, [], [], g - 1) == Err(StreamEnded);
    assert DecodeStruct(abi, s, [], [], g - 1) == Err(StreamEnded);
  }
}
