/**
 The bytes themselves: which values each kind of type accepts and exactly what is written for them, and
 which bytes are read as what. The statements list the parts side by side instead of walking over them.
 */
module AbiFormat {
  import opened Wrappers
  import opened AbiTypes
  import opened AbiCodec
  import opened AbiRoundTrip

  /** The parts one after the other. */
  function Flat(parts: seq<Bytes>): Bytes
  {
    if parts == [] then [] else parts[0] + Flat(parts[1..])
  }

  // ---------------------------------------------------------------- numbers

  /** Groups of seven bits, the lowest first. */
  function ValueOf(bs: Bytes): nat
  {
    if bs == [] then 0 else bs[0] % 128 + 128 * ValueOf(bs[1..])
  }

  /** Every byte but the last says that more follow, and the last group is not zero unless it is the only one. */
  predicate Groups(bs: Bytes)
  {
    && bs != [] && bs[|bs| - 1] < 128 && (|bs| > 1 ==> bs[|bs| - 1] > 0)
    && forall i :: 0 <= i < |bs| - 1 ==> bs[i] >= 128
  }

  /** A number is written in the fewest groups of seven bits. */
  lemma {:induction false} PackNumIs(n: nat)
    ensures Groups(PackNum(n)) && ValueOf(PackNum(n)) == n
    decreases n
  {
    if n >= 128 {
      PackNumIs(n / 128);
      var rest := PackNum(n / 128);
      assert PackNum(n)[1..] == rest;
      assert |rest| == 1 ==> rest[0] > 0 by { if |rest| == 1 { assert ValueOf(rest) == rest[0] % 128; } }
      assert PackNum(n)[|rest|] == rest[|rest| - 1];
    } else {
      assert PackNum(n)[1..] == [];
    }
  }

  /** Reading takes the bytes up to the first one that ends a number, and fails only when none does. */
  lemma {:induction false} UnpackNumIs(bs: Bytes, k: nat)
    requires k <= |bs| && forall i :: 0 <= i < k ==> bs[i] >= 128
    ensures k == |bs| ==> UnpackNum(bs) == None
    ensures k < |bs| && bs[k] < 128 ==> UnpackNum(bs) == Some((ValueOf(bs[..k + 1]) % WORD32, bs[k + 1..]))
  {
    UnpackGroupsIs(bs, k);
  }

  lemma {:induction false} UnpackGroupsIs(bs: Bytes, k: nat)
    requires k <= |bs| && forall i :: 0 <= i < k ==> bs[i] >= 128
    ensures k == |bs| ==> UnpackGroups(bs) == None
    ensures k < |bs| && bs[k] < 128 ==> UnpackGroups(bs) == Some((ValueOf(bs[..k + 1]), bs[k + 1..]))
    decreases k
  {
    if k > 0 {
      UnpackGroupsIs(bs[1..], k - 1);
      if k < |bs| {
        assert bs[..k + 1][1..] == bs[1..][..k];
        assert bs[1..][k..] == bs[k + 1..];
      }
    } else if bs != [] {
      assert bs[..1][1..] == [];
    }
  }

  // ---------------------------------------------------------------- writing

  /** The items written one by one. */
  ghost predicate Writes(abi: Abi, t: TypeName, vs: seq<Value>, f: nat, parts: seq<Bytes>)
  {
    |parts| == |vs| && forall i :: 0 <= i < |vs| ==> Encode(abi, t, vs[i], false, f) == Ok(parts[i])
  }

  lemma {:induction false} ItemsWritten(abi: Abi, t: TypeName, vs: seq<Value>, f: nat) returns (parts: seq<Bytes>)
    requires f > 0
    ensures EncodeItems(abi, t, vs, f).Ok? <==> forall i :: 0 <= i < |vs| ==> Encode(abi, t, vs[i], false, f - 1).Ok?
    ensures EncodeItems(abi, t, vs, f).Ok? ==>
        Writes(abi, t, vs, f - 1, parts) && EncodeItems(abi, t, vs, f).value == Flat(parts)
    decreases |vs|
  {
    hide Encode;
    parts := [];
    if vs != [] {
      var later := ItemsWritten(abi, t, vs[1..], f);
      assert forall i :: 1 <= i < |vs| ==> vs[i] == vs[1..][i - 1];
      if EncodeItems(abi, t, vs, f).Ok? {
        parts := [Encode(abi, t, vs[0], false, f - 1).value] + later;
        assert parts[1..] == later;
      }
    }
  }

  /** An array is its length and its items; it is accepted exactly when each item is, and there are not too many. */
  lemma {:induction false} ArrayWritten(abi: Abi, t: TypeName, v: Value, ext: bool, f: nat) returns (parts: seq<Bytes>)
    requires f > 0 && ShapeOf(abi, Resolve(abi.typedefs, t)) == OfArray
    ensures var r, item := Encode(abi, t, v, ext, f), Fundamental(Resolve(abi.typedefs, t));
      && (r.Ok? <==>
            && v.Arr? && |v.items| < WORD32
            && forall i :: 0 <= i < |v.items| ==> Encode(abi, item, v.items[i], false, f - 1).Ok?)
      && (r.Ok? ==> Writes(abi, item, v.items, f - 1, parts) && r.value == PackNum(|v.items|) + Flat(parts))
  {
    hide PackNum, Resolve, Fundamental, IsArray, IsOptional, EncodeItems, Writes;
    parts := [];
    if v.Arr? { parts := ItemsWritten(abi, Fundamental(Resolve(abi.typedefs, t)), v.items, f); }
  }

  /** An optional is a zero byte, or a one and its value; it is accepted exactly when its value is. */
  lemma {:induction false} OptionalWritten(abi: Abi, t: TypeName, v: Value, ext: bool, f: nat)
    requires f > 0 && ShapeOf(abi, Resolve(abi.typedefs, t)) == OfOptional
    ensures var inner := Encode(abi, Fundamental(Resolve(abi.typedefs, t)), v, ext, f - 1);
      Encode(abi, t, v, ext, f) ==
        if v == Null then Ok([0]) else if inner.Ok? then Ok([1] + inner.value) else inner
  {
    hide Resolve, Fundamental, IsArray, IsOptional;
  }

  /** A variant is the position of the first type of the given name, and the value as that type. */
  lemma {:induction false} VariantWritten(abi: Abi, t: TypeName, v: Value, ext: bool, f: nat)
    requires f > 0 && ShapeOf(abi, Resolve(abi.typedefs, t)) == OfVariant
    ensures var r, types := Encode(abi, t, v, ext, f), abi.variants[Resolve(abi.typedefs, t)];
      && (r.Ok? <==>
            && v.Arr? && |v.items| == 2 && v.items[0].Str? && v.items[0].text in types
            && Encode(abi, v.items[0].text, v.items[1], ext, f - 1).Ok?)
      && (r.Ok? ==> forall k :: 0 <= k < |types| && types[k] == v.items[0].text && v.items[0].text !in types[..k] ==>
            r.value == PackNum(k) + Encode(abi, types[k], v.items[1], ext, f - 1).value)
  {
    hide PackNum, Resolve, Fundamental, IsArray, IsOptional, IndexOf;
    if v.Arr? && |v.items| == 2 && v.items[0].Str? {
      var types := abi.variants[Resolve(abi.typedefs, t)];
      FirstIndex(types, v.items[0].text);
    }
  }

  lemma {:induction false} FirstIndex(types: seq<TypeName>, t: TypeName)
    ensures IndexOf(types, t).Some? <==> t in types
    ensures forall k :: 0 <= k < |types| && types[k] == t && t !in types[..k] ==> IndexOf(types, t) == Some(k)
    decreases |types|
  {
    if types != [] && types[0] != t {
      FirstIndex(types[1..], t);
      forall k | 0 <= k < |types| && types[k] == t && t !in types[..k] ensures IndexOf(types, t) == Some(k) {
        assert types[1..][..k - 1] == types[..k][1..];
        assert types[1..][k - 1] == t;
      }
    }
  }

  // ---------------------------------------------------------------- built-in types

  lemma {:induction false} PlainsPacked(b: Builtin, vs: seq<Value>) returns (parts: seq<Bytes>)
    ensures PackPlains(b, vs).Ok? <==> forall i :: 0 <= i < |vs| ==> b.pack(vs[i]).Some?
    ensures PackPlains(b, vs).Ok? ==>
      && |parts| == |vs| && (forall i :: 0 <= i < |vs| ==> b.pack(vs[i]) == Some(parts[i]))
      && PackPlains(b, vs).value == Flat(parts)
    decreases |vs|
  {
    parts := [];
    if vs != [] {
      var later := PlainsPacked(b, vs[1..]);
      assert forall i :: 1 <= i < |vs| ==> vs[i] == vs[1..][i - 1];
      if PackPlains(b, vs).Ok? {
        parts := [b.pack(vs[0]).value] + later;
        assert parts[1..] == later;
      }
    }
  }

  /** Arrays and optionals of a built-in type have the same form as those of any other type. */
  lemma {:induction false} BuiltinWritten(b: Builtin, v: Value, isArray: bool, isOptional: bool)
    returns (parts: seq<Bytes>)
    ensures var r := PackBuiltin(b, v, isArray, isOptional);
      if isArray then
        && (r.Ok? <==>
              v.Arr? && |v.items| < WORD32 && forall i :: 0 <= i < |v.items| ==> b.pack(v.items[i]).Some?)
        && (r.Ok? ==>
              && |parts| == |v.items| && (forall i :: 0 <= i < |parts| ==> b.pack(v.items[i]) == Some(parts[i]))
              && r.value == PackNum(|v.items|) + Flat(parts))
      else if isOptional && v == Null then r == Ok([0])
      else
        && (r.Ok? <==> b.pack(v).Some?)
        && (r.Ok? ==> r.value == (if isOptional then [1] else []) + b.pack(v).value)
  {
    parts := [];
    if isArray && v.Arr? {
      parts := PlainsPacked(b, v.items);
    } else if b.pack(v).Some? {
      assert [] + b.pack(v).value == b.pack(v).value;
    }
    hide PackNum, PackPlains;
  }

  /** The values unpacked one after the other, and what is left before each and at the end. */
  ghost predicate Unpacks(b: Builtin, vs: seq<Value>, rests: seq<Bytes>)
  {
    |rests| == |vs| + 1 && forall i :: 0 <= i < |vs| ==> b.unpack(rests[i]) == Some((vs[i], rests[i + 1]))
  }

  lemma {:induction false} PlainsUnpacked(b: Builtin, n: nat, bs: Bytes) returns (rests: seq<Bytes>)
    ensures var r := UnpackPlains(b, n, bs);
      r.Ok? ==> |r.value.0| == n && Unpacks(b, r.value.0, rests) && rests[0] == bs && rests[n] == r.value.1
    decreases n
  {
    rests := [bs];
    var r := UnpackPlains(b, n, bs);
    if n > 0 && r.Ok? {
      var (v, rest) := b.unpack(bs).value;
      var later := PlainsUnpacked(b, n - 1, rest);
      rests := [bs] + later;
      assert r.value.0 == [v] + UnpackPlains(b, n - 1, rest).value.0;
    }
  }

  lemma {:induction false} UnpacksAreRead(b: Builtin, vs: seq<Value>, rests: seq<Bytes>)
    requires Unpacks(b, vs, rests)
    ensures UnpackPlains(b, |vs|, rests[0]) == Ok((vs, rests[|vs|]))
    decreases |vs|
  {
    if vs != [] {
      assert Unpacks(b, vs[1..], rests[1..]);
      UnpacksAreRead(b, vs[1..], rests[1..]);
      assert [vs[0]] + vs[1..] == vs;
    }
  }

  /** An array of a built-in type is read as exactly the values that follow its length one after the other. */
  lemma {:induction false} BuiltinArrayRead(b: Builtin, bs: Bytes, isOptional: bool, vs: seq<Value>, rest: Bytes)
    ensures var r, n := UnpackBuiltin(b, bs, true, isOptional), UnpackNum(bs);
      && (r.Ok? ==> r.value.value.Arr?)
      && (r == Ok(Decoded(Arr(vs), rest)) <==>
            && n.Some? && n.value.0 == |vs|
            && exists rests :: Unpacks(b, vs, rests) && rests[0] == n.value.1 && rests[|vs|] == rest)
  {
    var n := UnpackNum(bs);
    if n.Some? {
      var rests := PlainsUnpacked(b, n.value.0, n.value.1);
      if n.value.0 == |vs| {
        forall rs | Unpacks(b, vs, rs) && rs[0] == n.value.1 && rs[|vs|] == rest
          ensures UnpackPlains(b, |vs|, n.value.1) == Ok((vs, rest))
        {
          UnpacksAreRead(b, vs, rs);
        }
      }
    }
    hide UnpackNum, UnpackPlains;
  }

  /** An optional of a built-in type is read as a byte that says whether a value follows. */
  lemma BuiltinRead(b: Builtin, bs: Bytes, isOptional: bool)
    ensures var r := UnpackBuiltin(b, bs, false, isOptional);
      if isOptional && bs == [] then r == Err(StreamEnded)
      else if isOptional && bs[0] == 0 then r == Ok(Decoded(Null, bs[1..]))
      else
        var one := b.unpack(if isOptional then bs[1..] else bs);
        r == if one.None? then Err(StreamEnded) else Ok(Decoded(one.value.0, one.value.1))
  {
    hide UnpackNum, UnpackPlains;
  }

  // ---------------------------------------------------------------- the fields of a struct

  /** What is written for a field, when it is there or optional. */
  ghost function FieldBytes(abi: Abi, fields: seq<Field>, i: nat, entries: seq<(string, Value)>, ext: bool, f: nat)
    : Result<Bytes, Error>
    requires i < |fields|
  {
    if Has(entries, fields[i].name)
    then Encode(abi, WithoutExtension(fields[i].kind), Get(entries, fields[i].name), ext && i == |fields| - 1, f)
    else Ok([0])
  }

  /**
   The object can be written with the fields before `cut`, each of which it has or is optional; those
   from there on are extensions that it lacks, which is allowed only where nothing may follow.
   */
  ghost predicate CutAt(fields: seq<Field>, from: nat, entries: seq<(string, Value)>, ext: bool, cut: nat)
  {
    && from <= cut <= |fields|
    && (forall i :: from <= i < cut ==> Has(entries, fields[i].name) || IsOptional(fields[i].kind))
    && (forall i :: cut <= i < |fields| ==>
          !Has(entries, fields[i].name) && !IsOptional(fields[i].kind) && IsExtension(fields[i].kind))
    && (cut < |fields| ==> ext)
  }

  /** The parts of the fields from one position to another. */
  ghost predicate FieldParts(abi: Abi, fields: seq<Field>, from: nat, cut: nat, entries: seq<(string, Value)>,
                             ext: bool, f: nat, parts: seq<Bytes>)
  {
    && from <= cut <= |fields| && |parts| == cut - from
    && forall i :: from <= i < cut ==> FieldBytes(abi, fields, i, entries, ext, f) == Ok(parts[i - from])
  }

  /** Each of these fields can be written. */
  ghost predicate CanWrite(abi: Abi, fields: seq<Field>, from: nat, cut: nat, entries: seq<(string, Value)>,
                           ext: bool, f: nat)
  {
    cut <= |fields| && forall i :: from <= i < cut ==> FieldBytes(abi, fields, i, entries, ext, f).Ok?
  }

  lemma {:induction false} ClosedFields(abi: Abi, fields: seq<Field>, i: nat, entries: seq<(string, Value)>,
                                        ext: bool, f: nat)
    requires f > 0 && i <= |fields|
    ensures EncodeFields(abi, fields, i, entries, ext, true, f).Ok? <==> CutAt(fields, i, entries, ext, i)
    ensures EncodeFields(abi, fields, i, entries, ext, true, f).Ok? ==>
        EncodeFields(abi, fields, i, entries, ext, true, f).value == []
    decreases |fields| - i
  {
    hide Encode, Has, IsOptional, IsExtension;
    if i < |fields| { ClosedFields(abi, fields, i + 1, entries, ext, f); }
  }

  /** Fields are accepted exactly when there is such a cut and each part can be written; then these are the bytes. */
  lemma {:induction false} FieldsWritten(abi: Abi, fields: seq<Field>, i: nat, entries: seq<(string, Value)>,
                                         ext: bool, f: nat)
    returns (cut: nat, parts: seq<Bytes>)
    requires f > 0 && i <= |fields|
    ensures EncodeFields(abi, fields, i, entries, ext, false, f).Ok? ==>
      && CutAt(fields, i, entries, ext, cut) && FieldParts(abi, fields, i, cut, entries, ext, f - 1, parts)
      && EncodeFields(abi, fields, i, entries, ext, false, f).value == Flat(parts)
    ensures EncodeFields(abi, fields, i, entries, ext, false, f).Ok? <==>
      exists c: nat :: CutAt(fields, i, entries, ext, c) && CanWrite(abi, fields, i, c, entries, ext, f - 1)
    decreases |fields| - i
  {
    hide Encode, Has, Get, IsOptional, IsExtension, WithoutExtension;
    cut, parts := i, [];
    if i < |fields| {
      var here := Has(entries, fields[i].name) || IsOptional(fields[i].kind);
      if here {
        var later;
        cut, later := FieldsWritten(abi, fields, i + 1, entries, ext, f);
        var first := FieldBytes(abi, fields, i, entries, ext, f - 1);
        var r := EncodeFields(abi, fields, i, entries, ext, false, f);
        if r.Ok? {
          parts := [first.value] + later;
          assert parts[1..] == later;
          PartsGrow(abi, fields, i, cut, entries, ext, f - 1, first.value, later);
        }
        if c: nat :| CutAt(fields, i, entries, ext, c) && CanWrite(abi, fields, i, c, entries, ext, f - 1) {
          assert CutAt(fields, i + 1, entries, ext, c) && CanWrite(abi, fields, i + 1, c, entries, ext, f - 1);
        }
      } else {
        ClosedFields(abi, fields, i + 1, entries, ext, f);
        FieldMissing(abi, fields, i, entries, ext, f);
      }
    }
    if EncodeFields(abi, fields, i, entries, ext, false, f).Ok? {
      assert CutAt(fields, i, entries, ext, cut) && CanWrite(abi, fields, i, cut, entries, ext, f - 1);
    }
  }

  lemma PartsGrow(abi: Abi, fields: seq<Field>, i: nat, cut: nat, entries: seq<(string, Value)>, ext: bool, f: nat,
                  first: Bytes, later: seq<Bytes>)
    requires i < |fields| && FieldParts(abi, fields, i + 1, cut, entries, ext, f, later)
    requires FieldBytes(abi, fields, i, entries, ext, f) == Ok(first)
    ensures FieldParts(abi, fields, i, cut, entries, ext, f, [first] + later)
  {
    hide FieldBytes;
    var parts := [first] + later;
    forall k | i <= k < cut ensures FieldBytes(abi, fields, k, entries, ext, f) == Ok(parts[k - i]) {
      if k > i { assert parts[k - i] == later[k - (i + 1)]; }
    }
  }

  /** A field that is neither there nor optional ends the writing, if it and the rest may be left out. */
  lemma {:induction false} FieldMissing(abi: Abi, fields: seq<Field>, i: nat, entries: seq<(string, Value)>,
                                        ext: bool, f: nat)
    requires f > 0 && i < |fields| && !Has(entries, fields[i].name) && !IsOptional(fields[i].kind)
    ensures EncodeFields(abi, fields, i, entries, ext, false, f)
      == if IsExtension(fields[i].kind) && ext then EncodeFields(abi, fields, i + 1, entries, ext, true, f)
         else Err(MissingField)
  {
    hide Encode, Has, Get, IsOptional, IsExtension, WithoutExtension;
  }

  /** A struct is its base, written from the same object with all its extensions, and its own fields. */
  lemma {:induction false} StructWritten(abi: Abi, t: TypeName, v: Value, ext: bool, f: nat)
    requires f > 0 && ShapeOf(abi, Resolve(abi.typedefs, t)) == OfStruct
    ensures var r, s := Encode(abi, t, v, ext, f), Resolve(abi.typedefs, t);
      && (r.Ok? ==> v.Obj? && s in abi.structs)
      && (v.Obj? && s in abi.structs ==>
            var st := abi.structs[s];
            var own := EncodeFields(abi, st.fields, 0, v.entries, ext, false, f);
            if st.base == "" then r == own
            else
              var base := Encode(abi, Resolve(abi.typedefs, st.base), v, false, f - 1);
              && (r.Ok? <==> base.Ok? && own.Ok?)
              && (r.Ok? ==> r.value == base.value + own.value))
  {
    hide Resolve, Fundamental, IsArray, IsOptional, EncodeFields;
    if v.Obj? && Resolve(abi.typedefs, t) in abi.structs {
      var own := EncodeFields(abi, abi.structs[Resolve(abi.typedefs, t)].fields, 0, v.entries, ext, false, f);
      if own.Ok? { assert [] + own.value == own.value; }
    }
  }

  // ---------------------------------------------------------------- reading

  /** The values read one after the other, and what is left before each and at the end. */
  ghost predicate Reads(abi: Abi, t: TypeName, vs: seq<Value>, f: nat, rests: seq<Bytes>)
  {
    && |rests| == |vs| + 1
    && forall i :: 0 <= i < |vs| ==> Decode(abi, t, rests[i], f) == Ok(Decoded(vs[i], rests[i + 1])) && vs[i] != Null
  }

  /** Reading n items gives the values that are read one by one, none of them Null; otherwise it fails. */
  lemma {:induction false} ItemsRead(abi: Abi, t: TypeName, n: nat, bs: Bytes, f: nat) returns (rests: seq<Bytes>)
    requires f > 0
    ensures var r := DecodeItems(abi, t, n, bs, f);
      r.Ok? ==> |r.value.0| == n && Reads(abi, t, r.value.0, f - 1, rests) && rests[0] == bs && rests[n] == r.value.1
    decreases n
  {
    hide Decode;
    rests := [bs];
    var r := DecodeItems(abi, t, n, bs, f);
    if n > 0 && r.Ok? {
      var first := Decode(abi, t, bs, f - 1).value;
      var later := ItemsRead(abi, t, n - 1, first.rest, f);
      rests := [bs] + later;
      var others := DecodeItems(abi, t, n - 1, first.rest, f).value.0;
      assert r.value.0 == [first.value] + others;
      assert Reads(abi, t, r.value.0, f - 1, rests);
    }
  }

  lemma {:induction false} ReadsAreRead(abi: Abi, t: TypeName, vs: seq<Value>, f: nat, rests: seq<Bytes>)
    requires f > 0 && Reads(abi, t, vs, f - 1, rests)
    ensures DecodeItems(abi, t, |vs|, rests[0], f) == Ok((vs, rests[|vs|]))
    decreases |vs|
  {
    hide Decode;
    if vs != [] {
      assert Reads(abi, t, vs[1..], f - 1, rests[1..]);
      ReadsAreRead(abi, t, vs[1..], f, rests[1..]);
      assert [vs[0]] + vs[1..] == vs;
    }
  }

  /** An array is read as exactly the values, none of them Null, that follow its length one after the other. */
  lemma {:induction false} ArrayRead(abi: Abi, t: TypeName, bs: Bytes, f: nat, vs: seq<Value>, rest: Bytes)
    requires f > 0 && ShapeOf(abi, Resolve(abi.typedefs, t)) == OfArray
    ensures var r, n, item := Decode(abi, t, bs, f), UnpackNum(bs), Fundamental(Resolve(abi.typedefs, t));
      && (r.Ok? ==> r.value.value.Arr?)
      && (r == Ok(Decoded(Arr(vs), rest)) <==>
            && n.Some? && n.value.0 == |vs|
            && exists rests :: Reads(abi, item, vs, f - 1, rests) && rests[0] == n.value.1 && rests[|vs|] == rest)
  {
    ArrayIsItems(abi, t, bs, f);
    hide UnpackNum, Resolve, Fundamental, IsArray, IsOptional, DecodeItems, Decode;
    var n, item := UnpackNum(bs), Fundamental(Resolve(abi.typedefs, t));
    if n.Some? {
      var rests := ItemsRead(abi, item, n.value.0, n.value.1, f);
      if n.value.0 == |vs| {
        forall rs | Reads(abi, item, vs, f - 1, rs) && rs[0] == n.value.1 && rs[|vs|] == rest
          ensures DecodeItems(abi, item, |vs|, n.value.1, f) == Ok((vs, rest))
        {
          ReadsAreRead(abi, item, vs, f, rs);
        }
      }
    }
  }

  lemma {:induction false} ArrayIsItems(abi: Abi, t: TypeName, bs: Bytes, f: nat)
    requires f > 0 && ShapeOf(abi, Resolve(abi.typedefs, t)) == OfArray
    ensures var r, n := Decode(abi, t, bs, f), UnpackNum(bs);
      if n.None? then r == Err(StreamEnded)
      else
        var items := DecodeItems(abi, Fundamental(Resolve(abi.typedefs, t)), n.value.0, n.value.1, f);
        if items.Ok? then r == Ok(Decoded(Arr(items.value.0), items.value.1)) else r == Err(items.error)
  {
    hide UnpackNum, Resolve, Fundamental, IsArray, IsOptional, DecodeItems;
  }

  /** Zero means nothing; any other byte means that the value follows. */
  lemma {:induction false} OptionalRead(abi: Abi, t: TypeName, bs: Bytes, f: nat)
    requires f > 0 && ShapeOf(abi, Resolve(abi.typedefs, t)) == OfOptional
    ensures Decode(abi, t, bs, f) ==
      if bs == [] then Err(StreamEnded)
      else if bs[0] == 0 then Ok(Decoded(Null, bs[1..]))
      else Decode(abi, Fundamental(Resolve(abi.typedefs, t)), bs[1..], f - 1)
  {
    hide Resolve, Fundamental, IsArray, IsOptional;
  }

  /** A variant is read as the type at the position written, with its name; a position beyond the last is refused. */
  lemma {:induction false} VariantRead(abi: Abi, t: TypeName, bs: Bytes, f: nat)
    requires f > 0 && ShapeOf(abi, Resolve(abi.typedefs, t)) == OfVariant
    ensures var r, k, types := Decode(abi, t, bs, f), UnpackNum(bs), abi.variants[Resolve(abi.typedefs, t)];
      if k.None? then r == Err(StreamEnded)
      else if k.value.0 >= |types| then r == Err(InvalidTag)
      else
        var inner := Decode(abi, types[k.value.0], k.value.1, f - 1);
        if inner.Ok? then r == Ok(Decoded(Arr([Str(types[k.value.0]), inner.value.value]), inner.value.rest))
        else r == inner
  {
    hide UnpackNum, Resolve, Fundamental, IsArray, IsOptional;
  }

  // ---------------------------------------------------------------- reading a struct

  /** Setting an entry changes that one only: in place when the name is there, at the end when it is new. */
  lemma {:induction false} SetIs(entries: seq<(string, Value)>, name: string, v: Value, other: string)
    ensures Has(Set(entries, name, v), name) && Get(Set(entries, name, v), name) == v
    ensures other != name ==> (Has(Set(entries, name, v), other) <==> Has(entries, other))
    ensures other != name && Has(entries, other) ==> Get(Set(entries, name, v), other) == Get(entries, other)
    ensures Names(Set(entries, name, v)) == if Has(entries, name) then Names(entries) else Names(entries) + [name]
    decreases |entries|
  {
    hide Has, Get, Names;
    if entries == [] {
      OneEntry(name, v);
      Consed((name, v), [], name);
      Consed((name, v), [], other);
      NoEntries(name);
      NoEntries(other);
      assert [(name, v)] + [] == [(name, v)] && [name] + [] == [] + [name];
    } else {
      var head, tail := entries[0], entries[1..];
      assert entries == [head] + tail;
      Consed(head, tail, name);
      Consed(head, tail, other);
      if head.0 == name {
        Consed((name, v), tail, name);
        Consed((name, v), tail, other);
      } else {
        SetIs(tail, name, v, other);
        Consed(head, Set(tail, name, v), name);
        Consed(head, Set(tail, name, v), other);
        assert [head.0] + (Names(tail) + [name]) == [head.0] + Names(tail) + [name];
      }
    }
  }

  lemma NoEntries(name: string)
    ensures !Has([], name) && Names([]) == []
  {
  }

  /** An entry in front is found first. */
  lemma Consed(head: (string, Value), tail: seq<(string, Value)>, name: string)
    ensures Has([head] + tail, name) <==> head.0 == name || Has(tail, name)
    ensures head.0 == name ==> Get([head] + tail, name) == head.1
    ensures head.0 != name && Has(tail, name) ==> Get([head] + tail, name) == Get(tail, name)
    ensures Names([head] + tail) == [head.0] + Names(tail)
  {
    var all := [head] + tail;
    assert all[1..] == tail && all[0] == head;
    FirstOrLater(all, name);
    NamesConsed(head, tail);
    hide Has, Names;
  }

  lemma NamesConsed(head: (string, Value), tail: seq<(string, Value)>)
    ensures Names([head] + tail) == [head.0] + Names(tail)
  {
    var all := [head] + tail;
    forall i | 0 <= i < |all| ensures Names(all)[i] == ([head.0] + Names(tail))[i] {
      if i > 0 { assert all[i] == tail[i - 1]; }
    }
  }

  lemma FirstOrLater(entries: seq<(string, Value)>, name: string)
    requires entries != []
    ensures Has(entries, name) <==> entries[0].0 == name || Has(entries[1..], name)
  {
    if i :| 0 <= i < |entries| && entries[i].0 == name { if i > 0 { assert entries[1..][i - 1].0 == name; } }
    if i :| 0 <= i < |entries[1..]| && entries[1..][i].0 == name { assert entries[i + 1].0 == name; }
  }

  /** The fields read so far and what is left of the stream. */
  datatype Reading = Reading(entries: seq<(string, Value)>, rest: Bytes)

  /** One field: read and set, or, where the stream has ended, skipped if it is an extension. */
  ghost predicate ReadsField(abi: Abi, field: Field, f: nat, a: Reading, b: Reading)
  {
    if a.rest == [] then IsExtension(field.kind) && b == a
    else
      var first := Decode(abi, Resolve(abi.typedefs, WithoutExtension(field.kind)), a.rest, f);
      first.Ok? && b == Reading(Set(a.entries, field.name, first.value.value), first.value.rest)
  }

  ghost predicate ReadsFields(abi: Abi, fields: seq<Field>, from: nat, f: nat, steps: seq<Reading>)
  {
    && from <= |fields| && |steps| == |fields| - from + 1
    && forall i :: from <= i < |fields| ==> ReadsField(abi, fields[i], f, steps[i - from], steps[i - from + 1])
  }

  /** Reading fields succeeds exactly when each field in turn can be read, and gives what they leave. */
  lemma {:induction false} FieldsRead(abi: Abi, fields: seq<Field>, i: nat, bs: Bytes,
                                      done: seq<(string, Value)>, f: nat)
    returns (steps: seq<Reading>)
    requires f > 0 && i <= |fields|
    ensures var r := DecodeFields(abi, fields, i, bs, done, f);
      r.Ok? ==>
        && ReadsFields(abi, fields, i, f - 1, steps) && steps[0] == Reading(done, bs)
        && steps[|fields| - i] == Reading(r.value.0, r.value.1)
    decreases |fields| - i
  {
    hide Decode, Set, IsExtension, WithoutExtension, Resolve;
    steps := [Reading(done, bs)];
    if i < |fields| && DecodeFields(abi, fields, i, bs, done, f).Ok? {
      var next := FieldStep(abi, fields, i, bs, done, f);
      var later := FieldsRead(abi, fields, i + 1, next.rest, next.entries, f);
      steps := steps + later;
      forall k | i <= k < |fields| ensures ReadsField(abi, fields[k], f - 1, steps[k - i], steps[k - i + 1]) {
        if k > i { assert ReadsField(abi, fields[k], f - 1, later[k - (i + 1)], later[k - (i + 1) + 1]); }
      }
    }
  }

  lemma {:induction false} FieldStep(abi: Abi, fields: seq<Field>, i: nat, bs: Bytes,
                                     done: seq<(string, Value)>, f: nat)
    returns (next: Reading)
    requires f > 0 && i < |fields| && DecodeFields(abi, fields, i, bs, done, f).Ok?
    ensures ReadsField(abi, fields[i], f - 1, Reading(done, bs), next)
    ensures DecodeFields(abi, fields, i, bs, done, f) == DecodeFields(abi, fields, i + 1, next.rest, next.entries, f)
  {
    hide Decode, Set, IsExtension, WithoutExtension, Resolve;
    if bs == [] {
      next := Reading(done, bs);
    } else {
      var first := Decode(abi, Resolve(abi.typedefs, WithoutExtension(fields[i].kind)), bs, f - 1).value;
      next := Reading(Set(done, fields[i].name, first.value), first.rest);
    }
  }

  lemma {:induction false} StepsAreRead(abi: Abi, fields: seq<Field>, i: nat, f: nat, steps: seq<Reading>)
    requires f > 0 && ReadsFields(abi, fields, i, f - 1, steps)
    ensures var last := steps[|fields| - i];
      DecodeFields(abi, fields, i, steps[0].rest, steps[0].entries, f) == Ok((last.entries, last.rest))
    decreases |fields| - i
  {
    hide Decode, Set, IsExtension, WithoutExtension, Resolve;
    if i < |fields| {
      assert ReadsField(abi, fields[i], f - 1, steps[0], steps[1]);
      forall k | i + 1 <= k < |fields|
        ensures ReadsField(abi, fields[k], f - 1, steps[1..][k - (i + 1)], steps[1..][k - i])
      {
        assert ReadsField(abi, fields[k], f - 1, steps[k - i], steps[k - i + 1]);
      }
      StepsAreRead(abi, fields, i + 1, f, steps[1..]);
    }
  }

  /** A struct is read as its base and then its own fields, into one object; two scopes are entered for it. */
  lemma {:induction false} StructRead(abi: Abi, t: TypeName, bs: Bytes, f: nat)
    requires f > 0 && ShapeOf(abi, Resolve(abi.typedefs, t)) == OfStruct
    ensures var r := DecodeStruct(abi, Resolve(abi.typedefs, t), bs, [], f - 1);
      Decode(abi, t, bs, f) == if r.Ok? then Ok(Decoded(Obj(r.value.0), r.value.1)) else Err(r.error)
  {
    hide Resolve, Fundamental, IsArray, IsOptional, DecodeStruct;
  }

  lemma {:induction false} BaseRead(abi: Abi, s: TypeName, bs: Bytes, done: seq<(string, Value)>, f: nat)
    requires s in abi.structs
    ensures var st := abi.structs[s];
      DecodeStruct(abi, s, bs, done, f) ==
        if f == 0 then Err(TooDeep)
        else if st.base == "" then DecodeFields(abi, st.fields, 0, bs, done, f)
        else
          var base := DecodeStruct(abi, Resolve(abi.typedefs, st.base), bs, done, f - 1);
          if base.Ok? then DecodeFields(abi, st.fields, 0, base.value.1, base.value.0, f) else base
  {
    hide Resolve, DecodeFields;
  }
}
