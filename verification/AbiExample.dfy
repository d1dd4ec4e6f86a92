/**
 Accepted ABIs with encodings that do not decode: a struct based on one that is named like an optional,
 one based on a struct that is named like a built-in type, and values nested deeper than decoding goes.
 */
module AbiExample {
  import opened Wrappers
  import opened Basics
  import opened AbiTypes
  import opened AbiCodec
  import opened AbiRoundTrip

  const BYTE: TypeName := "byte"
  const B: TypeName := "b"
  const MAYBE_B: TypeName := "b?"
  const S: TypeName := "s"
  const P: string := "p"

  /** b and b? each have one byte p; s adds nothing to its base b?. */
  function OptionalBase(): Abi {
    Abi(map[BYTE := FixedWidth(1)], map[],
        map[B := Struct("", [Field(P, BYTE)]), MAYBE_B := Struct("", [Field(P, BYTE)]), S := Struct(MAYBE_B, [])],
        map[])
  }

  function Entries(x: Byte): seq<(string, Value)> { [(P, Raw([x]))] }

  lemma Names()
    ensures IsOptional(MAYBE_B) && !IsArray(MAYBE_B) && Fundamental(MAYBE_B) == B
    ensures !IsOptional(B) && !IsArray(B) && !IsOptional(S) && !IsArray(S) && !IsOptional(BYTE) && !IsArray(BYTE)
    ensures !IsExtension(BYTE)
  {
    assert MAYBE_B[1..] == "?" && MAYBE_B[..1] == B;
    assert MAYBE_B[0..] != "[]" by { assert MAYBE_B[0] != "[]"[0]; }
    assert B[0..] != "?" && S[0..] != "?";
    assert BYTE[3..] == "e" && BYTE[2..] == "te";
    assert "te"[0] != "[]"[0];
  }

  lemma IsAccepted()
    ensures Accepted(OptionalBase())
  {
    var abi := OptionalBase();
    var m := Bases(abi.typedefs, abi.structs);
    forall s | s in abi.structs ensures Ends(m, s) {
      if s == S {
        assert m[S] == MAYBE_B && MAYBE_B !in m;
        assert Leads(m, MAYBE_B, MAYBE_B, 0);
        assert Leads(m, S, MAYBE_B, 1);
      } else {
        assert Leads(m, s, s, 0);
      }
    }
  }

  lemma {:induction false} EncodeP(x: Byte, f: nat)
    requires f >= 2
    ensures EncodeFields(OptionalBase(), [Field(P, BYTE)], 0, Entries(x), false, false, f) == Ok([x])
    ensures Encode(OptionalBase(), B, Obj(Entries(x)), false, f) == Ok([x])
  {
    Names();
    var abi, fields, nothing: Bytes := OptionalBase(), [Field(P, BYTE)], [];
    OneEntry(P, Raw([x]));
    NoFields(abi, fields, Entries(x), false, f, [], [], 1);
    assert Encode(abi, BYTE, Raw([x]), false, f - 1) == Ok([x]);
    assert WithoutExtension(BYTE) == BYTE;
    FieldPresent(abi, fields, 0, Entries(x), false, f, [x], nothing);
    hide EncodeFields;
    assert [x] + nothing == [x] && nothing + [x] == [x];
  }

  /** The object is written with the flag of an optional in front. */
  lemma {:induction false} Encodes(x: Byte, f: nat)
    requires f >= 4
    ensures Encode(OptionalBase(), S, Obj(Entries(x)), false, f) == Ok([1, x])
  {
    Names();
    var abi, nothing: Bytes := OptionalBase(), [];
    EncodeP(x, f - 2);
    NoFields(abi, [], Entries(x), false, f, [], [], 1);
    assert Encode(abi, MAYBE_B, Obj(Entries(x)), false, f - 1) == Ok([1] + [x]);
    hide EncodeFields, IsArray, IsOptional;
    assert [1] + [x] + nothing == [1, x];
  }

  lemma {:induction false} DecodeP(x: Byte, g: nat)
    requires g >= 2
    ensures DecodeStruct(OptionalBase(), MAYBE_B, [1, x], [], g) == Ok(([(P, Raw([1]))], [x]))
  {
    Names();
    var abi, fields := OptionalBase(), [Field(P, BYTE)];
    var bs: Bytes := [1, x];
    assert bs[..1] == [1] && bs[1..] == [x];
    assert Decode(abi, BYTE, bs, g - 1) == Ok(Decoded(Raw([1]), [x]));
    NoFields(abi, fields, [], false, 1, [x], [(P, Raw([1]))], g);
    assert WithoutExtension(BYTE) == BYTE && Set([], P, Raw([1])) == [(P, Raw([1]))];
    hide Decode;
    assert DecodeFields(abi, fields, 0, bs, [], g) == Ok(([(P, Raw([1]))], [x]));
  }

  /** Read back, the flag is taken for the byte and the byte is left over. */
  lemma {:induction false} OptionalBaseIsLost(x: Byte, f: nat, g: nat)
    requires f >= 4 && g >= 4
    ensures Accepted(OptionalBase()) && Encode(OptionalBase(), S, Obj(Entries(x)), false, f) == Ok([1, x])
    ensures Decode(OptionalBase(), S, [1, x], g) == Ok(Decoded(Obj(Entries(1)), [x]))
  {
    IsAccepted();
    Encodes(x, f);
    DecodeP(x, g - 2);
    Names();
    var abi := OptionalBase();
    NoFields(abi, [], [], false, 1, [x], [(P, Raw([1]))], g - 1);
    hide DecodeFields, IsArray, IsOptional, Encode;
    assert DecodeStruct(abi, S, [1, x], [], g - 1) == Ok(([(P, Raw([1]))], [x]));
  }

  // ---------------------------------------------------------------- a base named like a built-in type

  const Q: string := "q"

  /** A type of one byte that may also be given as an object with an entry p, as an asset may. */
  function FirstOf(): Builtin {
    Builtin((v: Value) => v.Raw? && |v.data| == 1,
            (v: Value) =>
              if v.Obj? && Has(v.entries, P) then FixedWidth(1).pack(Get(v.entries, P)) else FixedWidth(1).pack(v),
            FixedWidth(1).unpack)
  }

  /** The struct b with the bytes p and q has the name of that type; s adds nothing to it. */
  function BuiltinBase(): Abi {
    Abi(map[BYTE := FixedWidth(1), B := FirstOf()], map[],
        map[B := Struct("", [Field(P, BYTE), Field(Q, BYTE)]), S := Struct(B, [])],
        map[])
  }

  lemma BuiltinBaseAccepted()
    ensures Accepted(BuiltinBase()) && Faithful(FirstOf()) && Faithful(FixedWidth(1))
  {
    var abi := BuiltinBase();
    var m := Bases(abi.typedefs, abi.structs);
    forall s | s in abi.structs ensures Ends(m, s) {
      if s == S {
        assert m[S] == B && B !in m;
        assert Leads(m, B, B, 0);
        assert Leads(m, S, B, 1);
      } else {
        assert Leads(m, s, s, 0);
      }
    }
  }

  lemma {:induction false} DecodeTwo(x: Byte, g: nat)
    requires g >= 2
    ensures DecodeStruct(BuiltinBase(), B, [x], [], g) == Err(StreamEnded)
  {
    Names();
    var abi, fields := BuiltinBase(), [Field(P, BYTE), Field(Q, BYTE)];
    var bs: Bytes := [x];
    assert bs[..1] == [x] && bs[1..] == [];
    assert Decode(abi, BYTE, bs, g - 1) == Ok(Decoded(Raw([x]), []));
    assert WithoutExtension(BYTE) == BYTE && Set([], P, Raw([x])) == [(P, Raw([x]))];
    hide Decode, IsExtension;
    assert DecodeFields(abi, fields, 1, [], [(P, Raw([x]))], g) == Err(StreamEnded);
    assert DecodeFields(abi, fields, 0, bs, [], g) == Err(StreamEnded);
  }

  /** The base is written as the built-in type, and reading it as the struct runs out of bytes. */
  lemma {:induction false} BuiltinBaseIsLost(x: Byte, y: Byte, f: nat, g: nat)
    requires f >= 2 && g >= 4
    ensures Accepted(BuiltinBase())
    ensures Encode(BuiltinBase(), S, Obj([(P, Raw([x])), (Q, Raw([y]))]), false, f) == Ok([x])
    ensures Decode(BuiltinBase(), S, [x], g) == Err(StreamEnded)
  {
    Names();
    BuiltinBaseAccepted();
    var abi, entries, nothing: Bytes := BuiltinBase(), [(P, Raw([x])), (Q, Raw([y]))], [];
    assert entries[0].0 == P && Has(entries, P) && Get(entries, P) == Raw([x]);
    assert FirstOf().pack(Obj(entries)) == Some([x]);
    assert Encode(abi, B, Obj(entries), false, f - 1) == Ok([x]);
    NoFields(abi, [], entries, false, f, [], [], 1);
    DecodeTwo(x, g - 2);
    assert [x] + nothing == [x];
    hide DecodeFields, EncodeFields, IsArray, IsOptional;
    assert DecodeStruct(abi, S, [x], [], g - 1) == Err(StreamEnded);
  }

  // ---------------------------------------------------------------- values that are too deep to decode

  const N: TypeName := "n"
  const MAYBE_N: TypeName := "n?"

  /** A struct n with one field, an optional n. */
  function ListAbi(): Abi {
    Abi(map[], map[], map[N := Struct("", [Field(P, MAYBE_N)])], map[])
  }

  /** n nested k times in another. */
  function Nested(k: nat): Value
    decreases k, 1
  {
    Obj([(P, Inner(k))])
  }

  function Inner(k: nat): Value
    decreases k, 0
  {
    if k == 0 then Null else Nested(k - 1)
  }

  lemma ListAbiValid()
    ensures ValidAbi(ListAbi())
    ensures IsOptional(MAYBE_N) && !IsArray(MAYBE_N)
    ensures Fundamental(MAYBE_N) == N && WithoutExtension(MAYBE_N) == MAYBE_N
    ensures !IsOptional(N) && !IsArray(N) && !IsExtension(MAYBE_N) && Fundamental(N) == N
  {
    assert MAYBE_N[1..] == "?" && MAYBE_N[..1] == N;
    assert MAYBE_N[0..] != "[]" by { assert MAYBE_N[0] != "[]"[0]; }
    assert N[0..] != "?";
    var abi := ListAbi();
    var m := Bases(abi.typedefs, abi.structs);
    assert Leads(m, N, N, 0);
  }

  /** Encoding enters two scopes a level, decoding three. */
  lemma {:induction false} NestedScopes(k: nat, ext: bool, f: nat)
    requires f >= 2 * k + 2
    ensures var abi := ListAbi();
      && var r := Encode(abi, N, Nested(k), ext, f);
      && r.Ok? && r.value != [] && Canonical(abi, N, Nested(k), ext, false, f)
      && Needs(abi, N, Nested(k), f) == 3 * k + 3
  {
    hide Encode, Canonical, Needs, Nested, Inner;
    InnerScopes(k, ext, f - 1);
    NestedEncodes(k, ext, f);
    NestedCanonical(k, ext, f);
    NestedNeeds(k, f);
  }

  lemma {:induction false} NestedEncodes(k: nat, ext: bool, f: nat)
    requires f > 0 && Encode(ListAbi(), MAYBE_N, Inner(k), ext, f - 1).Ok?
    ensures Encode(ListAbi(), N, Nested(k), ext, f) == Encode(ListAbi(), MAYBE_N, Inner(k), ext, f - 1)
  {
    ListAbiValid();
    var abi, fields, entries := ListAbi(), [Field(P, MAYBE_N)], [(P, Inner(k))];
    OneEntry(P, Inner(k));
    var nothing: Bytes := [];
    NoFields(abi, fields, entries, ext, f, [], [], 1);
    var first := Encode(abi, MAYBE_N, Inner(k), ext, f - 1).value;
    FieldPresent(abi, fields, 0, entries, ext, f, first, nothing);
    EncodePlainStruct(abi, N, entries, ext, f);
    hide Encode, EncodeFields;
    assert nothing + (first + nothing) == first;
  }

  lemma {:induction false} NestedNeeds(k: nat, f: nat)
    requires f >= 2 * k + 2 && Needs(ListAbi(), MAYBE_N, Inner(k), f - 1) == 3 * k + 1
    ensures Needs(ListAbi(), N, Nested(k), f) == 3 * k + 3
  {
    ListAbiValid();
    var abi, fields, entries := ListAbi(), [Field(P, MAYBE_N)], [(P, Inner(k))];
    OneEntry(P, Inner(k));
    hide IsArray, IsOptional, IsExtension, ValidAbi;
    assert NeedsFields(abi, fields, 1, entries, f) == 0;
    assert NeedsFields(abi, fields, 0, entries, f) == 3 * k + 1;
    assert NeedsStruct(abi, N, entries, f) == 3 * k + 2;
  }

  lemma {:induction false} NestedCanonical(k: nat, ext: bool, f: nat)
    requires f >= 2 * k + 2
    requires Canonical(ListAbi(), MAYBE_N, Inner(k), ext, false, f - 1)
    requires Encode(ListAbi(), MAYBE_N, Inner(k), ext, f - 1) != Ok([])
    ensures Canonical(ListAbi(), N, Nested(k), ext, false, f)
  {
    ListAbiValid();
    NestedNames(k, f);
    NestedFields(k, ext, f);
    hide IsArray, IsOptional, StructNames, CanonicalFields, ValidAbi, AbiRoundTrip.Names;
    assert CanonicalStruct(ListAbi(), N, [(P, Inner(k))], ext, false, f);
  }

  lemma {:induction false} NestedNames(k: nat, f: nat)
    requires f > 0
    ensures var entries := [(P, Inner(k))];
      StructNames(ListAbi(), N, entries, f) == AbiRoundTrip.Names(entries) && Distinct(AbiRoundTrip.Names(entries))
  {
    var fields, entries := [Field(P, MAYBE_N)], [(P, Inner(k))];
    OneEntry(P, Inner(k));
    hide Inner;
    assert PresentNames(fields, 0, entries) == [P] + PresentNames(fields, 1, entries) == [P];
    assert StructNames(ListAbi(), N, entries, f) == [P] == AbiRoundTrip.Names(entries);
  }

  lemma {:induction false} NestedFields(k: nat, ext: bool, f: nat)
    requires f > 0
    requires Canonical(ListAbi(), MAYBE_N, Inner(k), ext, false, f - 1)
    requires Encode(ListAbi(), MAYBE_N, Inner(k), ext, f - 1) != Ok([])
    ensures CanonicalFields(ListAbi(), [Field(P, MAYBE_N)], 0, [(P, Inner(k))], ext, false, f)
  {
    ListAbiValid();
    var abi, fields, entries := ListAbi(), [Field(P, MAYBE_N)], [(P, Inner(k))];
    OneEntry(P, Inner(k));
    NoFields(abi, fields, entries, ext, f, [], [], 1);
    hide Encode, EncodeFields, IsArray, IsOptional, IsExtension, ValidAbi, Canonical, Inner;
    assert CanonicalFields(abi, fields, 1, entries, ext, false, f);
  }

  lemma {:induction false} InnerScopes(k: nat, ext: bool, f: nat)
    requires f >= 2 * k + 1
    ensures var abi := ListAbi();
      && var r := Encode(abi, MAYBE_N, Inner(k), ext, f);
      && r.Ok? && r.value != [] && Canonical(abi, MAYBE_N, Inner(k), ext, false, f)
      && Needs(abi, MAYBE_N, Inner(k), f) == 3 * k + 1
  {
    hide Encode, Canonical, Needs, Nested, Inner;
    if k > 0 { NestedScopes(k - 1, ext, f - 1); }
    InnerEncodes(k, ext, f);
    InnerCanonical(k, ext, f);
    InnerNeeds(k, f);
  }

  lemma {:induction false} InnerEncodes(k: nat, ext: bool, f: nat)
    requires f > 0
    requires k > 0 ==> Encode(ListAbi(), N, Nested(k - 1), ext, f - 1).Ok?
    ensures var r := Encode(ListAbi(), MAYBE_N, Inner(k), ext, f);
      r.Ok? && r.value != []
  {
    ListAbiValid();
    hide IsArray, IsOptional, ValidAbi, Nested;
  }

  lemma {:induction false} InnerCanonical(k: nat, ext: bool, f: nat)
    requires f > 0
    requires k > 0 ==> Canonical(ListAbi(), N, Nested(k - 1), ext, false, f - 1)
    ensures Canonical(ListAbi(), MAYBE_N, Inner(k), ext, false, f)
  {
    ListAbiValid();
    hide IsArray, IsOptional, ValidAbi, Nested;
  }

  lemma {:induction false} InnerNeeds(k: nat, f: nat)
    requires f > 0
    requires k > 0 ==> Needs(ListAbi(), N, Nested(k - 1), f - 1) == 3 * k
    ensures Needs(ListAbi(), MAYBE_N, Inner(k), f) == 3 * k + 1
  {
    ListAbiValid();
    NestedIsThere(k);
    hide IsArray, IsOptional, ValidAbi, Nested;
  }

  lemma NestedIsThere(k: nat)
    ensures k > 0 ==> Nested(k - 1) != Null
  {
  }

  /** What is nested k times and encoded within the scopes is decoded within them exactly when there are 3k + 3. */
  lemma {:induction false} NestedDecodesIff(k: nat, scopes: nat)
    requires scopes >= 2 * k + 2
    ensures ValidAbi(ListAbi()) && Encode(ListAbi(), N, Nested(k), true, scopes).Ok?
    ensures Decode(ListAbi(), N, Encode(ListAbi(), N, Nested(k), true, scopes).value, scopes)
         == Outcome(scopes >= 3 * k + 3, Decoded(Nested(k), []))
  {
    hide Encode, Decode, Canonical, ValidAbi, Needs, Nested;
    ListAbiValid();
    NestedScopes(k, true, scopes);
    RoundTrip(ListAbi(), N, Nested(k), true, false, scopes, [], scopes);
    var bs := Encode(ListAbi(), N, Nested(k), true, scopes).value;
    assert bs + [] == bs;
  }

  /** Ten levels are encoded within 22 scopes, and not decoded within the limit of 32. */
  lemma {:induction false} DeepValueIsLost(scopes: nat) returns (v: Value)
    requires 22 <= scopes <= 32
    ensures ValidAbi(ListAbi()) && Encode(ListAbi(), N, v, true, scopes).Ok?
    ensures Decode(ListAbi(), N, Encode(ListAbi(), N, v, true, scopes).value, scopes) == Err(TooDeep)
  {
    hide Encode, Decode, ValidAbi, Nested;
    v := Nested(10);
    NestedDecodesIff(10, scopes);
  }

  // ---------------------------------------------------------------- an alias named like an optional

  /** The name b? is an alias of byte, and not an optional of anything; s has one field of it. */
  function AliasedOptional(): Abi {
    Abi(map[BYTE := FixedWidth(1)], map[MAYBE_B := BYTE], map[S := Struct("", [Field(P, MAYBE_B)])], map[])
  }

  lemma AliasAccepted()
    ensures Accepted(AliasedOptional())
  {
    var abi := AliasedOptional();
    assert abi.typedefs[MAYBE_B] == BYTE && BYTE !in abi.typedefs;
    assert Leads(abi.typedefs, BYTE, BYTE, 0);
    assert Leads(abi.typedefs, MAYBE_B, BYTE, 1);
    assert Leads(Bases(abi.typedefs, abi.structs), S, S, 0);
  }

  /** An object without the field is written with the flag of an optional, and the flag is read as the byte. */
  lemma {:induction false} AliasedOptionalIsLost(f: nat, g: nat)
    requires f >= 1 && g >= 3
    ensures Accepted(AliasedOptional()) && Encode(AliasedOptional(), S, Obj([]), false, f) == Ok([0])
    ensures Decode(AliasedOptional(), S, [0], g) == Ok(Decoded(Obj([(P, Raw([0]))]), []))
  {
    AliasAccepted();
    Names();
    var abi, fields, nothing: Bytes := AliasedOptional(), [Field(P, MAYBE_B)], [];
    NoFields(abi, fields, [], false, f, [], [], 1);
    assert EncodeFields(abi, fields, 0, [], false, false, f) == Ok([0] + nothing);
    assert nothing + ([0] + nothing) == [0];
    assert Encode(abi, S, Obj([]), false, f) == Ok([0]) by { hide EncodeFields, IsArray, IsOptional; }
    AliasRead(g);
  }

  lemma {:induction false} AliasRead(g: nat)
    requires g >= 3
    ensures Decode(AliasedOptional(), S, [0], g) == Ok(Decoded(Obj([(P, Raw([0]))]), []))
  {
    Names();
    var abi, fields := AliasedOptional(), [Field(P, MAYBE_B)];
    var bs: Bytes := [0];
    assert bs[..1] == [0] && bs[1..] == [];
    assert MAYBE_B[|MAYBE_B| - 1..] == "?";
    assert WithoutExtension(MAYBE_B) == MAYBE_B && Resolve(abi.typedefs, MAYBE_B) == BYTE;
    assert Decode(abi, BYTE, bs, g - 2) == Ok(Decoded(Raw([0]), []));
    NoFields(abi, fields, [], false, 1, [], [(P, Raw([0]))], g - 1);
    assert Set([], P, Raw([0])) == [(P, Raw([0]))];
    hide Decode, IsExtension, IsArray, IsOptional;
    assert DecodeFields(abi, fields, 0, bs, [], g - 1) == Ok(([(P, Raw([0]))], []));
    assert DecodeStruct(abi, S, bs, [], g - 1) == Ok(([(P, Raw([0]))], []));
    AliasStruct(bs, g, [(P, Raw([0]))]);
  }

  lemma {:induction false} AliasStruct(bs: Bytes, g: nat, entries: seq<(string, Value)>)
    requires g >= 3 && DecodeStruct(AliasedOptional(), S, bs, [], g - 1) == Ok((entries, []))
    ensures Decode(AliasedOptional(), S, bs, g) == Ok(Decoded(Obj(entries), []))
  {
    Names();
    hide DecodeStruct, IsArray, IsOptional;
  }
}
