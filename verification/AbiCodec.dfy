/**
 Encoding values to bytes and decoding them back under an ABI: aliases, arrays, optionals, variants,
 structs with bases, and trailing binary extensions (libraries/chain/abi_serializer.cpp).

 A built-in type is any pair of packing and unpacking functions; what the theorems ask of it is that
 its bytes delimit themselves. `scopes` is the number of nested scopes that may still be entered; the
 encoder and the decoder charge scopes differently, as in the source.
 */
module AbiCodec {
  import opened Wrappers
  import opened AbiTypes

  type Byte = b: nat | b < 256
  type Bytes = seq<Byte>

  datatype Value =
    | Null
    | Raw(data: Bytes)
    | Num(n: nat)
    | Str(text: string)
    | Arr(items: seq<Value>)
    | Obj(entries: seq<(string, Value)>)

  /** How a built-in type is packed and unpacked, and the form in which unpacking gives its values. */
  datatype Builtin = Builtin(
    canonical: Value -> bool,
    pack: Value -> Option<Bytes>,
    unpack: Bytes -> Option<(Value, Bytes)>)

  /** Unpacking reads back a packed value, whatever follows it, and stops where the value ends. */
  ghost predicate Faithful(b: Builtin)
  {
    forall v, rest :: b.canonical(v) && b.pack(v).Some? ==> b.unpack(b.pack(v).value + rest) == Some((v, rest))
  }

  datatype Abi = Abi(
    builtins: map<TypeName, Builtin>,
    typedefs: Links,
    structs: map<TypeName, Struct>,
    variants: map<TypeName, seq<TypeName>>)

  datatype Error =
    | TooDeep
    | BadValue
    | UnknownType
    | MissingField
    | NotAnExtension
    | UnexpectedField
    | StreamEnded
    | NullInArray
    | InvalidTag
    | StructAsArray

  datatype Decoded = Decoded(value: Value, rest: Bytes)

  // ---------------------------------------------------------------- names

  predicate EndsWith(s: string, suffix: string)
  {
    |suffix| <= |s| && s[|s| - |suffix|..] == suffix
  }

  predicate IsArray(t: TypeName) { EndsWith(t, "[]") }

  predicate IsOptional(t: TypeName) { EndsWith(t, "?") }

  predicate IsExtension(t: TypeName) { EndsWith(t, "$") }

  function Fundamental(t: TypeName): TypeName
  {
    if IsArray(t) then t[..|t| - 2] else if IsOptional(t) then t[..|t| - 1] else t
  }

  function WithoutExtension(t: TypeName): TypeName
  {
    if IsExtension(t) then t[..|t| - 1] else t
  }

  // ---------------------------------------------------------------- numbers and built-in types

  const WORD32: nat := 0x1_0000_0000

  /** Seven bits a byte, low ones first; the high bit says that more follow. */
  function PackNum(n: nat): Bytes
  {
    if n < 128 then [n] else [128 + n % 128] + PackNum(n / 128)
  }

  function UnpackGroups(bs: Bytes): Option<(nat, Bytes)>
  {
    if bs == [] then None
    else if bs[0] < 128 then Some((bs[0], bs[1..]))
    else
      match UnpackGroups(bs[1..])
      case None => None
      case Some((high, rest)) => Some((bs[0] - 128 + 128 * high, rest))
  }

  /** The number read, cut to 32 bits. */
  function UnpackNum(bs: Bytes): Option<(nat, Bytes)>
  {
    match UnpackGroups(bs)
    case None => None
    case Some((n, rest)) => Some((n % WORD32, rest))
  }

  /** Fixed-width types: integers, floats, names, times, checksums. */
  function FixedWidth(w: nat): Builtin
  {
    Builtin((v: Value) => v.Raw? && |v.data| == w,
            (v: Value) => if v.Raw? && |v.data| == w then Some(v.data) else None,
            (bs: Bytes) => if w <= |bs| then Some((Raw(bs[..w]), bs[w..])) else None)
  }

  /** varuint32 */
  function VarUint(): Builtin
  {
    Builtin((v: Value) => v.Num?,
            (v: Value) => if v.Num? && v.n < WORD32 then Some(PackNum(v.n)) else None,
            (bs: Bytes) =>
              match UnpackNum(bs)
              case None => None
              case Some((n, rest)) => Some((Num(n), rest)))
  }

  /** bytes and string: a length and that many bytes. */
  function Blob(): Builtin
  {
    Builtin((v: Value) => v.Raw?,
            (v: Value) => if v.Raw? && |v.data| < WORD32 then Some(PackNum(|v.data|) + v.data) else None,
            (bs: Bytes) =>
              match UnpackNum(bs)
              case None => None
              case Some((n, rest)) => if n <= |rest| then Some((Raw(rest[..n]), rest[n..])) else None)
  }

  function PackPlain(b: Builtin, v: Value): Result<Bytes, Error>
  {
    match b.pack(v)
    case None => Err(BadValue)
    case Some(bs) => Ok(bs)
  }

  function UnpackPlain(b: Builtin, bs: Bytes): Result<Decoded, Error>
  {
    match b.unpack(bs)
    case None => Err(StreamEnded)
    case Some((v, rest)) => Ok(Decoded(v, rest))
  }

  function PackPlains(b: Builtin, vs: seq<Value>): Result<Bytes, Error>
  {
    if vs == [] then Ok([])
    else
      var first :- PackPlain(b, vs[0]);
      var rest :- PackPlains(b, vs[1..]);
      Ok(first + rest)
  }

  function UnpackPlains(b: Builtin, n: nat, bs: Bytes): Result<(seq<Value>, Bytes), Error>
  {
    if n == 0 then Ok(([], bs))
    else
      var first :- UnpackPlain(b, bs);
      var (others, rest) :- UnpackPlains(b, n - 1, first.rest);
      Ok(([first.value] + others, rest))
  }

  /** A built-in type, an array of it or an optional of it, all packed by the built-in codec. */
  function PackBuiltin(b: Builtin, v: Value, isArray: bool, isOptional: bool): Result<Bytes, Error>
  {
    if isArray then
      if v.Arr? && |v.items| < WORD32 then
        var items :- PackPlains(b, v.items);
        Ok(PackNum(|v.items|) + items)
      else Err(BadValue)
    else if isOptional then
      if v == Null then Ok([0])
      else
        var inner :- PackPlain(b, v);
        Ok([1] + inner)
    else PackPlain(b, v)
  }

  function UnpackBuiltin(b: Builtin, bs: Bytes, isArray: bool, isOptional: bool): Result<Decoded, Error>
  {
    if isArray then
      match UnpackNum(bs)
      case None => Err(StreamEnded)
      case Some((n, body)) =>
        var (items, rest) :- UnpackPlains(b, n, body);
        Ok(Decoded(Arr(items), rest))
    else if isOptional then
      if bs == [] then Err(StreamEnded)
      else if bs[0] == 0 then Ok(Decoded(Null, bs[1..]))
      else UnpackPlain(b, bs[1..])
    else UnpackPlain(b, bs)
  }

  // ---------------------------------------------------------------- objects

  predicate Has(entries: seq<(string, Value)>, name: string)
  {
    exists i :: 0 <= i < |entries| && entries[i].0 == name
  }

  /** The value of the first entry with the name. */
  function Get(entries: seq<(string, Value)>, name: string): Value
    requires Has(entries, name)
  {
    if entries[0].0 == name then entries[0].1 else Get(entries[1..], name)
  }

  /** Sets an entry: in place when the name is there, at the end when it is new. */
  function Set(entries: seq<(string, Value)>, name: string, v: Value): seq<(string, Value)>
  {
    if entries == [] then [(name, v)]
    else if entries[0].0 == name then [(name, v)] + entries[1..]
    else [entries[0]] + Set(entries[1..], name, v)
  }

  function IndexOf(types: seq<TypeName>, t: TypeName): Option<nat>
  {
    if types == [] then None
    else if types[0] == t then Some(0)
    else
      match IndexOf(types[1..], t)
      case None => None
      case Some(i) => Some(i + 1)
  }

  // ---------------------------------------------------------------- encoding

  /** The bytes of v as type t. Extensions may be left out only when `allowExtensions`. */
  function Encode(abi: Abi, t: TypeName, v: Value, allowExtensions: bool, scopes: nat): Result<Bytes, Error>
    decreases scopes, 1, 0
  {
    if scopes == 0 then Err(TooDeep)
    else
      var rt := Resolve(abi.typedefs, t);
      var ft := Fundamental(rt);
      if ft in abi.builtins then PackBuiltin(abi.builtins[ft], v, IsArray(rt), IsOptional(rt))
      else if IsArray(rt) then
        if !v.Arr? || |v.items| >= WORD32 then Err(BadValue)
        else
          var items :- EncodeItems(abi, ft, v.items, scopes);
          Ok(PackNum(|v.items|) + items)
      else if IsOptional(rt) then
        if v == Null then Ok([0])
        else
          var inner :- Encode(abi, ft, v, allowExtensions, scopes - 1);
          Ok([1] + inner)
      else if rt in abi.variants then
        if !v.Arr? || |v.items| != 2 || !v.items[0].Str? then Err(BadValue)
        else
          match IndexOf(abi.variants[rt], v.items[0].text)
          case None => Err(InvalidTag)
          case Some(tag) =>
            var inner :- Encode(abi, v.items[0].text, v.items[1], allowExtensions, scopes - 1);
            Ok(PackNum(tag) + inner)
      else if rt in abi.structs then
        if v.Arr? then Err(StructAsArray)
        else if !v.Obj? then Err(BadValue)
        else
          var st := abi.structs[rt];
          var base :- if st.base == "" then Ok([])
                      else Encode(abi, Resolve(abi.typedefs, st.base), v, false, scopes - 1);
          var own :- EncodeFields(abi, st.fields, 0, v.entries, allowExtensions, false, scopes);
          Ok(base + own)
      else Err(UnknownType)
  }

  function EncodeItems(abi: Abi, t: TypeName, vs: seq<Value>, scopes: nat): Result<Bytes, Error>
    requires scopes > 0
    decreases scopes, 0, |vs|
  {
    if vs == [] then Ok([])
    else
      var first :- Encode(abi, t, vs[0], false, scopes - 1);
      var rest :- EncodeItems(abi, t, vs[1..], scopes);
      Ok(first + rest)
  }

  /** Fields i onwards; `closed` says that an extension has been left out, so nothing more may come. */
  function EncodeFields(abi: Abi, fields: seq<Field>, i: nat, entries: seq<(string, Value)>,
                        allowExtensions: bool, closed: bool, scopes: nat): Result<Bytes, Error>
    requires scopes > 0 && i <= |fields|
    decreases scopes, 0, |fields| - i
  {
    if i == |fields| then Ok([])
    else
      var f := fields[i];
      if Has(entries, f.name) then
        if closed then Err(UnexpectedField)
        else
          var first :- Encode(abi, WithoutExtension(f.kind), Get(entries, f.name),
                              allowExtensions && i == |fields| - 1, scopes - 1);
          var rest :- EncodeFields(abi, fields, i + 1, entries, allowExtensions, closed, scopes);
          Ok(first + rest)
      else if IsOptional(f.kind) then
        if closed then Err(UnexpectedField)
        else
          var rest :- EncodeFields(abi, fields, i + 1, entries, allowExtensions, closed, scopes);
          Ok([0] + rest)
      else if IsExtension(f.kind) && allowExtensions then
        EncodeFields(abi, fields, i + 1, entries, allowExtensions, true, scopes)
      else if closed then Err(NotAnExtension)
      else Err(MissingField)
  }

  // ---------------------------------------------------------------- decoding

  function Decode(abi: Abi, t: TypeName, bs: Bytes, scopes: nat): Result<Decoded, Error>
    decreases scopes, 2, 0
  {
    if scopes == 0 then Err(TooDeep) else DecodeAs(abi, Resolve(abi.typedefs, t), bs, scopes)
  }

  /** Decoding as a type whose aliases are resolved. */
  function DecodeAs(abi: Abi, rt: TypeName, bs: Bytes, scopes: nat): Result<Decoded, Error>
    requires scopes > 0
    decreases scopes, 1, 0
  {
    var ft := Fundamental(rt);
    if ft in abi.builtins then UnpackBuiltin(abi.builtins[ft], bs, IsArray(rt), IsOptional(rt))
    else if IsArray(rt) then
      match UnpackNum(bs)
      case None => Err(StreamEnded)
      case Some((n, body)) =>
        var (items, rest) :- DecodeItems(abi, ft, n, body, scopes);
        Ok(Decoded(Arr(items), rest))
    else if IsOptional(rt) then
      if bs == [] then Err(StreamEnded)
      else if bs[0] == 0 then Ok(Decoded(Null, bs[1..]))
      else Decode(abi, ft, bs[1..], scopes - 1)
    else if rt in abi.variants then
      match UnpackNum(bs)
      case None => Err(StreamEnded)
      case Some((tag, body)) =>
        if tag >= |abi.variants[rt]| then Err(InvalidTag)
        else
          var chosen := abi.variants[rt][tag];
          var inner :- Decode(abi, chosen, body, scopes - 1);
          Ok(Decoded(Arr([Str(chosen), inner.value]), inner.rest))
    else
      var (entries, rest) :- DecodeStruct(abi, rt, bs, [], scopes - 1);
      Ok(Decoded(Obj(entries), rest))
  }

  function DecodeItems(abi: Abi, t: TypeName, n: nat, bs: Bytes, scopes: nat): Result<(seq<Value>, Bytes), Error>
    requires scopes > 0
    decreases scopes, 0, n
  {
    if n == 0 then Ok(([], bs))
    else
      var first :- Decode(abi, t, bs, scopes - 1);
      if first.value == Null then Err(NullInArray)
      else
        var (others, rest) :- DecodeItems(abi, t, n - 1, first.rest, scopes);
        Ok(([first.value] + others, rest))
  }

  /** Adds the entries of a struct, those of its base first, to the entries already there. */
  function DecodeStruct(abi: Abi, s: TypeName, bs: Bytes, entries: seq<(string, Value)>, scopes: nat)
    : Result<(seq<(string, Value)>, Bytes), Error>
    decreases scopes, 1, 0
  {
    if scopes == 0 then Err(TooDeep)
    else if s !in abi.structs then Err(UnknownType)
    else
      var st := abi.structs[s];
      var (based, body) :- if st.base == "" then Ok((entries, bs))
                           else DecodeStruct(abi, Resolve(abi.typedefs, st.base), bs, entries, scopes - 1);
      DecodeFields(abi, st.fields, 0, body, based, scopes)
  }

  function DecodeFields(abi: Abi, fields: seq<Field>, i: nat, bs: Bytes, entries: seq<(string, Value)>, scopes: nat)
    : Result<(seq<(string, Value)>, Bytes), Error>
    requires scopes > 0 && i <= |fields|
    decreases scopes, 0, |fields| - i
  {
    if i == |fields| then Ok((entries, bs))
    else
      var f := fields[i];
      if bs == [] then
        if IsExtension(f.kind) then DecodeFields(abi, fields, i + 1, bs, entries, scopes)
        else Err(StreamEnded)
      else
        var first :- Decode(abi, Resolve(abi.typedefs, WithoutExtension(f.kind)), bs, scopes - 1);
        DecodeFields(abi, fields, i + 1, first.rest, Set(entries, f.name, first.value), scopes)
  }
}
