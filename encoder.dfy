/**
 * The encoder: `Encode` and `encodeInternal`. `Enc` is the byte string an
 * encoding of a value appends at the cursor; the methods write it through
 * the buffer step by step, as the Go code does, and are proved to write
 * exactly `Enc`.
 */
module Encoder {
  import opened Bytes
  import opened Types
  import opened Fnv
  import opened Registry
  import opened Tags
  import opened LittleEndianBuffer

  /** A struct field is written only when it is non-zero and exported. */
  predicate Writes(f: Field) {
    !IsZero(f.value) && Exported(f.name)
  }

  /** The number of fields of fs that are written. */
  function CountWritten(fs: seq<Field>): (n: nat)
    ensures n <= |fs|
  {
    if fs == [] then 0 else (if Writes(fs[0]) then 1 else 0) + CountWritten(fs[1..])
  }

  /** The 2-byte tags of a sequence of types. */
  function TagBytes(tb: Tables, ts: seq<Ty>): (r: seq<byte>)
    ensures |r| == 2 * |ts|
  {
    if ts == [] then [] else LE(2, TypeTag(tb, ts[0])) + TagBytes(tb, ts[1..])
  }

  /** The element-type list an outermost container of element type e writes. */
  function TypeList(tb: Tables, e: Ty): seq<byte> {
    LE(2, |ElemChain(e)|) + TagBytes(tb, ElemChain(e))
  }

  /** `encodeInternal(buf, v, header)`: the optional 2-byte tag, then the body. */
  function Enc(tb: Tables, v: Val, header: bool): seq<byte>
    decreases v, 1
  {
    (if header then LE(2, TypeTag(tb, TypeOf(v))) else []) + Body(tb, v, header)
  }

  /** What follows the tag. */
  function Body(tb: Tables, v: Val, header: bool): seq<byte>
    decreases v, 0
  {
    match v
    case ArrayV(e, items) => LE(2, |items|) + (if header then TypeList(tb, e) else []) + EncItems(tb, items)
    case SliceV(e, items) => LE(2, |items|) + (if header then TypeList(tb, e) else []) + EncItems(tb, items)
    case MapV(_, _, _) => []
    case StructV(_, fs) => LE(2, CountWritten(fs)) + EncFields(tb, fs)
    case _ => ScalarBody(v)
  }

  /**
   * The bodies of bools, integers, floats and strings, which depend on the
   * value alone: one byte for a bool; for `int` and `uint` a byte giving the
   * width, then the value in that many bytes; the bits of a float; and a
   * string's length in 2 bytes, then its bytes.
   */
  function ScalarBody(v: Val): seq<byte>
    requires v.BoolV? || v.IntV? || v.Float32V? || v.Float64V? || v.StringV?
  {
    match v
    case BoolV(b) => [if b then 1 else 0]
    case IntV(k, x) => (if Platform(k) then [Size(k)] else []) + LE(Size(k), x)
    case Float32V(bits) => LE(4, bits)
    case Float64V(bits) => LE(8, bits)
    case StringV(s) => LE(2, |s|) + s
  }

  /** The elements of an array or slice, each without a tag. */
  function EncItems(tb: Tables, items: seq<Val>): seq<byte>
    decreases items
  {
    if items == [] then [] else Enc(tb, items[0], false) + EncItems(tb, items[1..])
  }

  /** One struct field: its name hash, then its value with a tag. */
  function Entry(tb: Tables, f: Field): seq<byte>
    decreases f, 2
  {
    LE(4, NameHash(f.name)) + Enc(tb, f.value, true)
  }

  /** The written fields of a struct, in declaration order. */
  function EncFields(tb: Tables, fs: seq<Field>): seq<byte>
    decreases fs
  {
    if fs == [] then []
    else (if Writes(fs[0]) then Entry(tb, fs[0]) else []) + EncFields(tb, fs[1..])
  }

  /** The array and slice body, unfolded. */
  lemma BodyList(tb: Tables, v: Val, header: bool)
    requires v.ArrayV? || v.SliceV?
    ensures Body(tb, v, header) ==
      LE(2, |v.items|) + (if header then TypeList(tb, v.elemTy) else []) + EncItems(tb, v.items)
  {
  }

  /** The struct body, unfolded. */
  lemma BodyStruct(tb: Tables, v: Val, header: bool)
    requires v.StructV?
    ensures Body(tb, v, header) == LE(2, CountWritten(v.fields)) + EncFields(tb, v.fields)
  {
  }

  /** One step of the field loop. */
  lemma FieldsStep(tb: Tables, fs: seq<Field>, i: nat)
    requires i < |fs|
    ensures EncFields(tb, fs[i..]) == (if Writes(fs[i]) then Entry(tb, fs[i]) else []) + EncFields(tb, fs[i + 1..])
    ensures CountWritten(fs[i..]) == (if Writes(fs[i]) then 1 else 0) + CountWritten(fs[i + 1..])
  {
    assert fs[i..][1..] == fs[i + 1..];
  }

  /** One step of the element loop. */
  lemma ItemsStep(tb: Tables, items: seq<Val>, i: nat)
    requires i < |items|
    ensures EncItems(tb, items[i..]) == Enc(tb, items[i], false) + EncItems(tb, items[i + 1..])
  {
    assert items[i..][1..] == items[i + 1..];
  }

  /** One step of the tag loop. */
  lemma TagsStep(tb: Tables, ts: seq<Ty>, j: nat)
    requires j < |ts|
    ensures TagBytes(tb, ts[j..]) == LE(2, TypeTag(tb, ts[j])) + TagBytes(tb, ts[j + 1..])
  {
    assert ts[j..][1..] == ts[j + 1..];
  }

  /** `writeTypeIdFixed(buf, t)`. */
  method WriteTypeIdFixed(buf: Buffer, reg: TypeRegistry, t: Ty)
    requires buf.Valid() && buf.pos == |buf.data|
    modifies buf
    ensures buf.Valid() && buf.pos == |buf.data|
    ensures buf.data == old(buf.data) + LE(2, TypeTag(reg.State(), t))
  {
    var id: TypeId;
    match t {
      case BoolT => id := TagBool;
      case IntT(k) => id := KindTag(k);
      case Float32T => id := TagFloat32;
      case Float64T => id := TagFloat64;
      case StringT => id := TagString;
      case ArrayT(_, _) => id := TagArray;
      case SliceT(_) => id := TagSlice;
      case MapT(_, _) => id := TagMap;
      case StructT(_, _) => id := if t in reg.typeToId then reg.typeToId[t] else TagUnknown;
    }
    buf.WriteUint(2, id);
  }

  /** The loop of `encodeInternal` that collects the element types of a container. */
  method ElementTypes(elem: Ty) returns (types: seq<Ty>)
    ensures types == ElemChain(elem)
  {
    var itemType := elem;
    types := [itemType];
    ghost var rest := if IsContainer(itemType) then ElemChain(itemType.elem) else [];
    while IsContainer(itemType)
      invariant types + rest == ElemChain(elem)
      invariant rest == if IsContainer(itemType) then ElemChain(itemType.elem) else []
      decreases itemType
    {
      MoveHead(types, rest);
      itemType := itemType.elem;
      types := types + [itemType];
      rest := rest[1..];
    }
    assert types + [] == types;
  }

  lemma AppendAssoc<T>(a: seq<T>, b: seq<T>, c: seq<T>)
    ensures a + (b + c) == (a + b) + c
  {
  }

  lemma MoveHead<T>(a: seq<T>, r: seq<T>)
    requires r != []
    ensures (a + [r[0]]) + r[1..] == a + r
  {
    assert r == [r[0]] + r[1..];
  }

  /**
   * `encodeInternal(buf, v, header)`: appends Enc(v, header). The encoder
   * writes at the end of a fresh buffer, and every case leaves the cursor
   * at the end again.
   */
  method EncodeInternal(buf: Buffer, reg: TypeRegistry, v: Val, header: bool)
    requires buf.Valid() && buf.pos == |buf.data|
    modifies buf
    ensures buf.Valid() && buf.pos == |buf.data|
    ensures buf.data == old(buf.data) + Enc(reg.State(), v, header)
    decreases v, 2
  {
    if header {
      WriteTypeIdFixed(buf, reg, TypeOf(v));
    }
    EncodeBody(buf, reg, v, header);
  }

  /** The `switch kind` of `encodeInternal`: appends Body(v, header). */
  method EncodeBody(buf: Buffer, reg: TypeRegistry, v: Val, header: bool)
    requires buf.Valid() && buf.pos == |buf.data|
    modifies buf
    ensures buf.Valid() && buf.pos == |buf.data|
    ensures buf.data == old(buf.data) + Body(reg.State(), v, header)
    decreases v, 1
  {
    if v.ArrayV? || v.SliceV? {
      EncodeList(buf, reg, v, header);
    } else if v.StructV? {
      EncodeStruct(buf, reg, v);
    } else if v.MapV? {
      assert buf.data + [] == buf.data;
    } else {
      EncodeScalar(buf, v);
    }
  }

  /** The bool, integer, float and string cases. */
  method EncodeScalar(buf: Buffer, v: Val)
    requires v.BoolV? || v.IntV? || v.Float32V? || v.Float64V? || v.StringV?
    requires buf.Valid() && buf.pos == |buf.data|
    modifies buf
    ensures buf.Valid() && buf.pos == |buf.data|
    ensures buf.data == old(buf.data) + ScalarBody(v)
  {
    match v
    case BoolV(b) =>
      buf.WriteBool(b);
    case IntV(k, x) =>
      ghost var selector := if Platform(k) then [Size(k)] else [];
      if Platform(k) {
        buf.WriteUint(1, Size(k));
        assert LE(1, Size(k)) == [Size(k)];
      }
      assert buf.data == old(buf.data) + selector;
      buf.WriteUint(Size(k), x);
      AppendAssoc(old(buf.data), selector, LE(Size(k), x));
    case Float32V(bits) =>
      buf.WriteUint(4, bits);
    case Float64V(bits) =>
      buf.WriteUint(8, bits);
    case StringV(s) =>
      buf.WriteUint(2, |s|);
      buf.WriteBytes(s);
      AppendAssoc(old(buf.data), LE(2, |s|), s);
  }

  /** The array and slice case: count, element-type list when outermost, elements. */
  method EncodeList(buf: Buffer, reg: TypeRegistry, v: Val, header: bool)
    requires v.ArrayV? || v.SliceV?
    requires buf.Valid() && buf.pos == |buf.data|
    modifies buf
    ensures buf.Valid() && buf.pos == |buf.data|
    ensures buf.data == old(buf.data) + Body(reg.State(), v, header)
    decreases v, 0
  {
    var tb := reg.State();
    var head := LE(2, |v.items|);
    var types := if header then TypeList(tb, v.elemTy) else [];
    BodyList(tb, v, header);
    WriteListHead(buf, reg, v, header);
    EncodeItems(buf, reg, v.items);
    AppendAssoc(old(buf.data), head, types);
    AppendAssoc(old(buf.data), head + types, EncItems(tb, v.items));
  }

  /** The element count, then the element-type list when outermost. */
  method WriteListHead(buf: Buffer, reg: TypeRegistry, v: Val, header: bool)
    requires v.ArrayV? || v.SliceV?
    requires buf.Valid() && buf.pos == |buf.data|
    modifies buf
    ensures buf.Valid() && buf.pos == |buf.data|
    ensures buf.data == old(buf.data) + LE(2, |v.items|) + (if header then TypeList(reg.State(), v.elemTy) else [])
  {
    var length := |v.items|;
    buf.WriteUint(2, length);
    if header {
      WriteTypeList(buf, reg, v.elemTy);
    }
  }

  /** The outermost container's element-type list: its length, then one tag per level. */
  method WriteTypeList(buf: Buffer, reg: TypeRegistry, elem: Ty)
    requires buf.Valid() && buf.pos == |buf.data|
    modifies buf
    ensures buf.Valid() && buf.pos == |buf.data|
    ensures buf.data == old(buf.data) + TypeList(reg.State(), elem)
  {
    var types := ElementTypes(elem);
    WriteChain(buf, reg, types);
  }

  /** The count of the element types, then their tags. */
  method WriteChain(buf: Buffer, reg: TypeRegistry, types: seq<Ty>)
    requires buf.Valid() && buf.pos == |buf.data|
    modifies buf
    ensures buf.Valid() && buf.pos == |buf.data|
    ensures buf.data == old(buf.data) + LE(2, |types|) + TagBytes(reg.State(), types)
  {
    buf.WriteUint(2, |types|);
    WriteTags(buf, reg, types);
  }

  /** The tag loop of the element-type list. */
  method WriteTags(buf: Buffer, reg: TypeRegistry, types: seq<Ty>)
    requires buf.Valid() && buf.pos == |buf.data|
    modifies buf
    ensures buf.Valid() && buf.pos == |buf.data|
    ensures buf.data == old(buf.data) + TagBytes(reg.State(), types)
  {
    var tb := reg.State();
    for j := 0 to |types|
      invariant buf.Valid() && buf.pos == |buf.data|
      invariant buf.data + TagBytes(tb, types[j..]) == old(buf.data) + TagBytes(tb, types)
    {
      TagsStep(tb, types, j);
      WriteTypeIdFixed(buf, reg, types[j]);
    }
    assert types[|types|..] == [];
  }

  /** The elements of an array or slice, in order, each without a tag. */
  method EncodeItems(buf: Buffer, reg: TypeRegistry, items: seq<Val>)
    requires buf.Valid() && buf.pos == |buf.data|
    modifies buf
    ensures buf.Valid() && buf.pos == |buf.data|
    ensures buf.data == old(buf.data) + EncItems(reg.State(), items)
    decreases items
  {
    var tb := reg.State();
    for i := 0 to |items|
      invariant buf.Valid() && buf.pos == |buf.data|
      invariant buf.data + EncItems(tb, items[i..]) == old(buf.data) + EncItems(tb, items)
    {
      ItemsStep(tb, items, i);
      EncodeInternal(buf, reg, items[i], false);
    }
    assert items[|items|..] == [];
  }

  /**
   * The struct case: a 2-byte placeholder, the written fields, then the
   * placeholder overwritten with their number and the cursor put back at
   * the end.
   */
  method EncodeStruct(buf: Buffer, reg: TypeRegistry, v: Val)
    requires v.StructV?
    requires buf.Valid() && buf.pos == |buf.data|
    modifies buf
    ensures buf.Valid() && buf.pos == |buf.data|
    ensures buf.data == old(buf.data) + Body(reg.State(), v, true)
    decreases v, 0
  {
    BodyStruct(reg.State(), v, true);
    var savedPointer := buf.Pointer();
    buf.WriteUint(2, 0);
    var encodedFields := EncodeFields(buf, reg, v.fields);
    var restoredPointer := buf.Pointer();
    buf.SetPointer(savedPointer);
    buf.WriteUint(2, encodedFields);
    SpliceOver(old(buf.data), LE(2, 0), EncFields(reg.State(), v.fields), LE(2, encodedFields));
    buf.SetPointer(restoredPointer);
  }

  /** The field loop of the struct case: appends the written fields and counts them. */
  method EncodeFields(buf: Buffer, reg: TypeRegistry, fs: seq<Field>) returns (encodedFields: nat)
    requires buf.Valid() && buf.pos == |buf.data|
    modifies buf
    ensures buf.Valid() && buf.pos == |buf.data|
    ensures buf.data == old(buf.data) + EncFields(reg.State(), fs)
    ensures encodedFields == CountWritten(fs)
    decreases fs
  {
    var tb := reg.State();
    encodedFields := 0;
    for i := 0 to |fs|
      invariant buf.Valid() && buf.pos == |buf.data|
      invariant buf.data + EncFields(tb, fs[i..]) == old(buf.data) + EncFields(tb, fs)
      invariant encodedFields + CountWritten(fs[i..]) == CountWritten(fs)
    {
      FieldsStep(tb, fs, i);
      if IsZero(fs[i].value) {
        continue;
      }
      if !Exported(fs[i].name) {
        continue;
      }
      EncodeField(buf, reg, fs[i]);
      encodedFields := encodedFields + 1;
    }
    assert fs[|fs|..] == [];
  }

  /** One written field: the FNV-1a hash of its name, then its value with a tag. */
  method EncodeField(buf: Buffer, reg: TypeRegistry, f: Field)
    requires buf.Valid() && buf.pos == |buf.data|
    modifies buf
    ensures buf.Valid() && buf.pos == |buf.data|
    ensures buf.data == old(buf.data) + Entry(reg.State(), f)
    decreases f
  {
    var nameHash := Fnv1a32(f.name);
    buf.WriteUint(4, nameHash);
    EncodeInternal(buf, reg, f.value, true);
  }

  /** `Encode(value)`: the bytes of a fresh buffer after encoding the value with its tag. */
  method Encode(reg: TypeRegistry, value: Val) returns (bytes: seq<byte>)
    ensures bytes == Enc(reg.State(), value, true)
  {
    var buf := new Buffer.FromBytes([]);
    EncodeInternal(buf, reg, value, true);
    bytes := buf.Bytes();
  }
}
