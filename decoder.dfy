/**
 * The decoder: `Decode` and `decodeInternal`, step by step on the buffer
 * cursor, each method proved to compute what the functions of `Decoding`
 * say. A method returns `Panic` where the Go code panics; the buffer's
 * bytes are never changed, and on success the cursor is left just after
 * the value read.
 */
module Decoder {
  import opened Wrappers
  import opened Bytes
  import opened Types
  import opened Registry
  import opened Tags
  import opened Coercion
  import opened Decoding
  import opened LittleEndianBuffer

  /** `decodeInternal(buf, typeIds, typeId)`. */
  method DecodeInternal(buf: Buffer, reg: TypeRegistry, w: Word, typeIds: seq<TypeId>, typeId: TypeId)
    returns (r: Read<Option<Val>>)
    requires buf.Valid()
    modifies buf
    ensures buf.Valid() && buf.data == old(buf.data)
    ensures r == Dec(reg.State(), w, buf.data, old(buf.pos), typeIds, typeId)
    ensures r.Ok? ==> buf.pos == r.next
    decreases |buf.data| - buf.pos, 4
  {
    if buf.LeftToRead() == 0 {
      return Ok(None, buf.pos);
    }
    var tag := typeId;
    if tag == TagUnknown {
      var ok, x := buf.ReadUint(2);
      if !ok {
        return Panic;
      }
      Pow256Values();
      tag := x;
    }
    r := DecodeValue(buf, reg, w, typeIds, tag);
  }

  /** The `switch typeId` of `decodeInternal`. */
  method DecodeValue(buf: Buffer, reg: TypeRegistry, w: Word, typeIds: seq<TypeId>, tag: TypeId)
    returns (r: Read<Option<Val>>)
    requires buf.Valid()
    modifies buf
    ensures buf.Valid() && buf.data == old(buf.data)
    ensures r == DecValue(reg.State(), w, buf.data, old(buf.pos), typeIds, tag)
    ensures r.Ok? ==> buf.pos == r.next
    decreases |buf.data| - buf.pos, 3
  {
    if ScalarTag(tag) {
      r := DecodeScalar(buf, w, tag);
    } else if tag == TagArray || tag == TagSlice {
      r := DecodeList(buf, reg, w, typeIds, tag);
    } else if tag == TagMap {
      r := Ok(None, buf.pos);
    } else {
      r := DecodeStruct(buf, reg, w, tag);
    }
  }

  /** The bool, integer, float and string cases. */
  method DecodeScalar(buf: Buffer, w: Word, tag: TypeId) returns (r: Read<Option<Val>>)
    requires ScalarTag(tag) && buf.Valid()
    modifies buf
    ensures buf.Valid() && buf.data == old(buf.data)
    ensures r == DecScalar(w, tag, buf.data, old(buf.pos))
    ensures r.Ok? ==> buf.pos == r.next
  {
    ghost var p := buf.pos;
    if tag == TagBool {
      var ok, bs := buf.ReadBytes(1);
      assert ReadBytesAt(buf.data, p, 1) == if ok then Ok(bs, buf.pos) else Panic;
      r := if ok then Ok(Some(BoolV(bs[0] != 0)), buf.pos) else Panic;
    } else if tag == TagInt {
      r := DecodePlatform(buf, Int(w));
    } else if tag == TagUint {
      r := DecodePlatform(buf, Uint(w));
    } else if FixedKind(tag).Some? {
      var k := FixedKind(tag).value;
      var ok, bs := buf.ReadBytes(Size(k));
      assert ReadBytesAt(buf.data, p, Size(k)) == if ok then Ok(bs, buf.pos) else Panic;
      r := if ok then Ok(Some(IntV(k, FromBytes(k, bs))), buf.pos) else Panic;
    } else if tag == TagFloat32 {
      var ok, bits := buf.ReadUint(4);
      assert ReadUintAt(buf.data, p, 4) == if ok then Ok(bits, buf.pos) else Panic;
      r := if ok then Ok(Some(Float32V(bits)), buf.pos) else Panic;
    } else if tag == TagFloat64 {
      var ok, bits := buf.ReadUint(8);
      assert ReadUintAt(buf.data, p, 8) == if ok then Ok(bits, buf.pos) else Panic;
      r := if ok then Ok(Some(Float64V(bits)), buf.pos) else Panic;
    } else {
      var ok, len := buf.ReadUint(2);
      if !ok {
        return Panic;
      }
      assert ReadUintAt(buf.data, p, 2) == Ok(len, buf.pos);
      ghost var q := buf.pos;
      var bs;
      ok, bs := buf.ReadBytes(len);
      assert ReadBytesAt(buf.data, q, len) == if ok then Ok(bs, buf.pos) else Panic;
      r := if ok then Ok(Some(StringV(bs)), buf.pos) else Panic;
    }
  }

  /** `int` and `uint`: the width selector, then the value at that width. */
  method DecodePlatform(buf: Buffer, k: IntKind) returns (r: Read<Option<Val>>)
    requires Platform(k) && buf.Valid()
    modifies buf
    ensures buf.Valid() && buf.data == old(buf.data)
    ensures r == DecPlatform(k, buf.data, old(buf.pos))
    ensures r.Ok? ==> buf.pos == r.next
  {
    var ok, size := buf.ReadUint(1);
    if !ok {
      return Panic;
    }
    if size == 1 || size == 2 || size == 4 || size == 8 {
      var bs;
      ok, bs := buf.ReadBytes(size);
      r := if ok then Ok(Some(IntV(k, Wrap(k, FromBytes(k, bs)))), buf.pos) else Panic;
    } else {
      r := Ok(None, buf.pos);
    }
  }

  /**
   * The array and slice case: the count, the element-type list when the
   * queue is empty, the element loop, then the container built from the
   * elements.
   */
  method DecodeList(buf: Buffer, reg: TypeRegistry, w: Word, typeIds: seq<TypeId>, tag: TypeId)
    returns (r: Read<Option<Val>>)
    requires buf.Valid()
    modifies buf
    ensures buf.Valid() && buf.data == old(buf.data)
    ensures r == DecList(reg.State(), w, buf.data, old(buf.pos), typeIds, tag)
    ensures r.Ok? ==> buf.pos == r.next
    decreases |buf.data| - buf.pos, 2
  {
    ghost var tb := reg.State();
    var origin := buf.pos;
    var ok, length := buf.ReadUint(2);
    if !ok {
      return Panic;
    }
    assert ReadUintAt(buf.data, origin, 2) == Ok(length, buf.pos);
    ghost var q := buf.pos;
    var queue := typeIds;
    if |queue| == 0 {
      ok, queue := ReadTypeIds(buf);
      if !ok {
        return Panic;
      }
    }
    assert (if typeIds == [] then ReadTagList(buf.data, q) else Ok(typeIds, q)) == Ok(queue, buf.pos);
    ghost var q' := buf.pos;
    var items;
    ok, items := DecodeItems(buf, reg, w, origin, queue, length);
    if !ok {
      return Panic;
    }
    assert DecItems(tb, w, buf.data, origin, q', queue, length) == Ok(items, buf.pos);
    r := BuildList(tag, items, buf.pos);
  }

  /** The element-type list: its length, then that many 2-byte tags, appended one by one. */
  method ReadTypeIds(buf: Buffer) returns (ok: bool, typeIds: seq<TypeId>)
    requires buf.Valid()
    modifies buf
    ensures buf.Valid() && buf.data == old(buf.data)
    ensures ok <==> ReadTagList(buf.data, old(buf.pos)).Ok?
    ensures ok ==> typeIds == ReadTagList(buf.data, old(buf.pos)).value
    ensures ok ==> buf.pos == ReadTagList(buf.data, old(buf.pos)).next
  {
    var okLength, typesLength := buf.ReadUint(2);
    if !okLength {
      return false, [];
    }
    var start := buf.pos;
    typeIds := [];
    Pow256Values();
    for i := 0 to typesLength
      invariant buf.Valid() && buf.data == old(buf.data)
      invariant |typeIds| == i && buf.pos == start + 2 * i
      invariant forall j :: 0 <= j < i ==> typeIds[j] == FromLE(buf.data[start + 2 * j..start + 2 * j + 2])
    {
      var okId, typeId := buf.ReadUint(2);
      if !okId {
        return false, [];
      }
      typeIds := typeIds + [typeId];
    }
    ok := true;
  }

  /** The queue `pre` put in front of the elements read next. */
  function Then(pre: seq<Option<Val>>, r: Read<seq<Option<Val>>>): Read<seq<Option<Val>>> {
    match r
    case Panic => Panic
    case Ok(rest, q) => Ok(pre + rest, q)
  }

  /** One step of the element loop. */
  lemma ItemsStep(tb: Tables, w: Word, data: seq<byte>, origin: nat, p: nat, queue: seq<TypeId>, m: nat, pre: seq<Option<Val>>)
    requires origin < p <= |data| && m > 0 && queue != []
    ensures var d := Dec(tb, w, data, p, queue[1..], queue[0]);
      Then(pre, DecItems(tb, w, data, origin, p, queue, m)) ==
      (if d.Panic? then Panic else Then(pre + [d.value], DecItems(tb, w, data, origin, d.next, queue, m - 1)))
  {
    var d := Dec(tb, w, data, p, queue[1..], queue[0]);
    if d.Ok? {
      var rest := DecItems(tb, w, data, origin, d.next, queue, m - 1);
      if rest.Ok? {
        assert pre + ([d.value] + rest.value) == (pre + [d.value]) + rest.value;
      }
    }
  }

  /**
   * The element loop: each element decoded with the head of the queue as
   * its tag and the rest of the queue as its own queue; `ok` is false where
   * Go panics (`typeIds[0]` of an empty queue, or a panic inside).
   */
  method DecodeItems(buf: Buffer, reg: TypeRegistry, w: Word, origin: nat, queue: seq<TypeId>, length: nat)
    returns (ok: bool, items: seq<Option<Val>>)
    requires buf.Valid() && origin < buf.pos
    modifies buf
    ensures buf.Valid() && buf.data == old(buf.data)
    ensures var R := DecItems(reg.State(), w, buf.data, origin, old(buf.pos), queue, length);
      (ok <==> R.Ok?) && (ok ==> items == R.value && buf.pos == R.next)
    decreases |buf.data| - origin, 1
  {
    ghost var tb := reg.State();
    ghost var R := DecItems(tb, w, buf.data, origin, buf.pos, queue, length);
    items := [];
    if R.Ok? {
      assert [] + R.value == R.value;
    }
    for i := 0 to length
      invariant buf.Valid() && buf.data == old(buf.data) && origin < buf.pos
      invariant R == Then(items, DecItems(tb, w, buf.data, origin, buf.pos, queue, length - i))
    {
      if |queue| == 0 {
        return false, [];
      }
      ItemsStep(tb, w, buf.data, origin, buf.pos, queue, length - i, items);
      var item := DecodeInternal(buf, reg, w, queue[1..], queue[0]);
      if item.Panic? {
        return false, [];
      }
      items := items + [item.value];
    }
    assert items + [] == items;
    ok := true;
  }

  /**
   * The container built from the decoded elements: nothing when the first
   * element is missing or nil; otherwise a zero array or slice of that
   * element's type whose elements are set one by one, where a nil element
   * or one of another type panics.
   */
  method BuildList(tag: TypeId, items: seq<Option<Val>>, next: nat) returns (r: Read<Option<Val>>)
    ensures r == Assemble(tag, items, next)
  {
    if |items| == 0 || items[0].None? {
      return Ok(None, next);
    }
    var t := TypeOf(items[0].value);
    var created := Repeat(Zero(t), |items|);
    for i := 0 to |items|
      invariant |created| == |items|
      invariant forall j :: 0 <= j < i ==> items[j].Some? && TypeOf(items[j].value) == t && created[j] == items[j].value
    {
      if items[i].None? || TypeOf(items[i].value) != t {
        return Panic;
      }
      created := created[i := items[i].value];
    }
    assert created == Values(items);
    r := Ok(Some(if tag == TagArray then ArrayV(t, created) else SliceV(t, created)), next);
  }

  /**
   * The record case: nothing for an unknown identifier; otherwise the field
   * count, then the field loop, starting from the zero value of the
   * registered type.
   */
  method DecodeStruct(buf: Buffer, reg: TypeRegistry, w: Word, typeId: TypeId) returns (r: Read<Option<Val>>)
    requires buf.Valid()
    modifies buf
    ensures buf.Valid() && buf.data == old(buf.data)
    ensures r == DecStruct(reg.State(), w, buf.data, old(buf.pos), typeId)
    ensures r.Ok? ==> buf.pos == r.next
    decreases |buf.data| - buf.pos, 2
  {
    if typeId !in reg.idToType {
      return Ok(None, buf.pos);
    }
    var origin := buf.pos;
    var ok, numberOfFields := buf.ReadUint(2);
    if !ok {
      return Panic;
    }
    var typeOf := reg.idToType[typeId];
    ZeroItemsTyped(typeOf);
    var created;
    ok, created := DecodeFields(buf, reg, w, origin, typeId, numberOfFields, Zero(typeOf));
    r := if ok then Ok(Some(created), buf.pos) else Panic;
  }

  /** The field loop of the record case. */
  method DecodeFields(buf: Buffer, reg: TypeRegistry, w: Word, origin: nat, typeId: TypeId, numberOfFields: nat, zero: Val)
    returns (ok: bool, created: Val)
    requires buf.Valid() && origin < buf.pos
    modifies buf
    ensures buf.Valid() && buf.data == old(buf.data)
    ensures var R := DecFields(reg.State(), w, buf.data, origin, old(buf.pos), typeId, numberOfFields, zero);
      (ok <==> R.Ok?) && (ok ==> created == R.value && buf.pos == R.next)
    decreases |buf.data| - origin, 1
  {
    ghost var tb := reg.State();
    ghost var R := DecFields(tb, w, buf.data, origin, buf.pos, typeId, numberOfFields, zero);
    created := zero;
    for i := 0 to numberOfFields
      invariant buf.Valid() && buf.data == old(buf.data) && origin < buf.pos
      invariant R == DecFields(tb, w, buf.data, origin, buf.pos, typeId, numberOfFields - i, created)
    {
      ok, created := DecodeField(buf, reg, w, origin, typeId, created);
      if !ok {
        return false, created;
      }
    }
    ok := true;
  }

  /** One iteration of the field loop. */
  method DecodeField(buf: Buffer, reg: TypeRegistry, w: Word, origin: nat, typeId: TypeId, created: Val)
    returns (ok: bool, updated: Val)
    requires buf.Valid() && origin < buf.pos
    modifies buf
    ensures buf.Valid() && buf.data == old(buf.data)
    ensures var R := DecField(reg.State(), w, buf.data, origin, old(buf.pos), typeId, created);
      (ok <==> R.Ok?) && (ok ==> updated == R.value && buf.pos == R.next)
    decreases |buf.data| - origin, 0
  {
    ghost var tb := reg.State();
    ghost var p := buf.pos;
    updated := created;
    var okHash, nameHash := buf.ReadUint(4);
    if !okHash {
      return false, created;
    }
    assert ReadUintAt(buf.data, p, 4) == Ok(nameHash, buf.pos);
    var name: Name := [];
    if typeId in reg.hashToName && nameHash in reg.hashToName[typeId] {
      name := reg.hashToName[typeId][nameHash];
    }
    assert name == LookupName(tb, typeId, nameHash);
    if name == [] {
      return true, created;
    }
    var field := DecodeInternal(buf, reg, w, [], TagUnknown);
    if field.Panic? {
      return false, created;
    }
    if field.value.None? {
      return true, created;
    }
    if !created.StructV? {
      return false, created;
    }
    var stored := StoreField(created, name, field.value.value);
    if stored.None? {
      return false, created;
    }
    return true, stored.value;
  }

  /**
   * Storing a decoded value into the field called name: `FieldByName`,
   * then the three tiers; None where Go panics. The third tier goes through
   * `CopyIntoField` to the element loop `CopyElements`, as the source's
   * nested loop does; `SetField` is the function this step is proved
   * against.
   */
  method StoreField(created: Val, name: Name, v: Val) returns (r: Option<Val>)
    requires created.StructV? && ItemsTyped(v)
    ensures r == SetField(created, name, v)
  {
    var index := FieldIndex(created.fields, name);
    if index.None? {
      return None;
    }
    var j := index.value;
    var f := created.fields[j];
    var fieldType := TypeOf(v);
    var value: Val;
    if fieldType == f.ty {
      if !Exported(f.name) {
        return None;
      }
      value := v;
    } else if Convertible(fieldType, f.ty) {
      var converted := Convert(v, f.ty);
      if converted.None? || !Exported(f.name) {
        return None;
      }
      value := converted.value;
    } else if IsList(fieldType) && IsList(f.ty) {
      var copied := CopyIntoField(f, v);
      if copied.None? {
        return None;
      }
      value := copied.value;
    } else {
      value := f.value;
    }
    r := Some(StructV(created.name, created.fields[j := Field(f.name, f.ty, value)]));
  }

  /**
   * The third tier: a slice field is grown and resized to the length of
   * the decoded value, then, when the element types are assignable or
   * convertible, the elements are stored one by one.
   */
  method CopyIntoField(f: Field, v: Val) returns (r: Option<Val>)
    requires IsList(TypeOf(v)) && IsList(f.ty) && ItemsTyped(v)
    ensures r == CopyInto(f, v)
  {
    var n := |v.items|;
    var ft := f.ty.elem;
    var current := Items(f.value);
    if f.ty.SliceT? {
      if !Exported(f.name) {
        return None;
      }
      current := Resize(current, n, Zero(ft));
    }
    assert Items(v) == v.items;
    if Convertible(v.elemTy, ft) {
      var ok;
      ok, current := CopyElements(current, v.items, ft, Exported(f.name));
      if !ok {
        return None;
      }
    }
    r := Some(if f.ty.SliceT? then SliceV(ft, current) else ArrayV(ft, current));
  }

  /** The element loop of the third tier, storing into the destination in place. */
  method CopyElements(dst: seq<Val>, src: seq<Val>, ft: Ty, settable: bool) returns (ok: bool, out: seq<Val>)
    requires forall i :: 0 <= i < |src| ==> Convertible(TypeOf(src[i]), ft)
    ensures ok <==> CopyItems(dst, src, ft, settable).Some?
    ensures ok ==> out == CopyItems(dst, src, ft, settable).value
  {
    CopyItemsSpec(dst, src, ft, settable);
    out := dst;
    for j := 0 to |src|
      invariant |out| == |dst|
      invariant j > 0 ==> settable && j <= |dst|
      invariant forall i :: 0 <= i < j ==> Convert(src[i], ft).Some? && out[i] == Convert(src[i], ft).value
      invariant forall i :: j <= i < |dst| ==> out[i] == dst[i]
    {
      if j >= |out| || !settable {
        return false, dst;
      }
      if TypeOf(src[j]) == ft {
        out := out[j := src[j]];
      } else {
        var converted := Convert(src[j], ft);
        if converted.None? {
          return false, dst;
        }
        out := out[j := converted.value];
      }
    }
    ok := true;
  }

  /** `Decode(b)`: decodes one value, with its tag, from a fresh buffer over b. */
  method Decode(reg: TypeRegistry, w: Word, b: seq<byte>) returns (r: Read<Option<Val>>)
    ensures r == DecodeBytes(reg.State(), w, b)
  {
    var buf := new Buffer.FromBytes(b);
    r := DecodeInternal(buf, reg, w, [], TagUnknown);
  }
}
