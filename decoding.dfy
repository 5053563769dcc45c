/**
 * What `decodeInternal` computes, as functions of the bytes: `Dec` reads
 * one value from position p of data, given the queue of pending element
 * tags and the tag to use (0: read one from the stream). The outcome is a
 * Go panic (which includes reading past the end of the buffer), or the
 * value decoded (`None` for Go's nil) and the position after it.
 */
module Decoding {
  import opened Wrappers
  import opened Bytes
  import opened Types
  import opened Registry
  import opened Tags
  import opened Coercion

  datatype Read<T> = Panic | Ok(value: T, next: nat)

  /** The n bytes at position p; reading past the end panics. */
  function ReadBytesAt(data: seq<byte>, p: nat, n: nat): (r: Read<seq<byte>>)
    ensures r.Ok? <==> p + n <= |data|
    ensures r.Ok? ==> r.value == data[p..p + n] && r.next == p + n
  {
    if p + n <= |data| then Ok(data[p..p + n], p + n) else Panic
  }

  /** ReadUint8/16/32/64 at position p. */
  function ReadUintAt(data: seq<byte>, p: nat, n: nat): (r: Read<nat>)
    ensures r.Ok? <==> p + n <= |data|
    ensures r.Ok? ==> r.value == FromLE(data[p..p + n]) && r.next == p + n
  {
    match ReadBytesAt(data, p, n)
    case Panic => Panic
    case Ok(bs, q) => Ok(FromLE(bs), q)
  }

  /** A 2-byte type identifier at position p. */
  function ReadTypeIdAt(data: seq<byte>, p: nat): (r: Read<TypeId>)
    ensures r.Ok? <==> p + 2 <= |data|
    ensures r.Ok? ==> r.value == FromLE(data[p..p + 2]) && r.next == p + 2
  {
    match ReadUintAt(data, p, 2)
    case Panic => Panic
    case Ok(x, q) => Pow256Values(); Ok(x, q)
  }

  /** m type identifiers, one after the other. */
  function ReadTags(data: seq<byte>, p: nat, m: nat): (r: Read<seq<TypeId>>)
    requires p <= |data|
    ensures r.Ok? <==> p + 2 * m <= |data|
    ensures r.Ok? ==> |r.value| == m && r.next == p + 2 * m
    ensures r.Ok? ==> forall i :: 0 <= i < m ==> r.value[i] == FromLE(data[p + 2 * i..p + 2 * i + 2])
    decreases m
  {
    if m == 0 then Ok([], p)
    else match ReadTypeIdAt(data, p)
      case Panic => Panic
      case Ok(t, q) =>
        match ReadTags(data, q, m - 1)
        case Panic => Panic
        case Ok(ts, q') => Ok([t] + ts, q')
  }

  /** The element-type list of an outermost container: its length, then the tags. */
  function ReadTagList(data: seq<byte>, p: nat): (r: Read<seq<TypeId>>)
    requires p <= |data|
    ensures r.Ok? ==> p + 2 <= r.next <= |data|
  {
    match ReadUintAt(data, p, 2)
    case Panic => Panic
    case Ok(m, q) => ReadTags(data, q, m)
  }

  /** The widths the selector of `int` and `uint` may name. */
  predicate ValidSelector(size: nat) {
    size == 1 || size == 2 || size == 4 || size == 8
  }

  /**
   * `int` or `uint` (k, of the decoding platform's width): a 1-byte width
   * selector, then the value in that many bytes, converted to k. Any other
   * selector gives nil, after the selector byte has been read.
   */
  function DecPlatform(k: IntKind, data: seq<byte>, p: nat): (r: Read<Option<Val>>)
    requires Platform(k)
    ensures r.Ok? ==> p < r.next <= |data|
  {
    match ReadUintAt(data, p, 1)
    case Panic => Panic
    case Ok(size, q) =>
      if !ValidSelector(size) then Ok(None, q)
      else match ReadBytesAt(data, q, size)
        case Panic => Panic
        case Ok(bs, q') => Ok(Some(IntV(k, Wrap(k, FromBytes(k, bs)))), q')
  }

  /** The tags of bools, integers, floats and strings. */
  predicate ScalarTag(tag: TypeId) {
    TagBool <= tag <= TagFloat64 || tag == TagString
  }

  /** The bool, integer, float and string cases of `decodeInternal`. */
  function DecScalar(w: Word, tag: TypeId, data: seq<byte>, p: nat): (r: Read<Option<Val>>)
    requires ScalarTag(tag)
    ensures r.Ok? ==> p <= r.next <= |data|
  {
    if tag == TagBool then
      match ReadBytesAt(data, p, 1)
      case Panic => Panic
      case Ok(bs, q) => Ok(Some(BoolV(bs[0] != 0)), q)
    else if tag == TagInt then DecPlatform(Int(w), data, p)
    else if tag == TagUint then DecPlatform(Uint(w), data, p)
    else if FixedKind(tag).Some? then
      var k := FixedKind(tag).value;
      match ReadBytesAt(data, p, Size(k))
      case Panic => Panic
      case Ok(bs, q) => Ok(Some(IntV(k, FromBytes(k, bs))), q)
    else if tag == TagFloat32 then
      match ReadUintAt(data, p, 4)
      case Panic => Panic
      case Ok(bits, q) => Ok(Some(Float32V(bits)), q)
    else if tag == TagFloat64 then
      match ReadUintAt(data, p, 8)
      case Panic => Panic
      case Ok(bits, q) => Ok(Some(Float64V(bits)), q)
    else
      match ReadUintAt(data, p, 2)
      case Panic => Panic
      case Ok(n, q) =>
        match ReadBytesAt(data, q, n)
        case Panic => Panic
        case Ok(bs, q') => Ok(Some(StringV(bs)), q')
  }

  /** Every decoded element is a value of type t. */
  predicate AllOfType(items: seq<Option<Val>>, t: Ty) {
    forall i :: 0 <= i < |items| ==> items[i].Some? && TypeOf(items[i].value) == t
  }

  function Values(items: seq<Option<Val>>): (vs: seq<Val>)
    requires forall i :: 0 <= i < |items| ==> items[i].Some?
    ensures |vs| == |items| && forall i {:trigger vs[i]} :: 0 <= i < |items| ==> vs[i] == items[i].value
  {
    if items == [] then [] else [items[0].value] + Values(items[1..])
  }

  /**
   * The array or slice built from the decoded elements: nil when there is
   * no first element or it is nil; otherwise its type is the element type,
   * and an element that is nil or of another type makes `Set` panic.
   */
  function Assemble(tag: TypeId, items: seq<Option<Val>>, next: nat): (r: Read<Option<Val>>)
    ensures r.Ok? ==> r.next == next
    ensures r.Ok? && r.value.Some? ==> ItemsTyped(r.value.value)
  {
    if items == [] || items[0].None? then Ok(None, next)
    else
      var t := TypeOf(items[0].value);
      if !AllOfType(items, t) then Panic
      else
        var vs := Values(items);
        Ok(Some(if tag == TagArray then ArrayV(t, vs) else SliceV(t, vs)), next)
  }

  /** `typeIdHashNameMapping[id][h]`: the field name, or "" when either key is missing. */
  function LookupName(tb: Tables, id: TypeId, h: nat): Name {
    if id in tb.hashToName && h in tb.hashToName[id] then tb.hashToName[id][h] else []
  }

  /** `decodeInternal(buf, ids, id)` at position p. */
  function Dec(tb: Tables, w: Word, data: seq<byte>, p: nat, ids: seq<TypeId>, id: TypeId): (r: Read<Option<Val>>)
    requires p <= |data|
    ensures r.Ok? ==> p <= r.next <= |data|
    ensures r.Ok? && r.value.Some? ==> ItemsTyped(r.value.value)
    decreases |data| - p, 3
  {
    if p == |data| then Ok(None, p)
    else if id == TagUnknown then
      match ReadTypeIdAt(data, p)
      case Panic => Panic
      case Ok(tag, q) => DecValue(tb, w, data, q, ids, tag)
    else DecValue(tb, w, data, p, ids, id)
  }

  /** The `switch typeId` of `decodeInternal`. */
  function DecValue(tb: Tables, w: Word, data: seq<byte>, p: nat, ids: seq<TypeId>, tag: TypeId): (r: Read<Option<Val>>)
    requires p <= |data|
    ensures r.Ok? ==> p <= r.next <= |data|
    ensures r.Ok? && r.value.Some? ==> ItemsTyped(r.value.value)
    decreases |data| - p, 2
  {
    if ScalarTag(tag) then DecScalar(w, tag, data, p)
    else if tag == TagArray || tag == TagSlice then DecList(tb, w, data, p, ids, tag)
    else if tag == TagMap then Ok(None, p)
    else DecStruct(tb, w, data, p, tag)
  }

  /**
   * The array and slice case: the count, the element-type list when the
   * queue is empty, the elements (each decoded with the head of the queue
   * as its tag and the rest as its queue), then `Assemble`.
   */
  function DecList(tb: Tables, w: Word, data: seq<byte>, p: nat, ids: seq<TypeId>, tag: TypeId): (r: Read<Option<Val>>)
    requires p <= |data|
    ensures r.Ok? ==> p <= r.next <= |data|
    ensures r.Ok? && r.value.Some? ==> ItemsTyped(r.value.value)
    decreases |data| - p, 1
  {
    match ReadUintAt(data, p, 2)
    case Panic => Panic
    case Ok(n, q) =>
      match (if ids == [] then ReadTagList(data, q) else Ok(ids, q))
      case Panic => Panic
      case Ok(queue, q') =>
        match DecItems(tb, w, data, p, q', queue, n)
        case Panic => Panic
        case Ok(items, q'') => Assemble(tag, items, q'')
  }

  /**
   * n elements from position p, for a container that starts at origin. An
   * empty queue panics (Go's `typeIds[0]`) when there is an element to read.
   */
  function DecItems(tb: Tables, w: Word, data: seq<byte>, origin: nat, p: nat, queue: seq<TypeId>, n: nat): (r: Read<seq<Option<Val>>>)
    requires origin < p <= |data|
    ensures r.Ok? ==> p <= r.next <= |data| && |r.value| == n
    ensures r.Ok? ==> forall i :: 0 <= i < n && r.value[i].Some? ==> ItemsTyped(r.value[i].value)
    decreases |data| - origin, 0, n
  {
    if n == 0 then Ok([], p)
    else if queue == [] then Panic
    else
      match Dec(tb, w, data, p, queue[1..], queue[0])
      case Panic => Panic
      case Ok(item, q) =>
        match DecItems(tb, w, data, origin, q, queue, n - 1)
        case Panic => Panic
        case Ok(rest, q') => Ok([item] + rest, q')
  }

  /**
   * The record case: nil for an identifier the registry does not know;
   * otherwise the field count, then the fields, stored into the zero value
   * of the registered type.
   */
  function DecStruct(tb: Tables, w: Word, data: seq<byte>, p: nat, id: TypeId): (r: Read<Option<Val>>)
    requires p <= |data|
    ensures r.Ok? ==> p <= r.next <= |data|
    ensures r.Ok? && r.value.Some? ==> ItemsTyped(r.value.value)
    decreases |data| - p, 1
  {
    if id !in tb.idToType then Ok(None, p)
    else
      match ReadUintAt(data, p, 2)
      case Panic => Panic
      case Ok(n, q) =>
        var created := Zero(tb.idToType[id]);
        ZeroItemsTyped(tb.idToType[id]);
        match DecFields(tb, w, data, p, q, id, n, created)
        case Panic => Panic
        case Ok(v, q') => Ok(Some(v), q')
  }

  /**
   * n fields from position p into created, one after the other, for a
   * record that starts at origin.
   */
  function DecFields(tb: Tables, w: Word, data: seq<byte>, origin: nat, p: nat, id: TypeId, n: nat, created: Val): (r: Read<Val>)
    requires origin < p <= |data|
    ensures r.Ok? ==> p <= r.next <= |data|
    ensures r.Ok? && ItemsTyped(created) ==> ItemsTyped(r.value)
    decreases |data| - origin, 0, n
  {
    if n == 0 then Ok(created, p)
    else
      match DecField(tb, w, data, origin, p, id, created)
      case Panic => Panic
      case Ok(c, q) => DecFields(tb, w, data, origin, q, id, n - 1, c)
  }

  /**
   * One field: a 4-byte name hash and, when the hash names a field, a
   * value with its own tag. A hash that names no field is skipped without
   * reading the value after it; a nil value leaves the record alone;
   * otherwise `SetField` stores it, and a panic there is a panic of the
   * decoder. Storing into a value that is not a struct panics
   * (`FieldByName`).
   */
  function DecField(tb: Tables, w: Word, data: seq<byte>, origin: nat, p: nat, id: TypeId, created: Val): (r: Read<Val>)
    requires origin < p <= |data|
    ensures r.Ok? ==> p < r.next <= |data|
    ensures r.Ok? && ItemsTyped(created) ==> ItemsTyped(r.value)
    decreases |data| - origin, 0, 0
  {
    match ReadUintAt(data, p, 4)
    case Panic => Panic
    case Ok(h, q) =>
      var name := LookupName(tb, id, h);
      if name == [] then Ok(created, q)
      else
        match Dec(tb, w, data, q, [], TagUnknown)
        case Panic => Panic
        case Ok(field, q') =>
          if field.None? then Ok(created, q')
          else if !created.StructV? then Panic
          else
            match SetField(created, name, field.value)
            case None => Panic
            case Some(c) => Ok(c, q')
  }

  /** `Decode(b)`: one value, with its tag, from the start of b. */
  function DecodeBytes(tb: Tables, w: Word, b: seq<byte>): Read<Option<Val>> {
    Dec(tb, w, b, 0, [], TagUnknown)
  }

  /** The zero value of an array type holds elements of its element type. */
  lemma ZeroItemsTyped(t: Ty)
    ensures ItemsTyped(Zero(t))
  {
    if t.ArrayT? {
      ZeroShape(t.elem);
    }
  }
}
