/**
 * What the decoder does with a decoded value when it stores it into a
 * record field: the reflect conversions it relies on (`ConvertibleTo` and
 * `Convert`) and the three-tier rule of the record case of
 * `decodeInternal` (assign, else convert, else copy element-wise between
 * arrays and slices, else leave the field alone). A Go panic is `None`.
 */
module Coercion {
  import opened Wrappers
  import opened Bytes
  import opened Types

  /** A Unicode scalar value: a code point that is not a surrogate. */
  predicate ValidRune(x: int) {
    0 <= x <= 0x10_FFFF && !(0xD800 <= x <= 0xDFFF)
  }

  /**
   * The UTF-8 bytes of `string(rune(x))`: the encoding of x when it is a
   * scalar value, and of U+FFFD otherwise.
   */
  function RuneBytes(x: int): (r: seq<byte>)
    ensures 1 <= |r| <= 4
  {
    if !ValidRune(x) then [0xEF, 0xBF, 0xBD]
    else if x < 0x80 then [x]
    else if x < 0x800 then [0xC0 + x / 0x40, 0x80 + x % 0x40]
    else if x < 0x1_0000 then [0xE0 + x / 0x1000, 0x80 + x / 0x40 % 0x40, 0x80 + x % 0x40]
    else [0xF0 + x / 0x4_0000, 0x80 + x / 0x1000 % 0x40, 0x80 + x / 0x40 % 0x40, 0x80 + x % 0x40]
  }

  /** The code point a well-formed UTF-8 sequence of one to four bytes stands for. */
  function RuneValue(bs: seq<byte>): int
    requires 1 <= |bs| <= 4
  {
    var b: seq<int> := bs;
    if |b| == 1 then b[0]
    else if |b| == 2 then (b[0] - 0xC0) * 0x40 + (b[1] - 0x80)
    else if |b| == 3 then (b[0] - 0xE0) * 0x1000 + (b[1] - 0x80) * 0x40 + (b[2] - 0x80)
    else (b[0] - 0xF0) * 0x4_0000 + (b[1] - 0x80) * 0x1000 + (b[2] - 0x80) * 0x40 + (b[3] - 0x80)
  }

  /**
   * The encoding of a scalar value decodes back to it and uses the shortest
   * form; any other integer becomes U+FFFD.
   */
  lemma RuneRoundTrip(x: int)
    ensures ValidRune(x) ==> RuneValue(RuneBytes(x)) == x
    ensures ValidRune(x) ==> |RuneBytes(x)| == (if x < 0x80 then 1 else if x < 0x800 then 2 else if x < 0x1_0000 then 3 else 4)
    ensures !ValidRune(x) ==> RuneValue(RuneBytes(x)) == 0xFFFD
  {
    if ValidRune(x) && x >= 0x80 {
      var a, b, c, d := x / 0x4_0000, x / 0x1000 % 0x40, x / 0x40 % 0x40, x % 0x40;
      assert x == x / 0x40 * 0x40 + d;
      assert x / 0x40 == x / 0x1000 * 0x40 + c;
      assert x / 0x1000 == a * 0x40 + b;
      var bs := RuneBytes(x);
      if x < 0x800 {
        assert bs == [0xC0 + x / 0x40, 0x80 + d];
      } else if x < 0x1_0000 {
        assert bs == [0xE0 + x / 0x1000, 0x80 + c, 0x80 + d];
      } else {
        assert bs == [0xF0 + a, 0x80 + b, 0x80 + c, 0x80 + d];
      }
    }
  }

  /** The bytes of a `[]uint8`; an element is its value's low byte. */
  function ItemBytes(items: seq<Val>): (r: seq<byte>)
    ensures |r| == |items|
  {
    if items == [] then []
    else [if items[0].IntV? then items[0].x % 256 else 0] + ItemBytes(items[1..])
  }

  /** The UTF-8 bytes of a `[]int32` read as runes, one after the other. */
  function ItemRunes(items: seq<Val>): seq<byte> {
    if items == [] then []
    else RuneBytes(if items[0].IntV? then items[0].x else 0) + ItemRunes(items[1..])
  }

  /** The elements of `[]byte(s)`. */
  function ByteItems(s: seq<byte>): (r: seq<Val>)
    ensures |r| == |s| && forall i {:trigger r[i]} :: 0 <= i < |s| ==> r[i] == IntV(Uint8, s[i])
  {
    if s == [] then [] else [IntV(Uint8, s[0])] + ByteItems(s[1..])
  }

  /** `[]byte(s)` read back as bytes is s. */
  lemma {:induction false} ByteItemsRoundTrip(s: seq<byte>)
    ensures ItemBytes(ByteItems(s)) == s
  {
    if s != [] {
      ByteItemsRoundTrip(s[1..]);
      assert ByteItems(s)[1..] == ByteItems(s[1..]);
    }
  }

  /**
   * The length of the UTF-8 sequence a first byte announces, or 0 for a
   * byte that starts no sequence (a continuation byte, or 0xF8 and above).
   */
  function SequenceLength(b: byte): nat {
    if b < 0x80 then 1
    else if 0xC0 <= b < 0xE0 then 2
    else if 0xE0 <= b < 0xF0 then 3
    else if 0xF0 <= b < 0xF8 then 4
    else 0
  }

  /**
   * `utf8.DecodeRune`: the first code point of s and the number of bytes
   * it takes. A sequence that is cut short, overlong, a surrogate, beyond
   * U+10FFFF or has a bad continuation byte decodes as U+FFFD of length 1.
   */
  function DecodeRune(s: seq<byte>): (r: (int, nat))
    requires s != []
    ensures 1 <= r.1 <= |s| && ValidRune(r.0)
  {
    var n := SequenceLength(s[0]);
    if n == 0 || |s| < n then (0xFFFD, 1)
    else
      var x := RuneValue(s[..n]);
      if ValidRune(x) && RuneBytes(x) == s[..n] then (x, n) else (0xFFFD, 1)
  }

  /** The elements of `[]rune(s)`: the code points s decodes to, one after the other. */
  function StringRunes(s: seq<byte>): (r: seq<Val>)
    ensures forall i :: 0 <= i < |r| ==> r[i].IntV? && r[i] == IntV(Int32, r[i].x) && ValidRune(r[i].x)
    decreases |s|
  {
    if s == [] then []
    else
      var d := DecodeRune(s);
      [IntV(Int32, d.0)] + StringRunes(s[d.1..])
  }

  /** s is well-formed UTF-8: each sequence is the shortest encoding of a scalar value. */
  predicate ValidUtf8(s: seq<byte>)
    decreases |s|
  {
    s == [] ||
    (var n := SequenceLength(s[0]);
     1 <= n <= |s| && ValidRune(RuneValue(s[..n])) && RuneBytes(RuneValue(s[..n])) == s[..n] && ValidUtf8(s[n..]))
  }

  /** The first byte of the encoding of a scalar value announces the encoding's length. */
  lemma RuneLead(x: int)
    requires ValidRune(x)
    ensures SequenceLength(RuneBytes(x)[0]) == |RuneBytes(x)|
  {
    RuneRoundTrip(x);
    if 0x80 <= x < 0x800 {
      assert 2 <= x / 0x40 < 0x20;
    } else if 0x800 <= x < 0x1_0000 {
      assert x / 0x1000 < 0x10;
    } else if 0x1_0000 <= x {
      assert x / 0x4_0000 <= 4;
    }
  }

  /** A scalar value's encoding, followed by anything, decodes to that value first. */
  lemma DecodeRuneBytes(x: int, rest: seq<byte>)
    requires ValidRune(x)
    ensures DecodeRune(RuneBytes(x) + rest) == (x, |RuneBytes(x)|)
  {
    var e := RuneBytes(x);
    RuneLead(x);
    RuneRoundTrip(x);
    assert (e + rest)[0] == e[0];
    assert (e + rest)[..|e|] == e;
  }

  /** A well-formed string starts with a well-formed sequence, which decodes to its code point. */
  lemma ValidUtf8Head(s: seq<byte>)
    requires s != [] && ValidUtf8(s)
    ensures var n := SequenceLength(s[0]);
      1 <= n <= |s| && StringRunes(s) == [IntV(Int32, RuneValue(s[..n]))] + StringRunes(s[n..]) &&
      RuneBytes(RuneValue(s[..n])) == s[..n] && ValidUtf8(s[n..])
  {
    var n := SequenceLength(s[0]);
    assert DecodeRune(s) == (RuneValue(s[..n]), n);
  }

  /** The bytes of a `[]rune` with a first element x. */
  lemma ItemRunesCons(x: int, rest: seq<Val>)
    ensures ItemRunes([IntV(Int32, x)] + rest) == RuneBytes(x) + ItemRunes(rest)
  {
    assert ([IntV(Int32, x)] + rest)[1..] == rest;
  }

  /** Re-encoding the runes of a well-formed string gives its first sequence, then what the rest re-encodes to. */
  lemma RunesHead(s: seq<byte>, n: nat)
    requires s != [] && ValidUtf8(s) && n == SequenceLength(s[0])
    ensures 1 <= n <= |s| && ValidUtf8(s[n..])
    ensures ItemRunes(StringRunes(s)) == s[..n] + ItemRunes(StringRunes(s[n..]))
  {
    ValidUtf8Head(s);
    ItemRunesCons(RuneValue(s[..n]), StringRunes(s[n..]));
  }

  /** A sequence is its first n elements followed by the rest. */
  lemma TakeDrop(s: seq<byte>, n: nat, a: seq<byte>, b: seq<byte>)
    requires n <= |s| && a == s[..n] + b && b == s[n..]
    ensures a == s
  {
  }

  /** A well-formed string converted to `[]rune` and back is the same string. */
  lemma {:induction false} RunesOfValidString(s: seq<byte>)
    requires ValidUtf8(s)
    ensures ItemRunes(StringRunes(s)) == s
    decreases |s|
  {
    if s != [] {
      var n := SequenceLength(s[0]);
      RunesHead(s, n);
      RunesOfValidString(s[n..]);
      TakeDrop(s, n, ItemRunes(StringRunes(s)), ItemRunes(StringRunes(s[n..])));
    }
  }

  /** A `[]rune` of scalar values converted to a string and back is the same slice, and the string is well-formed. */
  lemma {:induction false} StringOfValidRunes(items: seq<Val>)
    requires forall i :: 0 <= i < |items| ==> items[i].IntV? && items[i] == IntV(Int32, items[i].x) && ValidRune(items[i].x)
    ensures ValidUtf8(ItemRunes(items))
    ensures StringRunes(ItemRunes(items)) == items
    decreases |items|
  {
    if items != [] {
      var x := items[0].x;
      var e := RuneBytes(x);
      var rest := ItemRunes(items[1..]);
      StringOfValidRunes(items[1..]);
      assert ItemRunes(items) == e + rest;
      DecodeRuneBytes(x, rest);
      RuneLead(x);
      RuneRoundTrip(x);
      assert (e + rest)[0] == e[0];
      assert (e + rest)[..|e|] == e;
      assert (e + rest)[|e|..] == rest;
      assert items == [items[0]] + items[1..];
    }
  }

  /**
   * `ConvertibleTo` between the types the model has: a type to itself,
   * integers to integers and to strings, strings to and from `[]byte`
   * and `[]rune`, a slice to an array of its element type, and
   * structs with identical field declarations to one another.
   */
  predicate Convertible(from: Ty, to: Ty) {
    from == to
    || (from.IntT? && to.IntT?)
    || (from.IntT? && to == StringT)
    || (from == StringT && to == SliceT(IntT(Uint8)))
    || (from == StringT && to == SliceT(IntT(Int32)))
    || (from == SliceT(IntT(Uint8)) && to == StringT)
    || (from == SliceT(IntT(Int32)) && to == StringT)
    || (from.SliceT? && to.ArrayT? && from.elem == to.elem)
    || (from.StructT? && to.StructT? && from.decls == to.decls)
  }

  /**
   * `reflect.Value.Convert`: the value v as a value of type to, or None
   * where Go panics, which is when a slice is shorter than the array it is
   * converted to.
   */
  function Convert(v: Val, to: Ty): (r: Option<Val>)
    requires Convertible(TypeOf(v), to)
    ensures r.Some? ==> TypeOf(r.value) == to
    ensures r.None? <==> (v.SliceV? && to.ArrayT? && |v.items| < to.len)
  {
    if TypeOf(v) == to then Some(v)
    else match v
      case IntV(_, x) =>
        if to.IntT? then Some(IntV(to.kind, Wrap(to.kind, x))) else Some(StringV(RuneBytes(x)))
      case StringV(s) =>
        if to == SliceT(IntT(Int32)) then Some(SliceV(IntT(Int32), StringRunes(s)))
        else Some(SliceV(IntT(Uint8), ByteItems(s)))
      case SliceV(e, items) =>
        if to == StringT then Some(StringV(if e == IntT(Uint8) then ItemBytes(items) else ItemRunes(items)))
        else if |items| < to.len then None
        else Some(ArrayV(e, items[..to.len]))
      case StructV(_, fs) => Some(StructV(to.name, fs))
      case _ => Some(v)
  }

  /**
   * Integer conversions keep the low bytes: the result is in range for the
   * target kind, and a value the target kind can hold is kept as it is (so
   * a widening conversion never changes the value).
   */
  lemma ConvertInt(k: IntKind, x: int, k': IntKind)
    requires InRange(k, x)
    ensures Convert(IntV(k, x), IntT(k')).Some?
    ensures InRange(k', Convert(IntV(k, x), IntT(k')).value.x)
    ensures InRange(k', x) ==> Convert(IntV(k, x), IntT(k')) == Some(IntV(k', x))
  {
    WrapProperties(k', x);
  }

  /** A string converted to `[]byte` and back is the same string. */
  lemma StringBytesRoundTrip(s: seq<byte>)
    ensures Convert(StringV(s), SliceT(IntT(Uint8))) == Some(SliceV(IntT(Uint8), ByteItems(s)))
    ensures Convert(SliceV(IntT(Uint8), ByteItems(s)), StringT) == Some(StringV(s))
  {
    ByteItemsRoundTrip(s);
  }

  /**
   * A string converted to `[]rune` holds its decoded code points, and a
   * well-formed string converted to `[]rune` and back is the same string.
   */
  lemma StringRunesRoundTrip(s: seq<byte>)
    ensures Convert(StringV(s), SliceT(IntT(Int32))) == Some(SliceV(IntT(Int32), StringRunes(s)))
    ensures ValidUtf8(s) ==> Convert(SliceV(IntT(Int32), StringRunes(s)), StringT) == Some(StringV(s))
  {
    if ValidUtf8(s) {
      RunesOfValidString(s);
    }
  }

  /** The elements of an array or slice, and nothing for other values. */
  function Items(v: Val): seq<Val> {
    if v.ArrayV? || v.SliceV? then v.items else []
  }

  /** Every element of an array or slice has the element type. */
  predicate ItemsTyped(v: Val) {
    forall i :: 0 <= i < |Items(v)| ==> TypeOf(Items(v)[i]) == v.elemTy
  }

  predicate IsList(t: Ty) {
    t.ArrayT? || t.SliceT?
  }

  /**
   * A slice after `Grow(n)` and `SetLen(n)`: its first n elements, padded
   * with zero values of the element type z.
   */
  function Resize(items: seq<Val>, n: nat, z: Val): (r: seq<Val>)
    ensures |r| == n
    ensures forall i {:trigger r[i]} :: 0 <= i < n ==> r[i] == if i < |items| then items[i] else z
  {
    if n <= |items| then items[..n] else items + Repeat(z, n - |items|)
  }

  /**
   * The element loop of the third tier: element j of src, converted to ft,
   * replaces element j of dst, for every j. Go panics when the
   * destination is not settable, when it has fewer than |src| elements, or
   * when an element conversion panics.
   */
  function CopyItems(dst: seq<Val>, src: seq<Val>, ft: Ty, settable: bool): (r: Option<seq<Val>>)
    requires forall i :: 0 <= i < |src| ==> Convertible(TypeOf(src[i]), ft)
    decreases src
  {
    if src == [] then Some(dst)
    else if !settable || dst == [] then None
    else match Convert(src[0], ft)
      case None => None
      case Some(c) =>
        match CopyItems(dst[1..], src[1..], ft, settable)
        case None => None
        case Some(rest) => Some([c] + rest)
  }

  /** The copy replaces exactly the first |src| elements, and fails exactly as Go does. */
  lemma {:induction false} CopyItemsSpec(dst: seq<Val>, src: seq<Val>, ft: Ty, settable: bool)
    requires forall i :: 0 <= i < |src| ==> Convertible(TypeOf(src[i]), ft)
    ensures var r := CopyItems(dst, src, ft, settable);
      r.None? <==> ((|src| > 0 && !settable) || |src| > |dst| ||
        exists i :: 0 <= i < |src| && Convert(src[i], ft).None?)
    ensures var r := CopyItems(dst, src, ft, settable);
      r.Some? ==> (|r.value| == |dst| &&
        (forall i :: 0 <= i < |src| ==> r.value[i] == Convert(src[i], ft).value) &&
        (forall i :: |src| <= i < |dst| ==> r.value[i] == dst[i]))
    decreases src
  {
    if src != [] && settable && dst != [] {
      CopyItemsSpec(dst[1..], src[1..], ft, settable);
      if Convert(src[0], ft).Some? {
        var r := CopyItems(dst, src, ft, settable);
        if r.Some? {
          forall i | 0 <= i < |src| ensures r.value[i] == Convert(src[i], ft).value {
            if i > 0 {
              assert r.value[i] == r.value[1..][i - 1];
            }
          }
        }
        if exists i :: 0 <= i < |src| && Convert(src[i], ft).None? {
          var i :| 0 <= i < |src| && Convert(src[i], ft).None?;
          assert i > 0 && Convert(src[1..][i - 1], ft).None?;
        }
      }
    }
  }

  /**
   * The third tier, for a decoded array or slice v and a field f of array
   * or slice type. A slice field is first resized to |v.items| (Go panics
   * here when the field is not settable); then, if the element types are
   * assignable or convertible, the elements are copied over one by one.
   */
  function CopyInto(f: Field, v: Val): (r: Option<Val>)
    requires IsList(TypeOf(v)) && IsList(f.ty) && ItemsTyped(v)
  {
    var n := |v.items|;
    var ft := f.ty.elem;
    assert Items(v) == v.items;
    if f.ty.SliceT? && !Exported(f.name) then None
    else
      var dst := if f.ty.SliceT? then Resize(Items(f.value), n, Zero(ft)) else Items(f.value);
      var copied := if Convertible(v.elemTy, ft) then CopyItems(dst, v.items, ft, Exported(f.name)) else Some(dst);
      match copied
      case None => None
      case Some(items) => Some(if f.ty.SliceT? then SliceV(ft, items) else ArrayV(ft, items))
  }

  /**
   * The new value of field f after the decoder stores v into it, or None
   * when Go panics: v itself when its type is the field's (assignable),
   * else v converted (convertible), else an element-wise copy when both
   * are arrays or slices, else the old value. Setting an unexported field
   * panics.
   */
  function Assign(f: Field, v: Val): (r: Option<Val>)
    requires ItemsTyped(v)
  {
    if TypeOf(v) == f.ty then (if Exported(f.name) then Some(v) else None)
    else if Convertible(TypeOf(v), f.ty) then
      match Convert(v, f.ty)
      case None => None
      case Some(c) => if Exported(f.name) then Some(c) else None
    else if IsList(TypeOf(v)) && IsList(f.ty) then CopyInto(f, v)
    else Some(f.value)
  }

  /** The first field named name, as `FieldByName` finds it. */
  function FieldIndex(fs: seq<Field>, name: Name): (r: Option<nat>)
    ensures r.Some? ==> r.value < |fs| && fs[r.value].name == name
    ensures r.Some? ==> forall i :: 0 <= i < r.value ==> fs[i].name != name
    ensures r.None? ==> forall i :: 0 <= i < |fs| ==> fs[i].name != name
  {
    if fs == [] then None
    else if fs[0].name == name then Some(0)
    else match FieldIndex(fs[1..], name)
      case None => None
      case Some(i) => Some(i + 1)
  }

  /**
   * Storing decoded value v into the field called name of struct s, or
   * None when Go panics (there is no such field, or `Assign` panics).
   */
  function SetField(s: Val, name: Name, v: Val): (r: Option<Val>)
    requires s.StructV? && ItemsTyped(v)
  {
    match FieldIndex(s.fields, name)
    case None => None
    case Some(j) =>
      var f := s.fields[j];
      match Assign(f, v)
      case None => None
      case Some(x) => Some(StructV(s.name, s.fields[j := Field(f.name, f.ty, x)]))
  }

  /** Every field holds a value of its declared type. */
  predicate FieldsTyped(s: Val) {
    s.StructV? ==> forall i :: 0 <= i < |s.fields| ==> TypeOf(s.fields[i].value) == s.fields[i].ty
  }

  /** Storing a value never changes the type a field holds. */
  lemma AssignKeepsType(f: Field, v: Val)
    requires ItemsTyped(v) && TypeOf(f.value) == f.ty
    ensures Assign(f, v).Some? ==> TypeOf(Assign(f, v).value) == f.ty
  {
    if TypeOf(v) != f.ty && !Convertible(TypeOf(v), f.ty) && IsList(TypeOf(v)) && IsList(f.ty) {
      var ft := f.ty.elem;
      assert Items(v) == v.items;
      if !(f.ty.SliceT? && !Exported(f.name)) && Convertible(v.elemTy, ft) {
        var dst := if f.ty.SliceT? then Resize(Items(f.value), |v.items|, Zero(ft)) else Items(f.value);
        CopyItemsSpec(dst, v.items, ft, Exported(f.name));
      }
    }
  }

  /**
   * Storing into a struct changes at most the value of the field with that
   * name, keeps every name and declared type, and so keeps the struct's
   * type; a name the struct does not have panics.
   */
  lemma SetFieldFrame(s: Val, name: Name, v: Val)
    requires s.StructV? && ItemsTyped(v)
    ensures (forall i :: 0 <= i < |s.fields| ==> s.fields[i].name != name) ==> SetField(s, name, v).None?
    ensures var r := SetField(s, name, v);
      r.Some? ==> (r.value.StructV? && r.value.name == s.name && |r.value.fields| == |s.fields| &&
        forall i :: 0 <= i < |s.fields| ==>
          r.value.fields[i].name == s.fields[i].name && r.value.fields[i].ty == s.fields[i].ty &&
          (s.fields[i].name != name ==> r.value.fields[i] == s.fields[i]))
    ensures var r := SetField(s, name, v);
      r.Some? && FieldsTyped(s) ==> (TypeOf(r.value) == TypeOf(s) && FieldsTyped(r.value))
  {
    var r := SetField(s, name, v);
    if r.Some? {
      var j := FieldIndex(s.fields, name).value;
      var f := s.fields[j];
      var fs := r.value.fields;
      if FieldsTyped(s) {
        AssignKeepsType(f, v);
        assert Decls(fs) == Decls(s.fields);
      }
    }
  }

  /** A 32-bit integer stored into a 64-bit field keeps its value. */
  lemma CoerceIntWidening(name: Name, prior: int, x: int)
    requires Exported(name) && InRange(Int32, x)
    ensures Assign(Field(name, IntT(Int64), IntV(Int64, prior)), IntV(Int32, x)) == Some(IntV(Int64, x))
  {
    Pow256Values();
    ConvertInt(Int32, x, Int64);
  }

  /**
   * A slice of 32-bit integers stored into a field of type `[]int64` is
   * converted element by element; every value is kept.
   */
  lemma CoerceSliceElementwise(name: Name, prior: seq<Val>, items: seq<Val>)
    requires Exported(name)
    requires forall i :: 0 <= i < |items| ==> items[i].IntV? && items[i].kind == Int32 && InRange(Int32, items[i].x)
    ensures var r := Assign(Field(name, SliceT(IntT(Int64)), SliceV(IntT(Int64), prior)), SliceV(IntT(Int32), items));
      r.Some? && r.value == SliceV(IntT(Int64), r.value.items) && |r.value.items| == |items| &&
      forall i :: 0 <= i < |items| ==> r.value.items[i] == IntV(Int64, items[i].x)
  {
    var f := Field(name, SliceT(IntT(Int64)), SliceV(IntT(Int64), prior));
    var v := SliceV(IntT(Int32), items);
    assert Items(v) == items;
    Pow256Values();
    forall i | 0 <= i < |items| ensures Convert(items[i], IntT(Int64)) == Some(IntV(Int64, items[i].x)) {
      ConvertInt(Int32, items[i].x, Int64);
    }
    var dst := Resize(prior, |items|, Zero(IntT(Int64)));
    CopyItemsSpec(dst, items, IntT(Int64), true);
    assert Assign(f, v) == CopyInto(f, v);
    assert Items(f.value) == prior;
    var r := CopyItems(dst, items, IntT(Int64), true);
    assert CopyInto(f, v) == Some(SliceV(IntT(Int64), r.value));
  }

  /** A string stored into a field of type `[]rune` is converted: the field receives the string's code points. */
  lemma CoerceStringToRunes(name: Name, prior: seq<Val>, s: seq<byte>)
    requires Exported(name)
    ensures Assign(Field(name, SliceT(IntT(Int32)), SliceV(IntT(Int32), prior)), StringV(s)) ==
      Some(SliceV(IntT(Int32), StringRunes(s)))
  {
    StringRunesRoundTrip(s);
  }
}
