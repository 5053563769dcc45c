/**
 * What `Decode` makes of particular streams: the cases in which it returns
 * no value, the dispatch on the width selector of `int` and `uint`, the
 * misalignment an unknown field hash causes, and the two values the test
 * suite round-trips through a registry (a nested array and a registered
 * struct).
 */
module Properties {
  import opened Wrappers
  import opened Bytes
  import opened Types
  import opened Registry
  import opened Tags
  import opened Encoder
  import opened Coercion
  import opened Decoding
  import opened RoundTrip

  /** With nothing left to read, the decoder returns nil and reads nothing, whatever it was told to expect. */
  lemma NothingLeft(tb: Tables, w: Word, data: seq<byte>, ids: seq<TypeId>, id: TypeId)
    ensures Dec(tb, w, data, |data|, ids, id) == Ok(None, |data|)
    ensures DecodeBytes(tb, w, []) == Ok(None, 0)
  {
  }

  /**
   * An array or slice without elements is written in full (tag, count 0,
   * element-type list), and all of it is read back, as nil.
   */
  lemma {:induction false} EmptyListIsNil(tb: Tables, w: Word, v: Val)
    requires (v.ArrayV? || v.SliceV?) && v.items == [] && |ElemChain(v.elemTy)| < 0x1_0000
    ensures DecodeBytes(tb, w, Enc(tb, v, true)) == Ok(None, |Enc(tb, v, true)|)
  {
    var tag := TypeTag(tb, TypeOf(v));
    EmptyListLayout(tb, v, tag);
    EmptyListRead(tb, w, tag, v.elemTy, Enc(tb, v, true));
  }

  /** The bytes of an array or slice without elements. */
  lemma EmptyListLayout(tb: Tables, v: Val, tag: TypeId)
    requires (v.ArrayV? || v.SliceV?) && v.items == [] && tag == TypeTag(tb, TypeOf(v))
    ensures tag == TagArray || tag == TagSlice
    ensures Enc(tb, v, true) == LE(2, tag) + (LE(2, 0) + TypeList(tb, v.elemTy))
  {
    assert EncItems(tb, v.items) == [];
    assert Body(tb, v, true) == LE(2, 0) + TypeList(tb, v.elemTy);
  }

  /** Reading a list tag, count 0 and an element-type list. */
  lemma EmptyListRead(tb: Tables, w: Word, tag: TypeId, elem: Ty, e: seq<byte>)
    requires tag == TagArray || tag == TagSlice
    requires |ElemChain(elem)| < 0x1_0000 && e == LE(2, tag) + (LE(2, 0) + TypeList(tb, elem))
    ensures DecodeBytes(tb, w, e) == Ok(None, |e|)
  {
    EmptyListFields(tb, tag, elem, e);
    var ts := ChainTags(tb, ElemChain(elem));
    assert DecItems(tb, w, e, 2, 4 + |TypeList(tb, elem)|, ts, 0) == Ok([], |e|);
    assert DecList(tb, w, e, 2, [], tag) == Ok(None, |e|);
    assert DecValue(tb, w, e, 2, [], tag) == DecList(tb, w, e, 2, [], tag);
    assert Dec(tb, w, e, 0, [], TagUnknown) == DecValue(tb, w, e, 2, [], tag);
  }

  /** The three fields of an empty list's encoding, read one after the other. */
  lemma EmptyListFields(tb: Tables, tag: TypeId, elem: Ty, e: seq<byte>)
    requires |ElemChain(elem)| < 0x1_0000 && e == LE(2, tag) + (LE(2, 0) + TypeList(tb, elem))
    ensures |e| == 4 + |TypeList(tb, elem)|
    ensures ReadTypeIdAt(e, 0) == Ok(tag, 2)
    ensures ReadUintAt(e, 2, 2) == Ok(0, 4)
    ensures ReadTagList(e, 4) == Ok(ChainTags(tb, ElemChain(elem)), |e|)
  {
    var list := TypeList(tb, elem);
    assert At(e, 0, e);
    ReadCount(e, 0, tag, LE(2, 0) + list);
    ReadCount(e, 2, 0, list);
    TagListRoundTrip(tb, elem, e, 4);
  }

  /**
   * A tag outside the fixed range whose identifier the registry does not
   * know decodes to nil, and nothing after the tag is read.
   */
  lemma UnknownIdIsNil(tb: Tables, w: Word, data: seq<byte>, p: nat, ids: seq<TypeId>, id: TypeId)
    requires p < |data| && TagString < id && id !in tb.idToType
    ensures Dec(tb, w, data, p, ids, id) == Ok(None, p)
  {
    assert DecValue(tb, w, data, p, ids, id) == DecStruct(tb, w, data, p, id);
  }

  /**
   * A struct that was never registered is written with tag 0, which the
   * decoder looks up as an identifier: unless something is registered
   * under 0, the result is nil, and only the tag is read.
   */
  lemma {:induction false} UnregisteredStructIsNil(tb: Tables, w: Word, v: Val)
    requires v.StructV? && TypeOf(v) !in tb.typeToId && TagUnknown !in tb.idToType
    ensures DecodeBytes(tb, w, Enc(tb, v, true)) == Ok(None, 2)
  {
    var e := Enc(tb, v, true);
    var body := Body(tb, v, true);
    assert e == LE(2, TagUnknown) + body;
    assert At(e, 0, e);
    ReadCount(e, 0, TagUnknown, body);
    assert ReadTypeIdAt(e, 0) == Ok(TagUnknown, 2);
    assert DecValue(tb, w, e, 2, [], TagUnknown) == DecStruct(tb, w, e, 2, TagUnknown);
  }

  /** A map is written as its tag alone, and that tag decodes to nil. */
  lemma {:induction false} MapIsTagOnly(tb: Tables, w: Word, v: Val)
    requires v.MapV?
    ensures Enc(tb, v, true) == LE(2, TagMap)
    ensures DecodeBytes(tb, w, Enc(tb, v, true)) == Ok(None, 2)
  {
    var e := Enc(tb, v, true);
    assert Body(tb, v, true) == [];
    assert TypeTag(tb, TypeOf(v)) == TagMap;
    assert e == LE(2, TagMap) + [];
    assert At(e, 0, e);
    ReadCount(e, 0, TagMap, []);
    assert ReadTypeIdAt(e, 0) == Ok(TagMap, 2);
    assert DecValue(tb, w, e, 2, [], TagMap) == Ok(None, 2);
    assert Dec(tb, w, e, 0, [], TagUnknown) == Ok(None, 2);
  }

  /**
   * `int` and `uint` are written with tag 2 or 7, then a selector byte
   * giving the platform's word size, then the value in that many bytes;
   * the selector is one the decoder accepts.
   */
  lemma PlatformLayout(tb: Tables, k: IntKind, x: int)
    requires Platform(k)
    ensures KindTag(k) == (if Signed(k) then TagInt else TagUint)
    ensures Size(k) == WordBytes(k.w) && ValidSelector(Size(k))
    ensures Enc(tb, IntV(k, x), true) == LE(2, KindTag(k)) + ([Size(k)] + LE(Size(k), x))
  {
  }

  /**
   * After tag 2 or 7 the decoder reads one selector byte s and dispatches
   * on it: for 1, 2, 4 or 8 it reads that many bytes as a value of that
   * width (signed for `int`) and converts it to the platform kind, panicking
   * when fewer bytes are left; for any other selector the result is nil and
   * only the selector has been read.
   */
  lemma {:induction false} SelectorDispatch(tb: Tables, w: Word, tag: TypeId, s: byte, bs: seq<byte>)
    requires tag == TagInt || tag == TagUint
    ensures var k := if tag == TagInt then Int(w) else Uint(w);
      var r := DecodeBytes(tb, w, LE(2, tag) + ([s] + bs));
      (!ValidSelector(s) ==> r == Ok(None, 3)) &&
      (ValidSelector(s) && s <= |bs| ==> r == Ok(Some(IntV(k, Wrap(k, FromBytes(k, bs[..s])))), 3 + s)) &&
      (ValidSelector(s) && |bs| < s ==> r.Panic?)
  {
    var data := LE(2, tag) + ([s] + bs);
    var k := if tag == TagInt then Int(w) else Uint(w);
    SelectorFields(data, tag, s, bs);
    assert DecPlatform(k, data, 2) == DecValue(tb, w, data, 2, [], tag);
    if ValidSelector(s) && s <= |bs| {
      assert data[3..3 + s] == bs[..s];
    }
  }

  /** The tag and the selector byte, read one after the other. */
  lemma SelectorFields(data: seq<byte>, tag: TypeId, s: byte, bs: seq<byte>)
    requires data == LE(2, tag) + ([s] + bs)
    ensures ReadTypeIdAt(data, 0) == Ok(tag, 2)
    ensures ReadUintAt(data, 2, 1) == Ok(s, 3)
    ensures |data| == 3 + |bs| && data[3..] == bs
  {
    assert At(data, 0, data);
    ReadCount(data, 0, tag, [s] + bs);
    assert LE(1, s) == [s];
    Pow256Values();
    ReadNumber(data, 2, 1, s);
  }

  /** The field names and the struct name of the misalignment example: "A", "B" and "F". */
  const NameA: Name := [0x41]
  const NameB: Name := [0x42]
  const NameF: Name := [0x46]

  /** The receiver's struct F, with the one bool field A, registered under 18. */
  function Receiver(): Tables {
    Register(EmptyTables(), StructT(NameF, [FieldDecl(NameA, BoolT)]), 18)
  }

  /**
   * A sender whose F has a second bool field B, declared first, writes
   * F{B: true, A: true} as these 18 bytes: tag 18, count 2, then for each
   * field its hash and its tagged value.
   */
  const SenderBytes: seq<byte> := [
    18, 0, 2, 0,
    0x85, 0xfb, 0x0b, 0xc7, 1, 0, 1,
    0xcc, 0xf6, 0x0b, 0xc4, 1, 0, 1]

  /**
   * The receiver skips B's hash, which it does not know, without skipping
   * B's value: it then reads B's tag and value with the first byte of A's
   * hash as a second hash, which names nothing either. Field A keeps its
   * zero value although the stream holds A = true, and decoding stops 6
   * bytes before the end.
   */
  lemma UnknownHashMisaligns(w: Word)
    ensures Receiver().hashToName[18] == map[NameHash(NameA) := NameA]
    ensures NameHash(NameB) != NameHash(NameA)
    ensures DecodeBytes(Receiver(), w, SenderBytes) ==
      Ok(Some(StructV(NameF, [Field(NameA, BoolT, BoolV(false))])), 12)
  {
    ReceiverTables();
    SkipsUnknownHashes(Receiver(), w);
  }

  /** Decoding the sender's bytes with any registry that knows F, with field A, and only A's hash. */
  lemma SkipsUnknownHashes(tb: Tables, w: Word)
    requires 18 in tb.idToType && tb.idToType[18] == StructT(NameF, [FieldDecl(NameA, BoolT)])
    requires 18 in tb.hashToName && tb.hashToName[18] == map[0xc40b_f6cc := NameA]
    ensures DecodeBytes(tb, w, SenderBytes) == Ok(Some(StructV(NameF, [Field(NameA, BoolT, BoolV(false))])), 12)
  {
    var data := SenderBytes;
    SenderReads();
    var created := StructV(NameF, [Field(NameA, BoolT, BoolV(false))]);
    assert DecField(tb, w, data, 2, 4, 18, created) == Ok(created, 8);
    assert DecField(tb, w, data, 2, 8, 18, created) == Ok(created, 12);
    assert DecFields(tb, w, data, 2, 4, 18, 2, created) == Ok(created, 12);
    assert Zero(tb.idToType[18]) == created;
  }

  /** The receiver's registry: F under 18, and A's hash as the one known hash. */
  lemma ReceiverTables()
    ensures NameHash(NameA) == 0xc40b_f6cc && NameHash(NameB) == 0xc70b_fb85
    ensures Receiver().idToType == map[18 := StructT(NameF, [FieldDecl(NameA, BoolT)])]
    ensures Receiver().hashToName == map[18 := map[0xc40b_f6cc := NameA]]
  {
    HashValues();
    OneField(FieldDecl(NameA, BoolT));
  }

  /** The hash table of a struct with one field. */
  lemma OneField(d: FieldDecl)
    ensures HashNames([d]) == map[NameHash(d.name) := d.name]
  {
    assert [d][..0] == [];
  }

  /** The numbers the receiver reads from the sender's bytes. */
  lemma SenderReads()
    ensures ReadTypeIdAt(SenderBytes, 0) == Ok(18, 2)
    ensures ReadUintAt(SenderBytes, 2, 2) == Ok(2, 4)
    ensures ReadUintAt(SenderBytes, 4, 4) == Ok(0xc70b_fb85, 8)
    ensures ReadUintAt(SenderBytes, 8, 4) == Ok(0xcc01_0001, 12)
  {
    var data := SenderBytes;
    assert data[0..2] == [18, 0];
    assert data[2..4] == [2, 0];
    assert data[4..8] == [0x85, 0xfb, 0x0b, 0xc7];
    assert data[8..12] == [1, 0, 1, 0xcc];
  }

  /** The sender's registry: its F, with fields B and A, under 18. */
  function Sender(): Tables {
    Register(EmptyTables(), StructT(NameF, [FieldDecl(NameB, BoolT), FieldDecl(NameA, BoolT)]), 18)
  }

  /** The bytes above are what the sender's encoder writes for F{B: true, A: true}. */
  lemma SenderWrites()
    ensures SenderBytes ==
      Enc(Sender(), StructV(NameF, [Field(NameB, BoolT, BoolV(true)), Field(NameA, BoolT, BoolV(true))]), true)
  {
    SenderTag();
    HashValues();
    SenderLayout();
    TwoTrueFields(Sender(), NameF, NameB, NameA, 18);
  }

  /** The sender's bytes, field by field. */
  lemma SenderLayout()
    ensures SenderBytes ==
      LE(2, 18) + LE(2, 2) + (LE(4, 0xc70b_fb85) + [1, 0, 1]) + (LE(4, 0xc40b_f6cc) + [1, 0, 1])
  {
    NumberBytes();
  }

  /** The sender's encoder tags its F with 18. */
  lemma SenderTag()
    ensures TypeTag(Sender(), TypeOf(StructV(NameF, [Field(NameB, BoolT, BoolV(true)), Field(NameA, BoolT, BoolV(true))]))) == 18
  {
    var fs := [Field(NameB, BoolT, BoolV(true)), Field(NameA, BoolT, BoolV(true))];
    assert Decls(fs) == [FieldDecl(NameB, BoolT), FieldDecl(NameA, BoolT)];
  }

  /**
   * A struct with two bool fields, both true, tagged id: the tag, the
   * count 2, then each field's hash followed by bool tag 1 and the byte 1.
   */
  lemma TwoTrueFields(tb: Tables, name: Name, n1: Name, n2: Name, id: TypeId)
    requires Exported(n1) && Exported(n2)
    requires TypeTag(tb, TypeOf(StructV(name, [Field(n1, BoolT, BoolV(true)), Field(n2, BoolT, BoolV(true))]))) == id
    ensures Enc(tb, StructV(name, [Field(n1, BoolT, BoolV(true)), Field(n2, BoolT, BoolV(true))]), true) ==
      LE(2, id) + LE(2, 2) + (LE(4, NameHash(n1)) + [1, 0, 1]) + (LE(4, NameHash(n2)) + [1, 0, 1])
  {
    var f, g := Field(n1, BoolT, BoolV(true)), Field(n2, BoolT, BoolV(true));
    TrueEntry(tb, n1);
    TrueEntry(tb, n2);
    TwoFields(tb, f, g);
  }

  /** A field holding true: its hash, then bool tag 1 and the byte 1. */
  lemma TrueEntry(tb: Tables, name: Name)
    ensures Entry(tb, Field(name, BoolT, BoolV(true))) == LE(4, NameHash(name)) + [1, 0, 1]
  {
    assert Enc(tb, BoolV(true), true) == LE(2, TagBool) + [1];
  }

  /** Two exported fields that are not zero are both written, in order. */
  lemma TwoFields(tb: Tables, f: Field, g: Field)
    requires Writes(f) && Writes(g)
    ensures CountWritten([f, g]) == 2
    ensures EncFields(tb, [f, g]) == Entry(tb, f) + Entry(tb, g)
  {
    assert [f, g][1..] == [g] && [g][1..] == [];
    assert EncFields(tb, [g]) == Entry(tb, g) + [];
  }

  /** The identifier, the count and the two hashes, written in little-endian bytes. */
  lemma NumberBytes()
    ensures LE(2, 18) == [18, 0] && LE(2, 2) == [2, 0]
    ensures LE(4, 0xc70b_fb85) == [0x85, 0xfb, 0x0b, 0xc7]
    ensures LE(4, 0xc40b_f6cc) == [0xcc, 0xf6, 0x0b, 0xc4]
  {
    assert LE(1, 0xc7) == [0xc7];
    assert LE(2, 0xc70b) == [0x0b, 0xc7];
    assert LE(3, 0xc7_0bfb) == [0xfb, 0x0b, 0xc7];
    assert LE(1, 0xc4) == [0xc4];
    assert LE(2, 0xc40b) == [0x0b, 0xc4];
    assert LE(3, 0xc4_0bf6) == [0xf6, 0x0b, 0xc4];
  }

  /** The FNV-1a hashes of "A" and "B". */
  lemma HashValues()
    ensures NameHash(NameA) == 0xc40b_f6cc && NameHash(NameB) == 0xc70b_fb85
  {
    assert Fnv.Absorb(Fnv.OffsetBasis, NameA) == 0xc40b_f6cc;
    assert Fnv.Absorb(Fnv.OffsetBasis, NameB) == 0xc70b_fb85;
  }

  /** "Foo" and "Bar". */
  const NameFoo: Name := [0x46, 0x6f, 0x6f]
  const NameBar: Name := [0x42, 0x61, 0x72]

  /** The test suite's `type Foo struct { Bar int }`. */
  function FooType(w: Word): Ty {
    StructT(NameFoo, [FieldDecl(NameBar, IntT(Int(w)))])
  }

  /**
   * After `init` and `RegisterType(Foo{}, 50)`, `Foo{}` is written as tag
   * 50 and a field count of 0 (its one field is zero, so it is not
   * written), and those 4 bytes decode to `Foo{}`.
   */
  lemma FooRoundTrip(w: Word)
    ensures var tb := Register(InitTables(w), FooType(w), 50);
      Enc(tb, Zero(FooType(w)), true) == [50, 0, 0, 0] &&
      DecodeBytes(tb, w, [50, 0, 0, 0]) == Ok(Some(Zero(FooType(w))), 4)
  {
    var tb := Register(InitTables(w), FooType(w), 50);
    RegisterConsistent(InitTables(w), FooType(w), 50);
    FooRoundTripIn(tb, w);
  }

  /** The same, in any registry where Foo is registered under 50. */
  lemma FooRoundTripIn(tb: Tables, w: Word)
    requires Registered(tb, FooType(w)) && tb.typeToId[FooType(w)] == 50
    ensures Enc(tb, Zero(FooType(w)), true) == [50, 0, 0, 0]
    ensures DecodeBytes(tb, w, [50, 0, 0, 0]) == Ok(Some(Zero(FooType(w))), 4)
  {
    var v := Zero(FooType(w));
    FooFields(w);
    FooEncoding(tb, w);
    assert WellTyped(v);
    assert Encodable(tb, w, v);
    RoundTrip.RoundTrip(tb, w, v);
  }

  /** The one field of `Foo{}`, which is zero and so not written. */
  lemma FooFields(w: Word)
    ensures Zero(FooType(w)) == StructV(NameFoo, [Field(NameBar, IntT(Int(w)), IntV(Int(w), 0))])
    ensures var fs := Zero(FooType(w)).fields;
      Decls(fs) == FooType(w).decls && DistinctNames(fs) && CountWritten(fs) == 0 && CollisionFree(Decls(fs))
  {
    var fs := Zero(FooType(w)).fields;
    assert fs == [Field(NameBar, IntT(Int(w)), IntV(Int(w), 0))];
    assert Decls(fs) == FooType(w).decls;
    assert FieldNames(Decls(fs)) == [NameBar];
  }

  /** `Foo{}` is its tag and the count 0. */
  lemma FooEncoding(tb: Tables, w: Word)
    requires FooType(w) in tb.typeToId && tb.typeToId[FooType(w)] == 50
    ensures Enc(tb, Zero(FooType(w)), true) == [50, 0, 0, 0]
  {
    FooFields(w);
    var fs := Zero(FooType(w)).fields;
    assert EncFields(tb, fs) == [];
    TwoBytes(50);
    TwoBytes(0);
  }

  /** A number below 256 in two little-endian bytes. */
  lemma TwoBytes(x: nat)
    requires x < 256
    ensures LE(2, x) == [x, 0]
  {
  }

  /** The rows of the test suite's `[5][5]int32` value: 1, 2, 3, 4, 5. */
  function Row(): Val {
    ArrayV(IntT(Int32), [IntV(Int32, 1), IntV(Int32, 2), IntV(Int32, 3), IntV(Int32, 4), IntV(Int32, 5)])
  }

  /** The test suite's `[5][5]int32` value: five equal rows. */
  function Grid(): Val {
    ArrayV(ArrayT(5, IntT(Int32)), [Row(), Row(), Row(), Row(), Row()])
  }

  /**
   * `[5][5]int32` is written as tag 14, count 5 and a type list of two
   * levels (array, then int32), and each row as its count and its five
   * 4-byte elements, with no tag and no type list of its own; the decoder
   * reads all 120 bytes back as the same value.
   */
  lemma NestedArrayRoundTrip(tb: Tables, w: Word)
    ensures TypeList(tb, ArrayT(5, IntT(Int32))) == [2, 0, 14, 0, 5, 0]
    ensures Enc(tb, Row(), false) ==
      [5, 0] + ([1, 0, 0, 0] + ([2, 0, 0, 0] + ([3, 0, 0, 0] + ([4, 0, 0, 0] + [5, 0, 0, 0]))))
    ensures Enc(tb, Grid(), true) ==
      [14, 0] + ([5, 0] + [2, 0, 14, 0, 5, 0] + EncItems(tb, [Row(), Row(), Row(), Row(), Row()]))
    ensures |Enc(tb, Grid(), true)| == 120
    ensures DecodeBytes(tb, w, Enc(tb, Grid(), true)) == Ok(Some(Grid()), 120)
  {
    GridTypeList(tb);
    RowEncoding(tb);
    GridEncoding(tb);
    GridLength(tb);
    GridCarried(tb, w);
    RoundTrip.RoundTrip(tb, w, Grid());
  }

  /** The element-type list of `[5][5]int32`: two entries, 14 and 5. */
  lemma GridTypeList(tb: Tables)
    ensures TypeList(tb, ArrayT(5, IntT(Int32))) == [2, 0, 14, 0, 5, 0]
  {
    assert ElemChain(IntT(Int32)) == [IntT(Int32)];
    assert ElemChain(ArrayT(5, IntT(Int32))) == [ArrayT(5, IntT(Int32)), IntT(Int32)];
    TwoBytes(2);
    TwoBytes(14);
    TwoBytes(5);
    assert TagBytes(tb, [IntT(Int32)]) == LE(2, 5) + [];
  }

  /** A row: its count, then each element in 4 bytes. */
  lemma RowEncoding(tb: Tables)
    ensures Enc(tb, Row(), false) ==
      [5, 0] + ([1, 0, 0, 0] + ([2, 0, 0, 0] + ([3, 0, 0, 0] + ([4, 0, 0, 0] + [5, 0, 0, 0]))))
  {
    var x1, x2, x3, x4, x5 := IntV(Int32, 1), IntV(Int32, 2), IntV(Int32, 3), IntV(Int32, 4), IntV(Int32, 5);
    var xs := [x1] + ([x2] + ([x3] + ([x4] + ([x5] + []))));
    assert Row() == ArrayV(IntT(Int32), xs);
    InnerArray(tb, Row(), IntT(Int32), xs);
    assert EncItems(tb, []) == [];
    SmallElement(tb, 5, []);
    SmallElement(tb, 4, [x5]);
    SmallElement(tb, 3, [x4, x5]);
    SmallElement(tb, 2, [x3, x4, x5]);
    SmallElement(tb, 1, [x2, x3, x4, x5]);
    assert [5, 0, 0, 0] + [] == [5, 0, 0, 0];
    TwoBytes(5);
  }

  /** An array written as an element: its length and its elements, with no tag and no type list. */
  lemma InnerArray(tb: Tables, v: Val, e: Ty, items: seq<Val>)
    requires v == ArrayV(e, items)
    ensures Enc(tb, v, false) == LE(2, |items|) + EncItems(tb, items)
  {
    BodyList(tb, v, false);
  }

  /** An int32 element below 256 is written as 4 bytes, without a tag. */
  lemma SmallElement(tb: Tables, x: nat, rest: seq<Val>)
    requires x < 256
    ensures EncItems(tb, [IntV(Int32, x)] + rest) == [x, 0, 0, 0] + EncItems(tb, rest)
  {
    var v := IntV(Int32, x);
    assert ([v] + rest)[1..] == rest;
    assert LE(4, x) == [x] + LE(3, 0);
    assert LE(3, 0) == [0, 0, 0];
    assert Enc(tb, v, false) == LE(4, x);
  }

  /** The outermost array: tag, count, type list, then the rows. */
  lemma GridEncoding(tb: Tables)
    ensures Enc(tb, Grid(), true) ==
      [14, 0] + ([5, 0] + [2, 0, 14, 0, 5, 0] + EncItems(tb, [Row(), Row(), Row(), Row(), Row()]))
  {
    var g, rows := Grid(), [Row(), Row(), Row(), Row(), Row()];
    var list := TypeList(tb, ArrayT(5, IntT(Int32)));
    GridTypeList(tb);
    TwoBytes(14);
    TwoBytes(5);
    OutermostArray(tb, g, ArrayT(5, IntT(Int32)), rows);
  }

  /** An array written with its tag: tag 14, its length, its type list, its elements. */
  lemma OutermostArray(tb: Tables, v: Val, e: Ty, items: seq<Val>)
    requires v == ArrayV(e, items)
    ensures Enc(tb, v, true) == LE(2, TagArray) + (LE(2, |items|) + TypeList(tb, e) + EncItems(tb, items))
  {
    BodyList(tb, v, true);
    assert TypeTag(tb, TypeOf(v)) == TagArray;
  }

  /** 10 bytes of header, then five rows of 22 bytes. */
  lemma GridLength(tb: Tables)
    ensures |Enc(tb, Grid(), true)| == 120
  {
    GridEncoding(tb);
    RowEncoding(tb);
    var r := Row();
    assert |Enc(tb, r, false)| == 22;
    assert |EncItems(tb, [r])| == 22 by { assert [r][1..] == []; }
    assert |EncItems(tb, [r, r])| == 44 by { assert [r, r][1..] == [r]; }
    assert |EncItems(tb, [r, r, r])| == 66 by { assert [r, r, r][1..] == [r, r]; }
    assert |EncItems(tb, [r, r, r, r])| == 88 by { assert [r, r, r, r][1..] == [r, r, r]; }
    assert |EncItems(tb, [r, r, r, r, r])| == 110 by { assert [r, r, r, r, r][1..] == [r, r, r, r]; }
  }

  /** `[5][5]int32` is well typed and a value the format carries. */
  lemma GridCarried(tb: Tables, w: Word)
    ensures WellTyped(Grid()) && Encodable(tb, w, Grid())
  {
    RowCarried(tb, w);
    assert |ElemChain(ArrayT(5, IntT(Int32)))| == 2;
    FiveCopies(tb, w, Row(), ArrayT(5, IntT(Int32)));
  }

  /** A row is an int32 array of length 5 that the format carries. */
  lemma RowCarried(tb: Tables, w: Word)
    ensures TypeOf(Row()) == ArrayT(5, IntT(Int32)) && WellTyped(Row()) && Encodable(tb, w, Row())
  {
  }

  /** An array of five copies of a value the format carries. */
  lemma FiveCopies(tb: Tables, w: Word, r: Val, e: Ty)
    requires TypeOf(r) == e && WellTyped(r) && Encodable(tb, w, r) && |ElemChain(e)| < 0x1_0000
    ensures WellTyped(ArrayV(e, [r, r, r, r, r])) && Encodable(tb, w, ArrayV(e, [r, r, r, r, r]))
  {
  }
}
