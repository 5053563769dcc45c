/**
 * The codec's central promise: what `Encode` writes for a value the wire
 * format can carry, `Decode` reads back as the same value, given the same
 * registry and a platform of the same word size. The lemmas follow the
 * shape of the encoding: a value with its tag, an element without one, the
 * body of each kind, the element loop and the field loop.
 */
module RoundTrip {
  import opened Wrappers
  import opened Bytes
  import opened Types
  import opened Registry
  import opened Tags
  import opened Encoder
  import opened Coercion
  import opened Decoding

  /**
   * Struct type t is registered under an identifier outside the fixed
   * range 0 to 17, the identifier names t back, and the identifier's
   * hash table is the one `RegisterType` builds from t's fields.
   */
  predicate Registered(tb: Tables, t: Ty)
    requires t.StructT?
  {
    t in tb.typeToId && TagString < tb.typeToId[t] &&
    tb.typeToId[t] in tb.idToType && tb.idToType[tb.typeToId[t]] == t &&
    tb.typeToId[t] in tb.hashToName && tb.hashToName[tb.typeToId[t]] == HashNames(t.decls)
  }

  /**
   * The values the wire format carries faithfully: no maps (their contents
   * are never written); `int` and `uint` of the decoding platform's width;
   * lengths and counts that fit the 2-byte fields they are written in;
   * arrays and slices that are not empty (an empty one reads back as nil);
   * registered structs whose field names do not collide under the hash and
   * whose non-zero fields are exported (an unexported one is not written).
   */
  predicate Encodable(tb: Tables, w: Word, v: Val)
    decreases v
  {
    match v
    case BoolV(_) => true
    case IntV(k, _) => Platform(k) ==> k.w == w
    case Float32V(_) => true
    case Float64V(_) => true
    case StringV(s) => |s| < 0x1_0000
    case ArrayV(e, items) =>
      0 < |items| < 0x1_0000 && |ElemChain(e)| < 0x1_0000 &&
      forall i :: 0 <= i < |items| ==> Encodable(tb, w, items[i])
    case SliceV(e, items) =>
      0 < |items| < 0x1_0000 && |ElemChain(e)| < 0x1_0000 &&
      forall i :: 0 <= i < |items| ==> Encodable(tb, w, items[i])
    case MapV(_, _, _) => false
    case StructV(name, fs) =>
      Registered(tb, StructT(name, Decls(fs))) && CollisionFree(Decls(fs)) &&
      CountWritten(fs) < 0x1_0000 &&
      forall i :: 0 <= i < |fs| ==>
        IsZero(fs[i].value) || (Exported(fs[i].name) && Encodable(tb, w, fs[i].value))
  }

  /**
   * The queue an element is decoded with after its own tag: the tags of its
   * element chain when it is an array or slice, nothing otherwise.
   */
  function Pending(tb: Tables, v: Val): seq<TypeId> {
    if v.ArrayV? || v.SliceV? then ChainTags(tb, ElemChain(v.elemTy)) else []
  }

  /** The bytes of data from position p on start with e. */
  predicate At(data: seq<byte>, p: nat, e: seq<byte>) {
    p + |e| <= |data| && forall i {:trigger e[i]} :: 0 <= i < |e| ==> data[p + i] == e[i]
  }

  /** At, as a slice. */
  lemma AtSlice(data: seq<byte>, p: nat, e: seq<byte>)
    requires At(data, p, e)
    ensures data[p..p + |e|] == e
  {
    assert forall i :: 0 <= i < |e| ==> data[p..p + |e|][i] == e[i];
  }

  /** A buffer that holds a + b holds a, then b. */
  lemma AtSplit(data: seq<byte>, p: nat, a: seq<byte>, b: seq<byte>)
    requires At(data, p, a + b)
    ensures At(data, p, a) && At(data, p + |a|, b)
  {
    forall i | 0 <= i < |a| ensures data[p + i] == a[i] {
      assert (a + b)[i] == a[i];
    }
    forall i | 0 <= i < |b| ensures data[p + |a| + i] == b[i] {
      assert (a + b)[|a| + i] == b[i];
    }
  }

  /** Reading |e| bytes where e is gives e. */
  lemma ReadExact(data: seq<byte>, p: nat, e: seq<byte>)
    requires At(data, p, e)
    ensures ReadBytesAt(data, p, |e|) == Ok(e, p + |e|)
  {
    AtSlice(data, p, e);
  }

  /** Reading an n-byte number where one was written gives it back. */
  lemma ReadNumber(data: seq<byte>, p: nat, n: nat, x: nat)
    requires x < Pow256(n) && At(data, p, LE(n, x))
    ensures ReadUintAt(data, p, n) == Ok(x, p + n)
  {
    AtSlice(data, p, LE(n, x));
    UnsignedRoundTrip(n, x);
  }

  /** A 2-byte count, then the bytes that follow it. */
  lemma ReadCount(data: seq<byte>, p: nat, x: nat, rest: seq<byte>)
    requires x < 0x1_0000 && At(data, p, LE(2, x) + rest)
    ensures ReadUintAt(data, p, 2) == Ok(x, p + 2) && At(data, p + 2, rest)
  {
    AtSplit(data, p, LE(2, x), rest);
    Pow256Values();
    ReadNumber(data, p, 2, x);
  }

  /** Each decoded element, present. */
  function Somes(vs: seq<Val>): (r: seq<Option<Val>>)
    ensures |r| == |vs| && forall i {:trigger r[i]} :: 0 <= i < |vs| ==> r[i] == Some(vs[i])
  {
    if vs == [] then [] else [Some(vs[0])] + Somes(vs[1..])
  }

  /**
   * The fields of a struct while the decoder fills it: the first k as in
   * fs, the rest still holding the zero value of their declared type.
   */
  function Partial(fs: seq<Field>, k: nat): (r: seq<Field>)
    requires k <= |fs|
    ensures |r| == |fs|
    ensures forall i {:trigger r[i]} :: 0 <= i < |fs| ==>
      r[i] == if i < k then fs[i] else ZeroField(FieldDecl(fs[i].name, fs[i].ty))
  {
    fs[..k] + ZeroFields(Decls(fs[k..]))
  }

  /** Before the first field the struct is the zero value; after the last it is fs. */
  lemma PartialEnds(fs: seq<Field>)
    ensures Partial(fs, 0) == ZeroFields(Decls(fs))
    ensures Partial(fs, |fs|) == fs
  {
  }

  /** The bytes of every value the format carries are not empty, and its tag is not 0. */
  lemma Nonempty(tb: Tables, w: Word, v: Val, header: bool)
    requires Encodable(tb, w, v)
    ensures |Body(tb, v, header)| > 0
    ensures TypeTag(tb, TypeOf(v)) != TagUnknown
  {
    if v.StructV? {
      BodyStruct(tb, v, header);
    } else if v.ArrayV? || v.SliceV? {
      BodyList(tb, v, header);
    }
  }

  /** The first tag of an element's chain is its own, and the rest are its queue. */
  lemma ChainHead(tb: Tables, x: Val)
    requires !x.MapV?
    ensures var q := ChainTags(tb, ElemChain(TypeOf(x)));
      q != [] && q[0] == TypeTag(tb, TypeOf(x)) && q[1..] == Pending(tb, x)
  {
    var c := ElemChain(TypeOf(x));
    assert ChainTags(tb, c)[1..] == ChainTags(tb, c[1..]);
    if x.ArrayV? || x.SliceV? {
      assert c[1..] == ElemChain(x.elemTy);
    } else {
      assert c[1..] == [];
    }
  }

  /** The 2-byte tags of ts read back as their identifiers. */
  lemma {:induction false} TagsRoundTrip(tb: Tables, ts: seq<Ty>, data: seq<byte>, p: nat)
    requires At(data, p, TagBytes(tb, ts))
    ensures ReadTags(data, p, |ts|) == Ok(ChainTags(tb, ts), p + 2 * |ts|)
    decreases ts
  {
    if ts != [] {
      var tag := TypeTag(tb, ts[0]);
      assert TagBytes(tb, ts) == LE(2, tag) + TagBytes(tb, ts[1..]);
      AtSplit(data, p, LE(2, tag), TagBytes(tb, ts[1..]));
      Pow256Values();
      ReadNumber(data, p, 2, tag);
      TagsRoundTrip(tb, ts[1..], data, p + 2);
      assert ChainTags(tb, ts) == [tag] + ChainTags(tb, ts[1..]);
    }
  }

  /** The element-type list reads back as the tags of the element chain. */
  lemma TagListRoundTrip(tb: Tables, e: Ty, data: seq<byte>, p: nat)
    requires |ElemChain(e)| < 0x1_0000 && At(data, p, TypeList(tb, e))
    ensures ReadTagList(data, p) == Ok(ChainTags(tb, ElemChain(e)), p + |TypeList(tb, e)|)
  {
    var c := ElemChain(e);
    AtSplit(data, p, LE(2, |c|), TagBytes(tb, c));
    Pow256Values();
    ReadNumber(data, p, 2, |c|);
    TagsRoundTrip(tb, c, data, p + 2);
  }

  /** An integer reads back as itself: the width selector, then the bytes, for `int` and `uint`. */
  lemma IntRoundTrip(w: Word, k: IntKind, x: int, data: seq<byte>, p: nat)
    requires InRange(k, x) && (Platform(k) ==> k.w == w)
    requires At(data, p, ScalarBody(IntV(k, x)))
    ensures DecScalar(w, KindTag(k), data, p) == Ok(Some(IntV(k, x)), p + |ScalarBody(IntV(k, x))|)
  {
    KindTagInverse(k);
    WrapProperties(k, x);
    var n := Size(k);
    if Platform(k) {
      assert k == if Signed(k) then Int(w) else Uint(w);
      AtSplit(data, p, [n], LE(n, x));
      Pow256Values();
      assert LE(1, n) == [n];
      ReadNumber(data, p, 1, n);
      ReadExact(data, p + 1, LE(n, x));
      assert DecPlatform(k, data, p) == Ok(Some(IntV(k, x)), p + 1 + n);
    } else {
      assert ScalarBody(IntV(k, x)) == LE(n, x);
      ReadExact(data, p, LE(n, x));
    }
  }

  /** A bool reads back from its one byte. */
  lemma BoolRoundTrip(w: Word, b: bool, data: seq<byte>, p: nat)
    requires At(data, p, ScalarBody(BoolV(b)))
    ensures DecScalar(w, TagBool, data, p) == Ok(Some(BoolV(b)), p + 1)
  {
    ReadExact(data, p, ScalarBody(BoolV(b)));
  }

  /** A float32 reads back from its 4 bytes of IEEE 754 bits. */
  lemma Float32RoundTrip(w: Word, bits: nat, data: seq<byte>, p: nat)
    requires bits < 0x1_0000_0000 && At(data, p, ScalarBody(Float32V(bits)))
    ensures DecScalar(w, TagFloat32, data, p) == Ok(Some(Float32V(bits)), p + 4)
  {
    Pow256Values();
    ReadNumber(data, p, 4, bits);
  }

  /** A float64 reads back from its 8 bytes of IEEE 754 bits. */
  lemma Float64RoundTrip(w: Word, bits: nat, data: seq<byte>, p: nat)
    requires bits < 0x1_0000_0000_0000_0000 && At(data, p, ScalarBody(Float64V(bits)))
    ensures DecScalar(w, TagFloat64, data, p) == Ok(Some(Float64V(bits)), p + 8)
  {
    Pow256Values();
    ReadNumber(data, p, 8, bits);
  }

  /** A string reads back from its 2-byte length and its bytes. */
  lemma StringRoundTrip(w: Word, s: seq<byte>, data: seq<byte>, p: nat)
    requires |s| < 0x1_0000 && At(data, p, ScalarBody(StringV(s)))
    ensures DecScalar(w, TagString, data, p) == Ok(Some(StringV(s)), p + 2 + |s|)
  {
    AtSplit(data, p, LE(2, |s|), s);
    Pow256Values();
    ReadNumber(data, p, 2, |s|);
    ReadExact(data, p + 2, s);
  }

  /** A bool, an integer, a float or a string reads back as itself. */
  lemma ScalarRoundTrip(tb: Tables, w: Word, v: Val, data: seq<byte>, p: nat)
    requires v.BoolV? || v.IntV? || v.Float32V? || v.Float64V? || v.StringV?
    requires WellTyped(v) && Encodable(tb, w, v) && At(data, p, ScalarBody(v))
    ensures ScalarTag(TypeTag(tb, TypeOf(v)))
    ensures DecScalar(w, TypeTag(tb, TypeOf(v)), data, p) == Ok(Some(v), p + |ScalarBody(v)|)
  {
    match v
    case BoolV(b) =>
      BoolRoundTrip(w, b, data, p);
    case IntV(k, x) =>
      IntRoundTrip(w, k, x, data, p);
    case Float32V(bits) =>
      Float32RoundTrip(w, bits, data, p);
    case Float64V(bits) =>
      Float64RoundTrip(w, bits, data, p);
    case StringV(s) =>
      StringRoundTrip(w, s, data, p);
  }


  lemma SomesStep(items: seq<Val>, k: nat)
    requires k < |items|
    ensures Somes(items[k..]) == [Some(items[k])] + Somes(items[k + 1..])
  {
    assert items[k..][1..] == items[k + 1..];
  }

  /** The decoded elements, all present and of the element type, make the array or slice again. */
  lemma AssembleList(v: Val, next: nat)
    requires (v.ArrayV? || v.SliceV?) && |v.items| > 0 && WellTyped(v)
    ensures Assemble(if v.ArrayV? then TagArray else TagSlice, Somes(v.items), next) == Ok(Some(v), next)
  {
    assert Values(Somes(v.items)) == v.items;
  }

  /**
   * A field that is not written holds the zero value, which the decoder
   * starts from, and takes up no bytes.
   */
  lemma SkippedField(tb: Tables, w: Word, v: Val, data: seq<byte>, p: nat, k: nat, j: nat)
    requires StructReady(tb, w, v)
    requires k < |v.fields| && !Writes(v.fields[k]) && At(data, p, EncFields(tb, v.fields[k..]))
    requires j == k + 1
    ensures Partial(v.fields, k) == Partial(v.fields, j)
    ensures EncFields(tb, v.fields[k..]) == EncFields(tb, v.fields[j..])
    ensures CountWritten(v.fields[k..]) == CountWritten(v.fields[j..])
    ensures At(data, p, EncFields(tb, v.fields[j..]))
  {
    var f := v.fields[k];
    FieldsStep(tb, v.fields, k);
    assert [] + EncFields(tb, v.fields[k + 1..]) == EncFields(tb, v.fields[k + 1..]);
    IsZeroIffZero(f.value);
    assert f == ZeroField(FieldDecl(f.name, f.ty));
  }

  /** A written field's hash leads the decoder back to the field's name. */
  lemma HashLookup(tb: Tables, v: Val, k: nat)
    requires v.StructV? && k < |v.fields|
    requires Registered(tb, TypeOf(v)) && CollisionFree(Decls(v.fields))
    ensures LookupName(tb, TypeTag(tb, TypeOf(v)), NameHash(v.fields[k].name)) == v.fields[k].name
  {
    CollisionFreeAfter(Decls(v.fields), k);
    HashNamesLookup(Decls(v.fields), k);
  }

  /** Storing field k's value into the partly filled struct fills field k. */
  lemma StoreField(v: Val, k: nat, j: nat)
    requires v.StructV? && WellTyped(v) && k < |v.fields| && Exported(v.fields[k].name) && j == k + 1
    ensures ItemsTyped(v.fields[k].value)
    ensures SetField(StructV(v.name, Partial(v.fields, k)), v.fields[k].name, v.fields[k].value) ==
      Some(StructV(v.name, Partial(v.fields, j)))
  {
    var fs := v.fields;
    var ps := Partial(fs, k);
    var ds := Decls(fs);
    var ns := FieldNames(ds);
    assert DistinctNames(fs);
    forall i | 0 <= i < k ensures ps[i].name != fs[k].name {
      assert ds[i].name == ps[i].name && ds[k].name == fs[k].name;
      assert ns[i] == ps[i].name && ns[k] == fs[k].name;
    }
    var found := FieldIndex(ps, fs[k].name);
    assert ps[k].name == fs[k].name;
    assert found.value == k;
    assert ps[k := Field(ps[k].name, ps[k].ty, fs[k].value)] == Partial(fs, k + 1);
  }

  /** One element, then the rest: the unfolding of the element loop. */
  lemma ItemsCons(tb: Tables, w: Word, data: seq<byte>, origin: nat, p: nat, queue: seq<TypeId>, n: nat,
                  x: Option<Val>, p': nat, rest: seq<Option<Val>>, end: nat)
    requires origin < p <= |data| && queue != []
    requires Dec(tb, w, data, p, queue[1..], queue[0]) == Ok(x, p')
    requires DecItems(tb, w, data, origin, p', queue, n) == Ok(rest, end)
    ensures DecItems(tb, w, data, origin, p, queue, n + 1) == Ok([x] + rest, end)
  {
  }

  /** The count, the queue, then the elements: the unfolding of the array and slice case. */
  lemma ListSteps(tb: Tables, w: Word, data: seq<byte>, p: nat, ids: seq<TypeId>, tag: TypeId,
                  n: nat, queue: seq<TypeId>, q: nat, items: seq<Option<Val>>, end: nat)
    requires p <= |data|
    requires ReadUintAt(data, p, 2) == Ok(n, p + 2)
    requires (if ids == [] then ReadTagList(data, p + 2) else Ok(ids, p + 2)) == Ok(queue, q)
    requires DecItems(tb, w, data, p, q, queue, n) == Ok(items, end)
    ensures DecList(tb, w, data, p, ids, tag) == Assemble(tag, items, end)
  {
  }

  /** The count, then the fields into the zero value: the unfolding of the record case. */
  lemma StructSteps(tb: Tables, w: Word, data: seq<byte>, p: nat, id: TypeId, n: nat, q: nat, r: Val, end: nat)
    requires p <= |data| && id in tb.idToType && q == p + 2
    requires ReadUintAt(data, p, 2) == Ok(n, q)
    requires DecFields(tb, w, data, p, q, id, n, Zero(tb.idToType[id])) == Ok(r, end)
    ensures DecStruct(tb, w, data, p, id) == Ok(Some(r), end)
  {
  }

  /** One field, then the rest: the unfolding of the field loop. */
  lemma FieldsCons(tb: Tables, w: Word, data: seq<byte>, origin: nat, p: nat, id: TypeId, n: nat,
                   created: Val, c: Val, q: nat, r: Val, end: nat)
    requires origin < p <= |data|
    requires DecField(tb, w, data, origin, p, id, created) == Ok(c, q)
    requires DecFields(tb, w, data, origin, q, id, n, c) == Ok(r, end)
    ensures DecFields(tb, w, data, origin, p, id, n + 1, created) == Ok(r, end)
  {
  }

  /** A known hash and a present value stored into the struct: the unfolding of one field. */
  lemma FieldSteps(tb: Tables, w: Word, data: seq<byte>, origin: nat, p: nat, id: TypeId, created: Val,
                   h: nat, name: Name, x: Val, q: nat, c: Val)
    requires origin < p <= |data|
    requires ReadUintAt(data, p, 4) == Ok(h, p + 4)
    requires LookupName(tb, id, h) == name && name != []
    requires Dec(tb, w, data, p + 4, [], TagUnknown) == Ok(Some(x), q)
    requires created.StructV? && ItemsTyped(x)
    requires SetField(created, name, x) == Some(c)
    ensures DecField(tb, w, data, origin, p, id, created) == Ok(c, q)
  {
  }

  /** A value with its tag, anywhere in a buffer, reads back as itself and nothing more. */
  lemma {:induction false} HeaderRoundTrip(tb: Tables, w: Word, v: Val, data: seq<byte>, p: nat, end: nat)
    requires WellTyped(v) && Encodable(tb, w, v) && At(data, p, Enc(tb, v, true))
    requires end == p + |Enc(tb, v, true)|
    ensures Dec(tb, w, data, p, [], TagUnknown) == Ok(Some(v), end)
    decreases v, 4
  {
    var tag := TypeTag(tb, TypeOf(v));
    AtSplit(data, p, LE(2, tag), Body(tb, v, true));
    Pow256Values();
    ReadNumber(data, p, 2, tag);
    BodyRoundTrip(tb, w, v, true, data, p + 2);
  }

  /**
   * An element without a tag reads back as itself when the decoder is
   * given its tag and the rest of its element chain, as the element loop
   * gives them.
   */
  lemma {:induction false} ElemRoundTrip(tb: Tables, w: Word, x: Val, data: seq<byte>, p: nat)
    requires WellTyped(x) && Encodable(tb, w, x) && At(data, p, Enc(tb, x, false))
    ensures Dec(tb, w, data, p, Pending(tb, x), TypeTag(tb, TypeOf(x))) == Ok(Some(x), p + |Enc(tb, x, false)|)
    decreases x, 4
  {
    Nonempty(tb, w, x, false);
    assert Enc(tb, x, false) == Body(tb, x, false);
    BodyRoundTrip(tb, w, x, false, data, p);
  }

  /** The body of a value, after its tag, reads back as the value. */
  lemma {:induction false} BodyRoundTrip(tb: Tables, w: Word, v: Val, header: bool, data: seq<byte>, p: nat)
    requires WellTyped(v) && Encodable(tb, w, v) && At(data, p, Body(tb, v, header))
    ensures DecValue(tb, w, data, p, if header then [] else Pending(tb, v), TypeTag(tb, TypeOf(v))) ==
      Ok(Some(v), p + |Body(tb, v, header)|)
    decreases v, 3
  {
    var ids := if header then [] else Pending(tb, v);
    if v.ArrayV? || v.SliceV? {
      DispatchList(tb, w, v, data, p, ids);
      ListRoundTrip(tb, w, v, header, data, p);
    } else if v.StructV? {
      DispatchStruct(tb, w, v, data, p, ids);
      StructRoundTrip(tb, w, v, header, data, p);
    } else {
      ScalarBodyRoundTrip(tb, w, v, header, data, p);
    }
  }

  /** The tag of an array or slice sends the decoder to the list case. */
  lemma DispatchList(tb: Tables, w: Word, v: Val, data: seq<byte>, p: nat, ids: seq<TypeId>)
    requires (v.ArrayV? || v.SliceV?) && p <= |data|
    ensures DecValue(tb, w, data, p, ids, TypeTag(tb, TypeOf(v))) == DecList(tb, w, data, p, ids, TypeTag(tb, TypeOf(v)))
  {
  }

  /** The tag of a registered struct sends the decoder to the struct case. */
  lemma DispatchStruct(tb: Tables, w: Word, v: Val, data: seq<byte>, p: nat, ids: seq<TypeId>)
    requires v.StructV? && Registered(tb, TypeOf(v)) && p <= |data|
    ensures DecValue(tb, w, data, p, ids, TypeTag(tb, TypeOf(v))) == DecStruct(tb, w, data, p, TypeTag(tb, TypeOf(v)))
  {
  }

  /** The body of a bool, an integer, a float or a string reads back as the value. */
  lemma ScalarBodyRoundTrip(tb: Tables, w: Word, v: Val, header: bool, data: seq<byte>, p: nat)
    requires !(v.ArrayV? || v.SliceV? || v.StructV?)
    requires WellTyped(v) && Encodable(tb, w, v) && At(data, p, Body(tb, v, header))
    ensures DecValue(tb, w, data, p, if header then [] else Pending(tb, v), TypeTag(tb, TypeOf(v))) ==
      Ok(Some(v), p + |Body(tb, v, header)|)
  {
    assert Body(tb, v, header) == ScalarBody(v);
    ScalarRoundTrip(tb, w, v, data, p);
  }

  /**
   * An array or slice reads back as itself: the count, the element-type
   * list when it has a tag (an element's list comes from the queue), then
   * the elements.
   */
  lemma {:induction false} ListRoundTrip(tb: Tables, w: Word, v: Val, header: bool, data: seq<byte>, p: nat)
    requires (v.ArrayV? || v.SliceV?) && WellTyped(v) && Encodable(tb, w, v)
    requires At(data, p, Body(tb, v, header))
    ensures DecList(tb, w, data, p, if header then [] else Pending(tb, v), TypeTag(tb, TypeOf(v))) ==
      Ok(Some(v), p + |Body(tb, v, header)|)
    decreases v, 2
  {
    var ids := if header then [] else Pending(tb, v);
    var q := p + 2 + (if header then |TypeList(tb, v.elemTy)| else 0);
    var k, end := 0, p + |Body(tb, v, header)|;
    ListLayout(tb, w, v, header, data, p, ids, q, k, end);
    ItemsRoundTrip(tb, w, v, data, p, q, k, end);
    ListFinish(tb, w, v, data, p, ids, q, k, end);
  }

  /** The count and the queue read, and the elements decoded: the array or slice is assembled. */
  lemma ListFinish(tb: Tables, w: Word, v: Val, data: seq<byte>, p: nat, ids: seq<TypeId>, q: nat, k: nat, end: nat)
    requires (v.ArrayV? || v.SliceV?) && WellTyped(v) && |v.items| > 0 && p <= |data| && k == 0
    requires ReadUintAt(data, p, 2) == Ok(|v.items|, p + 2)
    requires (if ids == [] then ReadTagList(data, p + 2) else Ok(ids, p + 2)) == Ok(ChainTags(tb, ElemChain(v.elemTy)), q)
    requires DecItems(tb, w, data, p, q, ChainTags(tb, ElemChain(v.elemTy)), |v.items| - k) == Ok(Somes(v.items[k..]), end)
    ensures DecList(tb, w, data, p, ids, TypeTag(tb, TypeOf(v))) == Ok(Some(v), end)
  {
    assert v.items[k..] == v.items;
    ListSteps(tb, w, data, p, ids, TypeTag(tb, TypeOf(v)), |v.items|, ChainTags(tb, ElemChain(v.elemTy)), q, Somes(v.items), end);
    AssembleList(v, end);
  }

  /** Where the pieces of an array or slice body lie: the count and the element-type list, then the elements. */
  lemma ListLayout(tb: Tables, w: Word, v: Val, header: bool, data: seq<byte>, p: nat, ids: seq<TypeId>, q: nat,
    k: nat, end: nat)
    requires (v.ArrayV? || v.SliceV?) && Encodable(tb, w, v) && At(data, p, Body(tb, v, header))
    requires ids == (if header then [] else Pending(tb, v))
    requires q == p + 2 + (if header then |TypeList(tb, v.elemTy)| else 0)
    requires k == 0 && end == p + |Body(tb, v, header)|
    ensures ReadUintAt(data, p, 2) == Ok(|v.items|, p + 2)
    ensures (if ids == [] then ReadTagList(data, p + 2) else Ok(ids, p + 2)) == Ok(ChainTags(tb, ElemChain(v.elemTy)), q)
    ensures At(data, q, EncItems(tb, v.items[k..]))
    ensures end == q + |EncItems(tb, v.items[k..])|
  {
    ListParts(tb, v, header, data, p, q, k, end);
    ListHead(tb, w, v, header, data, p, ids, q);
  }

  /** An array or slice body is its head, then its elements from q on. */
  lemma ListParts(tb: Tables, v: Val, header: bool, data: seq<byte>, p: nat, q: nat, k: nat, end: nat)
    requires (v.ArrayV? || v.SliceV?) && At(data, p, Body(tb, v, header))
    requires q == p + 2 + (if header then |TypeList(tb, v.elemTy)| else 0)
    requires k == 0 && end == p + |Body(tb, v, header)|
    ensures At(data, p, LE(2, |v.items|) + (if header then TypeList(tb, v.elemTy) else []))
    ensures At(data, q, EncItems(tb, v.items[k..]))
    ensures end == q + |EncItems(tb, v.items[k..])|
  {
    var items := v.items;
    assert items[k..] == items;
    var head := LE(2, |items|) + (if header then TypeList(tb, v.elemTy) else []);
    BodyList(tb, v, header);
    AtSplit(data, p, head, EncItems(tb, items));
  }

  /** The count, then the element-type list when outermost, or the queue of the enclosing list. */
  lemma ListHead(tb: Tables, w: Word, v: Val, header: bool, data: seq<byte>, p: nat, ids: seq<TypeId>, q: nat)
    requires (v.ArrayV? || v.SliceV?) && Encodable(tb, w, v)
    requires At(data, p, LE(2, |v.items|) + (if header then TypeList(tb, v.elemTy) else []))
    requires ids == (if header then [] else Pending(tb, v))
    requires q == p + 2 + (if header then |TypeList(tb, v.elemTy)| else 0)
    ensures ReadUintAt(data, p, 2) == Ok(|v.items|, p + 2)
    ensures (if ids == [] then ReadTagList(data, p + 2) else Ok(ids, p + 2)) == Ok(ChainTags(tb, ElemChain(v.elemTy)), q)
  {
    ReadCount(data, p, |v.items|, if header then TypeList(tb, v.elemTy) else []);
    if header {
      TagListRoundTrip(tb, v.elemTy, data, p + 2);
    }
  }

  /** An array or slice the format carries. */
  predicate ListReady(tb: Tables, w: Word, v: Val) {
    (v.ArrayV? || v.SliceV?) && WellTyped(v) && Encodable(tb, w, v)
  }

  /** Elements k and on of an array or slice read back as themselves. */
  lemma {:induction false} ItemsRoundTrip(tb: Tables, w: Word, v: Val, data: seq<byte>, origin: nat, p: nat, k: nat, end: nat)
    requires ListReady(tb, w, v)
    requires k <= |v.items| && origin < p && At(data, p, EncItems(tb, v.items[k..]))
    requires end == p + |EncItems(tb, v.items[k..])|
    ensures DecItems(tb, w, data, origin, p, ChainTags(tb, ElemChain(v.elemTy)), |v.items| - k) ==
      Ok(Somes(v.items[k..]), end)
    decreases v, 1, |v.items| - k, 1
  {
    if k == |v.items| {
      assert v.items[k..] == [];
    } else {
      var q, j := p + |Enc(tb, v.items[k], false)|, k + 1;
      ItemsSplit(tb, v, data, p, k, q, j);
      ItemsRoundTrip(tb, w, v, data, origin, q, j, end);
      ItemsJoin(tb, w, v, data, origin, p, k, q, j, end);
    }
  }

  /** Where element k and the elements after it lie. */
  lemma ItemsSplit(tb: Tables, v: Val, data: seq<byte>, p: nat, k: nat, q: nat, j: nat)
    requires (v.ArrayV? || v.SliceV?) && k < |v.items| && At(data, p, EncItems(tb, v.items[k..]))
    requires q == p + |Enc(tb, v.items[k], false)| && j == k + 1
    ensures At(data, p, Enc(tb, v.items[k], false))
    ensures At(data, q, EncItems(tb, v.items[j..]))
    ensures |EncItems(tb, v.items[k..])| == |Enc(tb, v.items[k], false)| + |EncItems(tb, v.items[j..])|
  {
    ItemsStep(tb, v.items, k);
    AtSplit(data, p, Enc(tb, v.items[k], false), EncItems(tb, v.items[k + 1..]));
  }

  /** Element k read back, then the elements after it: elements k and on. */
  lemma {:induction false} ItemsJoin(tb: Tables, w: Word, v: Val, data: seq<byte>, origin: nat, p: nat, k: nat,
    q: nat, j: nat, end: nat)
    requires ListReady(tb, w, v)
    requires k < |v.items| && origin < p && At(data, p, Enc(tb, v.items[k], false))
    requires q == p + |Enc(tb, v.items[k], false)| && j == k + 1
    requires DecItems(tb, w, data, origin, q, ChainTags(tb, ElemChain(v.elemTy)), |v.items| - j) ==
      Ok(Somes(v.items[j..]), end)
    ensures DecItems(tb, w, data, origin, p, ChainTags(tb, ElemChain(v.elemTy)), |v.items| - k) ==
      Ok(Somes(v.items[k..]), end)
    decreases v, 1, |v.items| - k, 0
  {
    var n := |v.items| - (k + 1);
    ItemRoundTrip(tb, w, v, data, p, k);
    ItemsCons(tb, w, data, origin, p, ChainTags(tb, ElemChain(v.elemTy)), n, Some(v.items[k]),
      p + |Enc(tb, v.items[k], false)|, Somes(v.items[k + 1..]), end);
    SomesStep(v.items, k);
    assert |v.items| - k == n + 1;
  }

  /** Element k of an array or slice reads back, with the head of the queue as its tag. */
  lemma {:induction false} ItemRoundTrip(tb: Tables, w: Word, v: Val, data: seq<byte>, p: nat, k: nat)
    requires (v.ArrayV? || v.SliceV?) && WellTyped(v) && Encodable(tb, w, v)
    requires k < |v.items| && At(data, p, Enc(tb, v.items[k], false))
    ensures var queue := ChainTags(tb, ElemChain(v.elemTy));
      queue != [] &&
      Dec(tb, w, data, p, queue[1..], queue[0]) == Ok(Some(v.items[k]), p + |Enc(tb, v.items[k], false)|)
    decreases v, 0
  {
    var x := v.items[k];
    assert TypeOf(x) == v.elemTy && WellTyped(x) && Encodable(tb, w, x);
    ChainHead(tb, x);
    ElemRoundTrip(tb, w, x, data, p);
  }

  /**
   * A registered struct reads back as itself: the decoder starts from the
   * zero value of the registered type and stores into it each field the
   * encoder wrote.
   */
  lemma {:induction false} StructRoundTrip(tb: Tables, w: Word, v: Val, header: bool, data: seq<byte>, p: nat)
    requires v.StructV? && WellTyped(v) && Encodable(tb, w, v) && At(data, p, Body(tb, v, header))
    ensures DecStruct(tb, w, data, p, TypeTag(tb, TypeOf(v))) == Ok(Some(v), p + |Body(tb, v, header)|)
    decreases v, 2
  {
    var fs := v.fields;
    var id := TypeTag(tb, TypeOf(v));
    var n := CountWritten(fs);
    BodyStruct(tb, v, header);
    AtSplit(data, p, LE(2, n), EncFields(tb, fs));
    Pow256Values();
    ReadNumber(data, p, 2, n);
    assert id in tb.idToType && tb.idToType[id] == TypeOf(v);
    PartialEnds(fs);
    assert Zero(tb.idToType[id]) == StructV(v.name, Partial(fs, 0));
    assert fs[0..] == fs;
    var q, end := p + 2, p + 2 + |EncFields(tb, fs)|;
    FieldsRoundTrip(tb, w, v, data, p, q, 0, end);
    StructSteps(tb, w, data, p, id, n, q, v, end);
  }

  /** A struct the format carries. */
  predicate StructReady(tb: Tables, w: Word, v: Val) {
    v.StructV? && WellTyped(v) && Encodable(tb, w, v)
  }

  /** Fields k and on of a struct, stored into the partly filled struct, complete it. */
  lemma {:induction false} FieldsRoundTrip(tb: Tables, w: Word, v: Val, data: seq<byte>, origin: nat, p: nat, k: nat, end: nat)
    requires StructReady(tb, w, v)
    requires k <= |v.fields| && origin < p && At(data, p, EncFields(tb, v.fields[k..]))
    requires end == p + |EncFields(tb, v.fields[k..])|
    ensures DecFields(tb, w, data, origin, p, TypeTag(tb, TypeOf(v)), CountWritten(v.fields[k..]),
      StructV(v.name, Partial(v.fields, k))) == Ok(v, end)
    decreases v, 1, |v.fields| - k, 1
  {
    if k == |v.fields| {
      assert v.fields[k..] == [];
      PartialEnds(v.fields);
    } else if Writes(v.fields[k]) {
      var q, j := p + |Entry(tb, v.fields[k])|, k + 1;
      FieldsSplit(tb, w, v, data, p, k, q, j);
      FieldsRoundTrip(tb, w, v, data, origin, q, j, end);
      FieldsJoin(tb, w, v, data, origin, p, k, q, j, end);
    } else {
      var j := k + 1;
      SkippedField(tb, w, v, data, p, k, j);
      FieldsRoundTrip(tb, w, v, data, origin, p, j, end);
    }
  }

  /** Where a written field k and the fields after it lie. */
  lemma FieldsSplit(tb: Tables, w: Word, v: Val, data: seq<byte>, p: nat, k: nat, q: nat, j: nat)
    requires v.StructV? && k < |v.fields| && Writes(v.fields[k]) && At(data, p, EncFields(tb, v.fields[k..]))
    requires q == p + |Entry(tb, v.fields[k])| && j == k + 1
    ensures At(data, p, Entry(tb, v.fields[k]))
    ensures At(data, q, EncFields(tb, v.fields[j..]))
    ensures |EncFields(tb, v.fields[k..])| == |Entry(tb, v.fields[k])| + |EncFields(tb, v.fields[j..])|
  {
    FieldsStep(tb, v.fields, k);
    AtSplit(data, p, Entry(tb, v.fields[k]), EncFields(tb, v.fields[k + 1..]));
  }

  /** Written field k stored, then the fields after it: fields k and on. */
  lemma {:induction false} FieldsJoin(tb: Tables, w: Word, v: Val, data: seq<byte>, origin: nat, p: nat, k: nat,
    q: nat, j: nat, end: nat)
    requires StructReady(tb, w, v)
    requires k < |v.fields| && Writes(v.fields[k]) && origin < p && At(data, p, Entry(tb, v.fields[k]))
    requires q == p + |Entry(tb, v.fields[k])| && j == k + 1
    requires DecFields(tb, w, data, origin, q, TypeTag(tb, TypeOf(v)),
      CountWritten(v.fields[j..]), StructV(v.name, Partial(v.fields, j))) == Ok(v, end)
    ensures DecFields(tb, w, data, origin, p, TypeTag(tb, TypeOf(v)), CountWritten(v.fields[k..]),
      StructV(v.name, Partial(v.fields, k))) == Ok(v, end)
    decreases v, 1, |v.fields| - k, 0
  {
    var id, m := TypeTag(tb, TypeOf(v)), CountWritten(v.fields[j..]);
    var created, c := StructV(v.name, Partial(v.fields, k)), StructV(v.name, Partial(v.fields, j));
    CountStep(v.fields, k);
    FieldRoundTrip(tb, w, v, data, origin, p, k, q, j);
    FieldsCons(tb, w, data, origin, p, id, m, created, c, q, v, end);
  }

  /** A written field k adds one to the count of fields k and on. */
  lemma CountStep(fs: seq<Field>, k: nat)
    requires k < |fs| && Writes(fs[k])
    ensures CountWritten(fs[k..]) == CountWritten(fs[k + 1..]) + 1
  {
    assert fs[k..][1..] == fs[k + 1..];
  }

  /** One written field: its hash names it, and its value, with its tag, is stored into it. */
  lemma {:induction false} FieldRoundTrip(tb: Tables, w: Word, v: Val, data: seq<byte>, origin: nat, p: nat, k: nat,
    q: nat, j: nat)
    requires v.StructV? && WellTyped(v) && Encodable(tb, w, v)
    requires k < |v.fields| && Writes(v.fields[k]) && origin < p && At(data, p, Entry(tb, v.fields[k]))
    requires q == p + |Entry(tb, v.fields[k])| && j == k + 1
    ensures DecField(tb, w, data, origin, p, TypeTag(tb, TypeOf(v)), StructV(v.name, Partial(v.fields, k))) ==
      Ok(StructV(v.name, Partial(v.fields, j)), q)
    decreases v, 0, 1
  {
    var f := v.fields[k];
    FieldRead(tb, w, v, data, p, k, q);
    StoreField(v, k, j);
    FieldSteps(tb, w, data, origin, p, TypeTag(tb, TypeOf(v)), StructV(v.name, Partial(v.fields, k)),
      NameHash(f.name), f.name, f.value, q, StructV(v.name, Partial(v.fields, j)));
  }

  /** A written field's entry: the hash, which names the field, then the value with its tag. */
  lemma {:induction false} FieldRead(tb: Tables, w: Word, v: Val, data: seq<byte>, p: nat, k: nat, q: nat)
    requires v.StructV? && WellTyped(v) && Encodable(tb, w, v)
    requires k < |v.fields| && Writes(v.fields[k]) && At(data, p, Entry(tb, v.fields[k]))
    requires q == p + |Entry(tb, v.fields[k])|
    ensures var f := v.fields[k];
      ReadUintAt(data, p, 4) == Ok(NameHash(f.name), p + 4) &&
      LookupName(tb, TypeTag(tb, TypeOf(v)), NameHash(f.name)) == f.name && f.name != [] &&
      Dec(tb, w, data, p + 4, [], TagUnknown) == Ok(Some(f.value), q)
    decreases v, 0, 0
  {
    var f := v.fields[k];
    EntryParts(tb, f, data, p, q);
    HashLookup(tb, v, k);
    assert WellTyped(f.value) && Encodable(tb, w, f.value);
    HeaderRoundTrip(tb, w, f.value, data, p + 4, q);
  }

  /** A field's entry is the 4-byte hash of its name, then its value with a tag. */
  lemma EntryParts(tb: Tables, f: Field, data: seq<byte>, p: nat, q: nat)
    requires At(data, p, Entry(tb, f)) && q == p + |Entry(tb, f)|
    ensures ReadUintAt(data, p, 4) == Ok(NameHash(f.name), p + 4)
    ensures At(data, p + 4, Enc(tb, f.value, true)) && q == p + 4 + |Enc(tb, f.value, true)|
  {
    var h := NameHash(f.name);
    AtSplit(data, p, LE(4, h), Enc(tb, f.value, true));
    Pow256Values();
    ReadNumber(data, p, 4, h);
  }

  /**
   * `Decode(Encode(v))` is v, for every value the format carries: the
   * decoder consumes exactly the bytes the encoder wrote.
   */
  lemma RoundTrip(tb: Tables, w: Word, v: Val)
    requires WellTyped(v) && Encodable(tb, w, v)
    ensures DecodeBytes(tb, w, Enc(tb, v, true)) == Ok(Some(v), |Enc(tb, v, true)|)
  {
    var e := Enc(tb, v, true);
    HeaderRoundTrip(tb, w, v, e, 0, |e|);
  }
}
