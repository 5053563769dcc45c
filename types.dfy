/**
 * The values the codec handles, in place of Go's reflection: a type
 * descriptor `Ty` for each reflect.Type the codec distinguishes and a value
 * `Val` carrying its own dynamic type, as a Go `any` does.
 */
module Types {
  import opened Bytes

  /** A type identifier; it is a uint16 on the wire. */
  type TypeId = x: int | 0 <= x < 0x1_0000

  /** The fixed type identifiers; registered structs use other values, from 18 on. */
  const TagUnknown: TypeId := 0
  const TagBool: TypeId := 1
  const TagInt: TypeId := 2
  const TagInt8: TypeId := 3
  const TagInt16: TypeId := 4
  const TagInt32: TypeId := 5
  const TagInt64: TypeId := 6
  const TagUint: TypeId := 7
  const TagUint8: TypeId := 8
  const TagUint16: TypeId := 9
  const TagUint32: TypeId := 10
  const TagUint64: TypeId := 11
  const TagFloat32: TypeId := 12
  const TagFloat64: TypeId := 13
  const TagArray: TypeId := 14
  const TagMap: TypeId := 15
  const TagSlice: TypeId := 16
  const TagString: TypeId := 17

  /** A struct field name: the bytes of the Go identifier, as the hash reads them. */
  type Name = seq<bv8>

  /** The width of Go's platform-dependent `int` and `uint`. */
  datatype Word = Word32 | Word64

  function WordBytes(w: Word): nat {
    if w == Word32 then 4 else 8
  }

  /** The integer kinds of reflect.Kind. */
  datatype IntKind =
    | Int(w: Word) | Int8 | Int16 | Int32 | Int64
    | Uint(w: Word) | Uint8 | Uint16 | Uint32 | Uint64

  /** reflect.Type.Size of an integer kind, in bytes. */
  function Size(k: IntKind): nat {
    match k
    case Int(w) => WordBytes(w)
    case Uint(w) => WordBytes(w)
    case Int8 => 1
    case Uint8 => 1
    case Int16 => 2
    case Uint16 => 2
    case Int32 => 4
    case Uint32 => 4
    case Int64 => 8
    case Uint64 => 8
  }

  predicate Signed(k: IntKind) {
    k.Int? || k.Int8? || k.Int16? || k.Int32? || k.Int64?
  }

  /** `int` and `uint`, whose width depends on the platform. */
  predicate Platform(k: IntKind) {
    k.Int? || k.Uint?
  }

  /** The values a variable of kind k can hold. */
  predicate InRange(k: IntKind, x: int) {
    if Signed(k) then -(Pow256(Size(k)) / 2) <= x < Pow256(Size(k)) / 2
    else 0 <= x < Pow256(Size(k))
  }

  /** Little-endian bytes read as a value of kind k (ReadInt16, ReadUint32, ...). */
  function FromBytes(k: IntKind, bs: seq<byte>): int {
    if Signed(k) then ToSigned(FromLE(bs), |bs|) else FromLE(bs)
  }

  /**
   * Go's conversion of an integer to kind k, as in `int(x)` or `uint8(x)`:
   * keep the low Size(k) bytes of the two's complement and reinterpret them.
   */
  function Wrap(k: IntKind, x: int): int {
    FromBytes(k, LE(Size(k), x))
  }

  /** A conversion always lands in range, and leaves a value already in range alone. */
  lemma WrapProperties(k: IntKind, x: int)
    ensures InRange(k, Wrap(k, x))
    ensures InRange(k, x) ==> Wrap(k, x) == x
  {
    var n := Size(k);
    assert n > 0;
    if Signed(k) {
      ToSignedRange(FromLE(LE(n, x)), n);
      if InRange(k, x) {
        SignedRoundTrip(n, x);
      }
    } else if InRange(k, x) {
      UnsignedRoundTrip(n, x);
    }
  }

  /** The reflect.Type of the values the codec handles. */
  datatype Ty =
    | BoolT
    | IntT(kind: IntKind)
    | Float32T
    | Float64T
    | StringT
    | ArrayT(len: nat, elem: Ty)
    | SliceT(elem: Ty)
    | MapT(key: Ty, elem: Ty)
    | StructT(name: Name, decls: seq<FieldDecl>)

  /** A declared struct field: its name and its declared type. */
  datatype FieldDecl = FieldDecl(name: Name, ty: Ty)

  /**
   * A value together with its dynamic type. Floats are opaque IEEE 754 bit
   * patterns. A map carries only its size: the encoder never writes its
   * contents. A nil slice and an empty slice are the same value here.
   */
  datatype Val =
    | BoolV(b: bool)
    | IntV(kind: IntKind, x: int)
    | Float32V(bits: nat)
    | Float64V(bits: nat)
    | StringV(s: seq<byte>)
    | ArrayV(elemTy: Ty, items: seq<Val>)
    | SliceV(elemTy: Ty, items: seq<Val>)
    | MapV(keyTy: Ty, valTy: Ty, size: nat)
    | StructV(name: Name, fields: seq<Field>)

  /** A struct field holding a value, with its declared type. */
  datatype Field = Field(name: Name, ty: Ty, value: Val)

  /** The declarations of a struct's fields. */
  function Decls(fs: seq<Field>): (ds: seq<FieldDecl>)
    ensures |ds| == |fs|
    ensures forall i {:trigger ds[i]} :: 0 <= i < |fs| ==> ds[i] == FieldDecl(fs[i].name, fs[i].ty)
  {
    if fs == [] then [] else [FieldDecl(fs[0].name, fs[0].ty)] + Decls(fs[1..])
  }

  /** reflect.TypeOf. */
  function TypeOf(v: Val): Ty {
    match v
    case BoolV(_) => BoolT
    case IntV(k, _) => IntT(k)
    case Float32V(_) => Float32T
    case Float64V(_) => Float64T
    case StringV(_) => StringT
    case ArrayV(e, items) => ArrayT(|items|, e)
    case SliceV(e, _) => SliceT(e)
    case MapV(k, e, _) => MapT(k, e)
    case StructV(name, fs) => StructT(name, Decls(fs))
  }

  /** Arrays, slices and maps: the kinds whose element type the encoder follows. */
  predicate IsContainer(t: Ty) {
    t.ArrayT? || t.SliceT? || t.MapT?
  }

  /** Go's exportedness rule, for ASCII identifiers: an upper-case first letter. */
  predicate Exported(name: Name) {
    |name| > 0 && 0x41 <= name[0] <= 0x5a
  }

  /** The field names of ds, in order. */
  function FieldNames(ds: seq<FieldDecl>): (ns: seq<Name>)
    ensures |ns| == |ds| && forall i {:trigger ns[i]} :: 0 <= i < |ds| ==> ns[i] == ds[i].name
  {
    if ds == [] then [] else [ds[0].name] + FieldNames(ds[1..])
  }

  /** No two fields of fs have the same name. */
  predicate DistinctNames(fs: seq<Field>) {
    var ns := FieldNames(Decls(fs));
    forall i, j :: 0 <= i < j < |ns| ==> ns[i] != ns[j]
  }

  /**
   * A value Go could hold: integers within their kind, float payloads of
   * their width, container elements of the element type, struct fields of
   * their declared type and struct field names distinct.
   */
  predicate WellTyped(v: Val) {
    match v
    case BoolV(_) => true
    case IntV(k, x) => InRange(k, x)
    case Float32V(bits) => bits < 0x1_0000_0000
    case Float64V(bits) => bits < 0x1_0000_0000_0000_0000
    case StringV(_) => true
    case ArrayV(e, items) =>
      forall i :: 0 <= i < |items| ==> TypeOf(items[i]) == e && WellTyped(items[i])
    case SliceV(e, items) =>
      forall i :: 0 <= i < |items| ==> TypeOf(items[i]) == e && WellTyped(items[i])
    case MapV(_, _, _) => true
    case StructV(_, fs) =>
      DistinctNames(fs) &&
      forall i :: 0 <= i < |fs| ==> TypeOf(fs[i].value) == fs[i].ty && WellTyped(fs[i].value)
  }

  /** The zero value of a type, what `reflect.New(t).Elem()` holds. */
  function Zero(t: Ty): Val {
    match t
    case BoolT => BoolV(false)
    case IntT(k) => IntV(k, 0)
    case Float32T => Float32V(0)
    case Float64T => Float64V(0)
    case StringT => StringV([])
    case ArrayT(n, e) => ArrayV(e, Repeat(Zero(e), n))
    case SliceT(e) => SliceV(e, [])
    case MapT(k, e) => MapV(k, e, 0)
    case StructT(name, ds) => StructV(name, ZeroFields(ds))
  }

  /** n copies of v. */
  function Repeat(v: Val, n: nat): (r: seq<Val>)
    ensures |r| == n && forall i :: 0 <= i < n ==> r[i] == v
  {
    if n == 0 then [] else [v] + Repeat(v, n - 1)
  }

  function ZeroField(d: FieldDecl): Field
    decreases d, 1
  {
    Field(d.name, d.ty, Zero(d.ty))
  }

  /** The fields of the zero value of a struct with declarations ds. */
  function ZeroFields(ds: seq<FieldDecl>): (fs: seq<Field>)
    ensures |fs| == |ds| && forall i {:trigger fs[i]} :: 0 <= i < |ds| ==> fs[i] == ZeroField(ds[i])
    decreases ds
  {
    if ds == [] then [] else [ZeroField(ds[0])] + ZeroFields(ds[1..])
  }

  /**
   * reflect.Value.IsZero, with floats zero when all their bits are 0
   * (Go 1.21 and earlier) and a nil slice or map not told apart from an
   * empty one.
   */
  predicate IsZero(v: Val) {
    match v
    case BoolV(b) => !b
    case IntV(_, x) => x == 0
    case Float32V(bits) => bits == 0
    case Float64V(bits) => bits == 0
    case StringV(s) => s == []
    case ArrayV(_, items) => forall i :: 0 <= i < |items| ==> IsZero(items[i])
    case SliceV(_, items) => items == []
    case MapV(_, _, size) => size == 0
    case StructV(_, fs) => forall i :: 0 <= i < |fs| ==> IsZero(fs[i].value)
  }

  /** The zero value of t has type t and is zero. */
  lemma {:induction false} ZeroShape(t: Ty)
    ensures TypeOf(Zero(t)) == t && IsZero(Zero(t))
  {
    match t
    case ArrayT(n, e) =>
      ZeroShape(e);
    case StructT(name, ds) =>
      var fs := Zero(t).fields;
      forall i | 0 <= i < |ds| ensures IsZero(fs[i].value) {
        assert fs[i] == ZeroField(ds[i]);
        ZeroShape(ds[i].ty);
      }
      assert Decls(fs) == ds;
    case _ =>
  }

  /** For a value Go can hold, IsZero holds exactly of the zero value of its type. */
  lemma {:induction false} IsZeroIffZero(v: Val)
    requires WellTyped(v)
    ensures IsZero(v) <==> v == Zero(TypeOf(v))
  {
    ZeroShape(TypeOf(v));
    if IsZero(v) {
      match v
      case ArrayV(e, items) =>
        forall i | 0 <= i < |items| ensures items[i] == Zero(e) {
          IsZeroIffZero(items[i]);
        }
      case StructV(name, fs) =>
        forall i | 0 <= i < |fs| ensures fs[i] == ZeroField(Decls(fs)[i]) {
          IsZeroIffZero(fs[i].value);
        }
      case _ =>
    }
  }
}
