/**
 * Type tags on the wire: the fixed identifier of each kind that
 * `writeTypeIdFixed` writes, the registry identifier it falls back to, and
 * the chain of element types an outermost array or slice lists.
 */
module Tags {
  import opened Wrappers
  import opened Types
  import opened Registry

  /** The fixed identifier of an integer kind. */
  function KindTag(k: IntKind): TypeId {
    match k
    case Int(_) => TagInt
    case Int8 => TagInt8
    case Int16 => TagInt16
    case Int32 => TagInt32
    case Int64 => TagInt64
    case Uint(_) => TagUint
    case Uint8 => TagUint8
    case Uint16 => TagUint16
    case Uint32 => TagUint32
    case Uint64 => TagUint64
  }

  /**
   * The identifier `writeTypeIdFixed` writes for type t: the fixed one of
   * its kind, or, for a struct, its registry identifier, which is 0 when
   * the struct was never registered (a missing key reads as zero in Go).
   */
  function TypeTag(tb: Tables, t: Ty): TypeId {
    match t
    case BoolT => TagBool
    case IntT(k) => KindTag(k)
    case Float32T => TagFloat32
    case Float64T => TagFloat64
    case StringT => TagString
    case ArrayT(_, _) => TagArray
    case SliceT(_) => TagSlice
    case MapT(_, _) => TagMap
    case StructT(_, _) => if t in tb.typeToId then tb.typeToId[t] else TagUnknown
  }

  /** The fixed-width integer kind the decoder reads for a tag, if any. */
  function FixedKind(tag: TypeId): Option<IntKind> {
    if tag == TagInt8 then Some(Int8)
    else if tag == TagInt16 then Some(Int16)
    else if tag == TagInt32 then Some(Int32)
    else if tag == TagInt64 then Some(Int64)
    else if tag == TagUint8 then Some(Uint8)
    else if tag == TagUint16 then Some(Uint16)
    else if tag == TagUint32 then Some(Uint32)
    else if tag == TagUint64 then Some(Uint64)
    else None
  }

  /**
   * The decoder's dispatch inverts the encoder's tag: a fixed-width kind is
   * read back as itself, and the platform kinds get the two tags that are
   * followed by a width selector.
   */
  lemma KindTagInverse(k: IntKind)
    ensures !Platform(k) ==> FixedKind(KindTag(k)) == Some(k)
    ensures Platform(k) ==>
      (FixedKind(KindTag(k)) == None && KindTag(k) == (if Signed(k) then TagInt else TagUint))
  {
  }

  /** Every tag the encoder writes for a non-struct type is one of the fixed 1 to 17. */
  lemma FixedTagRange(tb: Tables, t: Ty)
    ensures !t.StructT? ==> TagBool <= TypeTag(tb, t) <= TagString
    ensures t.StructT? ==> TypeTag(tb, t) == (if t in tb.typeToId then tb.typeToId[t] else TagUnknown)
  {
  }

  /**
   * The element types an outermost container lists, starting from its
   * element type e: e, then e's element type while e is an array, slice or
   * map (the element type of a map is its value type).
   */
  function ElemChain(e: Ty): (c: seq<Ty>)
    ensures |c| > 0 && c[0] == e
  {
    [e] + (if IsContainer(e) then ElemChain(e.elem) else [])
  }

  /**
   * The chain has one entry per nesting level: each entry but the last is a
   * container whose element type is the next entry, and the last is not a
   * container.
   */
  lemma {:induction false} ElemChainLevels(e: Ty)
    ensures var c := ElemChain(e);
      (forall i | 0 <= i < |c| - 1 :: IsContainer(c[i]) && c[i + 1] == c[i].elem) &&
      !IsContainer(c[|c| - 1])
  {
    if IsContainer(e) {
      ElemChainLevels(e.elem);
      var c := ElemChain(e);
      assert c[1..] == ElemChain(e.elem);
      forall i | 0 < i < |c| - 1 ensures IsContainer(c[i]) && c[i + 1] == c[i].elem {
        assert c[i] == c[1..][i - 1] && c[i + 1] == c[1..][i];
      }
    }
  }

  /** The tags of a sequence of types, in order. */
  function ChainTags(tb: Tables, ts: seq<Ty>): (ids: seq<TypeId>)
    ensures |ids| == |ts|
    ensures forall i {:trigger ids[i]} | 0 <= i < |ts| :: ids[i] == TypeTag(tb, ts[i])
  {
    if ts == [] then [] else [TypeTag(tb, ts[0])] + ChainTags(tb, ts[1..])
  }
}
