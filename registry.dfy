/**
 * The type registry: the four global tables `RegisterType` fills, which
 * the encoder and the decoder consult. A registration binds a type to an
 * identifier in both directions and, for a struct, maps each field name
 * to its FNV-1a hash and each hash back to a field name. Nothing is
 * checked: a later registration overwrites an earlier one.
 */
module Registry {
  import opened Types
  import opened Fnv

  /** A field-name hash; it is a uint32 on the wire. */
  type Hash = h: int | 0 <= h < 0x1_0000_0000

  /** The hash the registry and the encoder both compute for a field name. */
  function NameHash(name: Name): Hash {
    Fnv1a32(name)
  }

  /** The contents of the four registry maps. */
  datatype Tables = Tables(
    typeToId: map<Ty, TypeId>,
    idToType: map<TypeId, Ty>,
    nameToHash: map<TypeId, map<Name, Hash>>,
    hashToName: map<TypeId, map<Hash, Name>>)

  function EmptyTables(): Tables {
    Tables(map[], map[], map[], map[])
  }

  /** The name-to-hash table built from the fields ds, in declaration order. */
  function NameHashes(ds: seq<FieldDecl>): map<Name, Hash> {
    if ds == [] then map[]
    else NameHashes(ds[..|ds| - 1])[ds[|ds| - 1].name := NameHash(ds[|ds| - 1].name)]
  }

  /**
   * The hash-to-name table built from the fields ds, in declaration order:
   * of two fields whose names collide, the later one wins.
   */
  function HashNames(ds: seq<FieldDecl>): map<Hash, Name> {
    if ds == [] then map[]
    else HashNames(ds[..|ds| - 1])[NameHash(ds[|ds| - 1].name) := ds[|ds| - 1].name]
  }

  /** The tables after `RegisterType(value, id)` for a value of type t. */
  function Register(tb: Tables, t: Ty, id: TypeId): Tables {
    var tb' := tb.(typeToId := tb.typeToId[t := id], idToType := tb.idToType[id := t]);
    if t.StructT? then
      tb'.(nameToHash := tb.nameToHash[id := NameHashes(t.decls)],
           hashToName := tb.hashToName[id := HashNames(t.decls)])
    else tb'
  }

  /** The field names of ds. */
  function DeclNames(ds: seq<FieldDecl>): set<Name> {
    set i | 0 <= i < |ds| :: ds[i].name
  }

  /** No two differently named fields of ds share a hash. */
  predicate CollisionFree(ds: seq<FieldDecl>) {
    var ns := FieldNames(ds);
    forall i, j :: 0 <= i < |ns| && 0 <= j < |ns| && NameHash(ns[i]) == NameHash(ns[j]) ==> ns[i] == ns[j]
  }

  /** In a collision-free field list, no field after field i shares its hash under another name. */
  lemma CollisionFreeAfter(ds: seq<FieldDecl>, i: nat)
    requires CollisionFree(ds) && i < |ds|
    ensures forall j | i < j < |ds| :: NameHash(ds[j].name) == NameHash(ds[i].name) ==> ds[j].name == ds[i].name
  {
    var ns := FieldNames(ds);
    forall j | i < j < |ds| ensures NameHash(ds[j].name) == NameHash(ds[i].name) ==> ds[j].name == ds[i].name {
      assert ns[i] == ds[i].name && ns[j] == ds[j].name;
    }
  }

  lemma DeclNamesPrefix(ds: seq<FieldDecl>)
    requires ds != []
    ensures DeclNames(ds) == DeclNames(ds[..|ds| - 1]) + {ds[|ds| - 1].name}
  {
    var ds' := ds[..|ds| - 1];
    forall n | n in DeclNames(ds) ensures n in DeclNames(ds') + {ds[|ds| - 1].name} {
      var i :| 0 <= i < |ds| && ds[i].name == n;
      if i < |ds| - 1 {
        assert ds'[i] == ds[i];
      }
    }
    forall n | n in DeclNames(ds') ensures n in DeclNames(ds) {
      var i :| 0 <= i < |ds'| && ds'[i].name == n;
      assert ds[i] == ds'[i];
    }
  }

  /** The name-to-hash table has one entry per field name, and it is that name's hash. */
  lemma {:induction false} NameHashesContents(ds: seq<FieldDecl>)
    ensures NameHashes(ds).Keys == DeclNames(ds)
    ensures forall n | n in NameHashes(ds) :: NameHashes(ds)[n] == NameHash(n)
  {
    if ds != [] {
      NameHashesContents(ds[..|ds| - 1]);
      DeclNamesPrefix(ds);
    }
  }

  /**
   * The hash-to-name table is sound: every entry maps a hash back to a
   * field name with that hash, and every field's hash has an entry.
   */
  lemma {:induction false} HashNamesContents(ds: seq<FieldDecl>)
    ensures forall i | 0 <= i < |ds| :: NameHash(ds[i].name) in HashNames(ds)
    ensures forall h | h in HashNames(ds) :: HashNames(ds)[h] in DeclNames(ds) && NameHash(HashNames(ds)[h]) == h
  {
    if ds != [] {
      var ds' := ds[..|ds| - 1];
      HashNamesContents(ds');
      DeclNamesPrefix(ds);
      forall i | 0 <= i < |ds| - 1 ensures NameHash(ds[i].name) in HashNames(ds) {
        assert ds[i] == ds'[i];
      }
    }
  }

  /**
   * A field's hash leads back to its own name unless a later field with
   * another name has the same hash.
   */
  lemma {:induction false} HashNamesLookup(ds: seq<FieldDecl>, i: nat)
    requires i < |ds|
    requires forall j | i < j < |ds| :: NameHash(ds[j].name) == NameHash(ds[i].name) ==> ds[j].name == ds[i].name
    ensures NameHash(ds[i].name) in HashNames(ds) && HashNames(ds)[NameHash(ds[i].name)] == ds[i].name
  {
    var last := ds[|ds| - 1];
    if i < |ds| - 1 && NameHash(last.name) != NameHash(ds[i].name) {
      var ds' := ds[..|ds| - 1];
      assert ds'[i] == ds[i];
      forall j | i < j < |ds'| ensures NameHash(ds'[j].name) == NameHash(ds'[i].name) ==> ds'[j].name == ds'[i].name {
        assert ds'[j] == ds[j];
      }
      HashNamesLookup(ds', i);
    }
  }

  /**
   * Without hash collisions between differently named fields, the two
   * tables of a struct are inverse to each other.
   */
  lemma HashTablesInverse(ds: seq<FieldDecl>)
    requires CollisionFree(ds)
    ensures forall n | n in NameHashes(ds) ::
      NameHashes(ds)[n] in HashNames(ds) && HashNames(ds)[NameHashes(ds)[n]] == n
    ensures forall h | h in HashNames(ds) ::
      HashNames(ds)[h] in NameHashes(ds) && NameHashes(ds)[HashNames(ds)[h]] == h
  {
    NameHashesContents(ds);
    HashNamesContents(ds);
    forall n | n in NameHashes(ds)
      ensures NameHashes(ds)[n] in HashNames(ds) && HashNames(ds)[NameHashes(ds)[n]] == n
    {
      var i :| 0 <= i < |ds| && ds[i].name == n;
      CollisionFreeAfter(ds, i);
      HashNamesLookup(ds, i);
    }
  }

  /**
   * After a registration the type and the identifier name each other, no
   * other type or identifier changes, and a struct's hash tables are built
   * from its fields; a non-struct leaves the hash tables alone.
   */
  lemma RegisterConsistent(tb: Tables, t: Ty, id: TypeId)
    ensures var r := Register(tb, t, id);
      t in r.typeToId && r.typeToId[t] == id && id in r.idToType && r.idToType[id] == t
    ensures var r := Register(tb, t, id);
      (forall u | u in tb.typeToId && u != t :: u in r.typeToId && r.typeToId[u] == tb.typeToId[u]) &&
      (forall j | j in tb.idToType && j != id :: j in r.idToType && r.idToType[j] == tb.idToType[j])
    ensures var r := Register(tb, t, id);
      t.StructT? ==>
        (id in r.nameToHash && r.nameToHash[id].Keys == DeclNames(t.decls) &&
         (forall n | n in r.nameToHash[id] :: r.nameToHash[id][n] == NameHash(n)) &&
         id in r.hashToName &&
         (forall h | h in r.hashToName[id] :: NameHash(r.hashToName[id][h]) == h))
    ensures var r := Register(tb, t, id);
      !t.StructT? ==> r.nameToHash == tb.nameToHash && r.hashToName == tb.hashToName
  {
    if t.StructT? {
      NameHashesContents(t.decls);
      HashNamesContents(t.decls);
    }
  }

  /**
   * There is no duplicate check: registering a second type under the same
   * identifier rebinds the identifier, while the first type still maps to it.
   */
  lemma ReRegisterId(tb: Tables, t1: Ty, t2: Ty, id: TypeId)
    requires t1 != t2
    ensures var r := Register(Register(tb, t1, id), t2, id);
      r.idToType[id] == t2 && r.typeToId[t1] == id && r.typeToId[t2] == id
  {
  }

  /** Registering a type a second time, under a new identifier, leaves the old identifier naming it. */
  lemma ReRegisterType(tb: Tables, t: Ty, id1: TypeId, id2: TypeId)
    requires id1 != id2
    ensures var r := Register(Register(tb, t, id1), t, id2);
      r.typeToId[t] == id2 && r.idToType[id1] == t && r.idToType[id2] == t
  {
  }

  /** The tables `init` leaves, on a platform whose `int` and `uint` have word size w. */
  function InitTables(w: Word): Tables {
    Tables(
      map[BoolT := TagBool, IntT(Int(w)) := TagInt, IntT(Int8) := TagInt8, IntT(Int16) := TagInt16,
          IntT(Int32) := TagInt32, IntT(Int64) := TagInt64, IntT(Uint(w)) := TagUint,
          IntT(Uint8) := TagUint8, IntT(Uint16) := TagUint16, IntT(Uint32) := TagUint32,
          IntT(Uint64) := TagUint64, Float32T := TagFloat32, Float64T := TagFloat64, StringT := TagString],
      map[TagBool := BoolT, TagInt := IntT(Int(w)), TagInt8 := IntT(Int8), TagInt16 := IntT(Int16),
          TagInt32 := IntT(Int32), TagInt64 := IntT(Int64), TagUint := IntT(Uint(w)),
          TagUint8 := IntT(Uint8), TagUint16 := IntT(Uint16), TagUint32 := IntT(Uint32),
          TagUint64 := IntT(Uint64), TagFloat32 := Float32T, TagFloat64 := Float64T, TagString := StringT],
      map[], map[])
  }

  /** Each built-in type's identifier names that type again. */
  lemma InitTypesNamed(w: Word)
    ensures var tb := InitTables(w);
      forall t | t in tb.typeToId :: tb.typeToId[t] in tb.idToType && tb.idToType[tb.typeToId[t]] == t
  {
  }

  /** Each built-in identifier's type maps back to that identifier. */
  lemma InitIdsNamed(w: Word)
    ensures var tb := InitTables(w);
      forall id | id in tb.idToType :: tb.idToType[id] in tb.typeToId && tb.typeToId[tb.idToType[id]] == id
  {
  }

  /**
   * The built-in identifiers are the scalar tags: the container tags and
   * every identifier from 18 on are left free.
   */
  lemma InitIdsScalar(w: Word)
    ensures var tb := InitTables(w);
      forall id | id in tb.idToType :: TagBool <= id <= TagString && id != TagArray && id != TagMap && id != TagSlice
  {
  }

  class TypeRegistry {
    var typeToId: map<Ty, TypeId>
    var idToType: map<TypeId, Ty>
    var nameToHash: map<TypeId, map<Name, Hash>>
    var hashToName: map<TypeId, map<Hash, Name>>

    function State(): Tables
      reads this
    {
      Tables(typeToId, idToType, nameToHash, hashToName)
    }

    /** The registry as `init` leaves it, on a platform whose `int` has word size w. */
    constructor (w: Word)
      ensures State() == InitTables(w)
    {
      typeToId, idToType, nameToHash, hashToName := map[], map[], map[], map[];
      new;
      RegisterType(BoolV(false), TagBool);
      RegisterType(IntV(Int(w), 0), TagInt);
      RegisterType(IntV(Int8, 0), TagInt8);
      RegisterType(IntV(Int16, 0), TagInt16);
      RegisterType(IntV(Int32, 0), TagInt32);
      RegisterType(IntV(Int64, 0), TagInt64);
      RegisterType(IntV(Uint(w), 0), TagUint);
      RegisterType(IntV(Uint8, 0), TagUint8);
      RegisterType(IntV(Uint16, 0), TagUint16);
      RegisterType(IntV(Uint32, 0), TagUint32);
      RegisterType(IntV(Uint64, 0), TagUint64);
      RegisterType(Float32V(0), TagFloat32);
      RegisterType(Float64V(0), TagFloat64);
      RegisterType(StringV([]), TagString);
    }

    /** `RegisterType(value, typeId)`. */
    method RegisterType(value: Val, typeId: TypeId)
      modifies this
      ensures State() == Register(old(State()), TypeOf(value), typeId)
    {
      var t := TypeOf(value);
      typeToId := typeToId[t := typeId];
      idToType := idToType[typeId := t];
      if t.StructT? {
        RegisterFields(typeId, t.decls);
      }
    }

    /**
     * The loop of `RegisterType` over the fields ds of a struct registered
     * as typeId. Go stores two fresh inner maps and then fills them through
     * the outer maps; here the inner maps are values, filled first and
     * stored once.
     */
    method RegisterFields(typeId: TypeId, ds: seq<FieldDecl>)
      modifies this
      ensures typeToId == old(typeToId) && idToType == old(idToType)
      ensures nameToHash == old(nameToHash)[typeId := NameHashes(ds)]
      ensures hashToName == old(hashToName)[typeId := HashNames(ds)]
    {
      var names: map<Name, Hash> := map[];
      var hashes: map<Hash, Name> := map[];
      var i := 0;
      while i < |ds|
        invariant 0 <= i <= |ds|
        invariant names == NameHashes(ds[..i]) && hashes == HashNames(ds[..i])
      {
        var nameHash := NameHash(ds[i].name);
        assert ds[..i + 1][..i] == ds[..i] && ds[..i + 1][i] == ds[i];
        names := names[ds[i].name := nameHash];
        hashes := hashes[nameHash := ds[i].name];
        i := i + 1;
      }
      assert ds[..i] == ds;
      nameToHash := nameToHash[typeId := names];
      hashToName := hashToName[typeId := hashes];
    }
  }
}
