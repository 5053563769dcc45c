# serializer — a Dafny model

`serializer` is a self-describing binary codec for Go values, built around a
type registry. Every value is written as a 2-byte little-endian type tag
followed by its body:

- `bool` is one byte.
- Fixed-width integers are written at their width.
- Platform-width `int` and `uint` get a 1-byte width selector, then the value
  at that width.
- A string is a 2-byte length and then its raw bytes.
- An array or slice is a 2-byte count. At the outermost level only, this is
  followed by a list of the element tags of every nesting level. The elements
  themselves are written without tags.
- A registered struct is:
  - a 2-byte field count, written as a placeholder and backpatched at the end;
  - then, for every non-zero exported field, the FNV-1a hash of its name
    followed by its value with a tag.

Tags 0 to 17 are fixed by kind. Struct types get the identifier they were
registered under. The registry also keeps, per struct identifier, the hashes
of its field names in both directions.

The decoder is the inverse. It threads two things through its recursion:

- a queue of pending element tags;
- the tag to decode next, where 0 means "read a tag from the stream".

It returns nil in these cases:

- the input is empty;
- an array or slice has no elements;
- the tag is a struct identifier that was never registered.

A decoded field is stored into a zero struct of the registered type in one of
three ways: assigned directly, converted, or converted element by element.

## Layout

| file | module | contents |
|---|---|---|
| `wrappers.dfy` | `Wrappers` | `Option` |
| `bytes.dfy` | `Bytes` | bytes, little-endian encoding and its inverse, two's complement |
| `types.dfy` | `Types` | integer kinds, the `Ty`/`Val` datatypes that stand in for reflection, zero values, `IsZero`, exportedness |
| `fnv.dfy` | `Fnv` | 32-bit FNV-1a |
| `registry.dfy` | `Registry` | the four registry tables as a value (`Tables`, `Register`, `InitTables`) and the mutable `TypeRegistry` class |
| `tags.dfy` | `Tags` | the tag of a kind (`writeTypeIdFixed`'s switch) and the element chain of nested containers |
| `buffer.dfy` | `LittleEndianBuffer` | the cursor buffer: overwrite at the cursor, extend at the end, read and advance |
| `encoder.dfy` | `Encoder` | `Enc`, the byte string the encoder writes, and the `encodeInternal` methods proved to write it |
| `coercion.dfy` | `Coercion` | the field store: assignability, `Convert`, the element-wise copy |
| `decoding.dfy` | `Decoding` | `Dec`, the decoder as a function of the stream and the position |
| `decoder.dfy` | `Decoder` | the `decodeInternal` methods on the buffer, each proved equal to `Dec` |
| `roundtrip.dfy` | `RoundTrip` | `Decode(Encode(v)) == v` for every value the format carries, piece by piece |
| `properties.dfy` | `Properties` | the nil outcomes, width-selector dispatch, the misalignment an unknown hash causes, and the two registry tests |

The encoder and the decoder are module-level methods that take the
`Buffer` they write to or read from, as the Go functions take `buf`. They
keep the source's loops. Each is proved to produce exactly what a pure
specification function (`Enc`, `Dec`) prescribes. The round-trip and layout properties are
then lemmas about those functions.

Go's silent "nil" result becomes `Ok(None, next)`. A Go panic becomes
`Panic`: a reflection panic, or an index or a read past the end of the
buffer.

The decoding platform's word size (4 or 8 bytes) is a parameter `w`. A
platform `int` read at another width is wrapped as Go's `int(...)`
conversion wraps it.

A zero-length array or slice decodes to nil (serializer.go:246-250;
`Properties.EmptyListIsNil`).

## Model

| member | source | states |
|---|---|---|
| Registry.TypeRegistry.constructor | serializer.go:43-58 | the registry after `init` holds exactly the fourteen scalar types under tags 1-13 and 17 |
| Registry.InitTypesNamed | serializer.go:43-58 | after `init`, every registered type's identifier maps back to that type |
| Registry.InitIdsNamed | serializer.go:43-58 | after `init`, every registered identifier's type maps back to that identifier |
| Registry.InitIdsScalar | serializer.go:43-58 | `init` registers only fixed scalar tags: none of them is 0, 14, 15, 16 or above 17 |
| Registry.TypeRegistry.RegisterType | serializer.go:60-87 | the registry's new tables are `Register(old tables, type of value, typeId)`: both type maps overwritten and, for a struct, both hash maps replaced for that identifier |
| Registry.TypeRegistry.RegisterFields | serializer.go:68-85 | the field loop leaves the type maps alone and sets the identifier's name→hash and hash→name maps to the ones built from the field declarations |
| Registry.RegisterConsistent | serializer.go:63-85 | after registering t under id, t maps to id and id maps to t, every other entry is unchanged, a struct's name→hash map covers exactly its field names with their FNV hashes, every hash→name entry names a field with that hash, and a non-struct leaves the hash maps as they were |
| Registry.HashTablesInverse | serializer.go:68-85 | without hash collisions among a struct's field names, its name→hash and hash→name maps are mutual inverses |
| Registry.NameHashesContents | serializer.go:77-83 | the name→hash map has exactly the field names as keys, each mapped to the FNV-1a hash of the name |
| Registry.HashNamesContents | serializer.go:77-84 | every field's hash is a key of the hash→name map, and each entry maps a hash to a field name that has that hash |
| Registry.HashNamesLookup | serializer.go:74-84 | a field's hash looks up that field, unless a later field with the same hash overwrote the entry |
| Registry.CollisionFreeAfter | serializer.go:81-84 | with no collisions, no later field shares a field's hash |
| Registry.ReRegisterId | serializer.go:63-66 | registering a second type under the same identifier overwrites id→type but leaves the first type's type→id entry in place (no duplicate check) |
| Registry.ReRegisterType | serializer.go:63-66 | registering a type a second time moves type→id to the new identifier and leaves the old identifier still naming the type |
| Fnv.Fnv1a32 | serializer.go:77-79 | the name hash is a 32-bit value |
| Fnv.TestVectors | serializer.go:77-79 | the FNV-1a function has the published test vectors: "" → 0x811c9dc5, "a" → 0xe40c292c, "foobar" → 0xbf9cf968 |
| Fnv.AbsorbConcat | serializer.go:77-79 | writing a name in two parts leaves the hash in the state that writing it at once does, so the hash is a byte-by-byte fold |
| Fnv.Fnv1a32Append | serializer.go:77-79 | the hash of a name followed by one byte is one FNV-1a step (xor, then multiply by the prime) from the hash state of the name |
| Tags.KindTagInverse | serializer.go:90-124 | the tag of every fixed-width integer kind identifies that kind back (the decoder's case for that tag reads the kind), and platform `int`/`uint` take tag 2/7, which name no fixed width |
| Tags.FixedTagRange | serializer.go:89-128 | every non-struct type has a fixed tag between 1 and 17, and a struct has its registry identifier, or 0 when it is unregistered |
| Encoder.WriteTypeIdFixed | serializer.go:89-128 | appends exactly the 2 little-endian bytes of the type's tag |
| Encoder.ElementTypes | serializer.go:459-475 | the loop collects the element type of every nesting level, ending at the first non-container (`ElemChain`) |
| Tags.ElemChainLevels | serializer.go:465-475 | in the element chain each entry but the last is a container and the next entry is its element type, and the last entry is not a container |
| Tags.ChainTags | serializer.go:477-481 | the tag list has one tag per chain entry, each entry's tag |
| Encoder.WriteTypeList | serializer.go:458-482 | appends the tag list: its 2-byte length, then one tag per nesting level |
| Encoder.WriteChain | serializer.go:477-481 | appends the count of the chain and then its tags |
| Encoder.WriteTags | serializer.go:479-481 | the loop appends one 2-byte tag per type, in order |
| Encoder.EncodeInternal | serializer.go:381-619 | appends exactly `Enc(tables, v, header)`: the tag when header is set, then the body |
| Encoder.EncodeBody | serializer.go:396-618 | appends the body of each kind: scalar, list or struct, and nothing for a map |
| Encoder.EncodeScalar | serializer.go:398-451 | appends the scalar body: one byte for bool, the selector and the value for `int`/`uint`, the value at its width for fixed kinds and floats, the length and bytes for a string |
| Encoder.EncodeList | serializer.go:453-488 | appends the count, the tag list when header is set, then the elements without headers |
| Encoder.WriteListHead | serializer.go:455-482 | appends the 2-byte count and, only at the outermost level, the tag list |
| Encoder.EncodeItems | serializer.go:484-487 | the loop appends every element's headerless encoding, in order |
| Encoder.BodyList | serializer.go:453-488 | a list body is the count, the tag list at the outermost level, then the elements |
| Encoder.BodyStruct | serializer.go:581-616 | a struct body is the number of written fields in 2 bytes followed by their entries |
| Encoder.EncodeStruct | serializer.go:581-616 | writes a 2-byte placeholder, the fields, then overwrites only the placeholder with the number of written fields and returns the cursor to the end |
| LittleEndianBuffer.SpliceOver | serializer.go:612-616 | rewriting the placeholder bytes in place changes those bytes and nothing before or after them |
| Encoder.EncodeFields | serializer.go:588-610 | the field loop appends the entries of exactly the non-zero exported fields, in declaration order, and returns how many it wrote |
| Encoder.FieldsStep | serializer.go:588-610 | a field contributes its entry and one to the count exactly when it is non-zero and exported |
| Encoder.EncodeField | serializer.go:601-607 | appends the 4-byte FNV-1a hash of the field name, then the field value with its tag |
| Encoder.Encode | serializer.go:374-379 | returns exactly `Enc(tables, value, true)` |
| Decoder.Decode | serializer.go:130-134 | returns exactly `DecodeBytes(tables, w, b)`: `Dec` at position 0 with an empty queue and tag 0 |
| Decoder.DecodeInternal | serializer.go:136-145 | returns nil when nothing is left, otherwise reads the tag if it was told 0, and dispatches, leaving the cursor after what it read |
| Decoder.DecodeValue | serializer.go:145-371 | the dispatch on the tag: scalars, lists, map, struct identifiers, and nil for an unknown tag |
| Decoder.DecodeScalar | serializer.go:147-224 | reads bool, the integer kinds, floats and strings as `DecScalar` says, panicking past the end |
| Decoder.DecodePlatform | serializer.go:151-195 | reads the width selector and then 1, 2, 4 or 8 bytes, or returns nil for any other selector |
| Decoder.DecodeList | serializer.go:226-271 | reads the count, installs the tag list only when the queue is empty, decodes the elements with the queue's head and tail, and builds the array or slice |
| Decoder.ReadTypeIds | serializer.go:231-237 | reads the tag-list length and then that many tags, in order, failing exactly when the stream ends first |
| Decoder.ItemsStep | serializer.go:242-244 | one iteration of the element loop decodes one element with the queue's head tag and tail |
| Decoder.DecodeItems | serializer.go:240-244 | the element loop decodes `length` elements one after another, each with the queue's head tag and tail |
| Decoder.BuildList | serializer.go:246-271 | nil when the first element is nil (so for every zero-length list), otherwise an array or slice of the first element's type holding the elements, panicking when an element has another type |
| Decoding.Assemble | serializer.go:246-271 | a built list ends where the elements ended and holds only values it can type |
| Decoder.DecodeStruct | serializer.go:299-311 | nil for an unregistered identifier, otherwise reads the field count and fills a zero value of the registered type |
| Decoder.DecodeFields | serializer.go:313-365 | the field loop reads `numberOfFields` fields into the struct being built |
| Decoder.DecodeField | serializer.go:314-364 | reads a 4-byte hash. An unknown hash changes nothing and reads nothing more. Otherwise it decodes a value with a tag: nil is skipped, and anything else is stored into the named field |
| Decoding.ReadUintAt | serializer.go:314 | a little-endian read of n bytes succeeds exactly when n bytes are left, and returns their value |
| Decoding.ReadTags | serializer.go:233-237 | reading m tags succeeds exactly when 2m bytes are left and returns the m 2-byte values in order |
| Decoding.Dec | serializer.go:136-372 | a successful decode ends between the start and the end of the stream and yields a value whose lists are typed |
| Decoder.StoreField | serializer.go:328-364 | stores a decoded value into the named field as `SetField` says, panicking when the struct has no such field |
| Decoder.CopyIntoField | serializer.go:341-363 | the element-wise tier: resizes a slice field to the source length, then copies the elements that can be assigned or converted |
| Decoder.CopyElements | serializer.go:351-362 | the element loop replaces each element j of the destination with element j of the source converted, failing as Go panics |
| Coercion.CopyItemsSpec | serializer.go:351-362 | the element copy fails exactly when the destination is not settable, is shorter than the source, or an element conversion fails, and otherwise replaces exactly the first elements with the converted source elements |
| Coercion.Convert | serializer.go:338-339 | a conversion yields a value of the target type and fails exactly when a slice is shorter than the array it is converted to |
| Coercion.ConvertInt | serializer.go:338-339 | an integer conversion yields a value in range of the target kind and keeps any value the target kind can hold |
| Coercion.StringBytesRoundTrip | serializer.go:338-339 | converting a string to `[]byte` and back gives the same string |
| Coercion.StringRunesRoundTrip | serializer.go:338-339 | converting a string to `[]rune` gives the code points the string decodes to, and converting a well-formed string to `[]rune` and back gives the same string |
| Coercion.RunesOfValidString | serializer.go:338-339 | the UTF-8 encoding of the runes a well-formed string decodes to is that string |
| Coercion.StringOfValidRunes | serializer.go:338-339 | a `[]rune` of scalar values converted to a string is well-formed UTF-8 and decodes back to the same runes |
| Coercion.DecodeRuneBytes | serializer.go:338-339 | the encoding of a scalar value, followed by any bytes, decodes first to that value, taking exactly its encoding's length |
| Coercion.RuneLead | serializer.go:338-339 | the first byte of a scalar value's encoding announces the encoding's length |
| Coercion.DecodeRune | serializer.go:338-339 | decoding one rune takes between 1 and the remaining number of bytes and always yields a scalar value (U+FFFD for an invalid sequence) |
| Coercion.StringRunes | serializer.go:338-339 | every element of `[]rune(s)` is an `int32` holding a scalar value |
| Coercion.CoerceStringToRunes | serializer.go:338-339 | a string stored into a `[]rune` field takes the second tier and the field receives the string's code points |
| Coercion.RuneRoundTrip | serializer.go:338-339 | converting a valid code point to a string gives its UTF-8 encoding of the right length, and that encoding decodes back to it; an invalid one becomes U+FFFD |
| Coercion.ByteItemsRoundTrip | serializer.go:338-339 | the bytes of a `[]byte` made from a byte string are that byte string |
| Coercion.Resize | serializer.go:346-349 | growing and setting the length of a slice field keeps its first elements and fills the rest with zero values |
| Coercion.FieldIndex | serializer.go:328 | finds the first field with the name, and fails only when none has it |
| Coercion.AssignKeepsType | serializer.go:336-364 | storing a value into a field by any of the three tiers keeps the field's declared type |
| Coercion.SetFieldFrame | serializer.go:328-364 | a store fails when the struct has no such field, changes only the named field, and keeps the fields' names and types and the struct's type |
| Coercion.CoerceIntWidening | serializer.go:338-339 | an `int32` stored into an `int64` field is converted and keeps its value |
| Coercion.CoerceSliceElementwise | serializer.go:341-362 | a `[]int32` stored into a `[]int64` field is copied element by element, each element converted and kept |
| Types.IsZeroIffZero | serializer.go:591-593 | a value counts as zero (and is not written) exactly when it is its type's zero value |
| Types.ZeroShape | serializer.go:311 | the zero value of a type has that type and counts as zero |
| Types.WrapProperties | serializer.go:157-163 | wrapping to an integer kind yields a value in its range and keeps any value already in range |
| Bytes.UnsignedRoundTrip | serializer.go:182-211 | reading back the little-endian bytes of an unsigned value gives that value |
| Bytes.SignedRoundTrip | serializer.go:151-180 | reading back the two's-complement little-endian bytes of a signed value gives that value |
| Bytes.FromLEOfLE | serializer.go:151-211 | the little-endian bytes of any value in range read back as that value modulo 256 to the width |
| Bytes.ToSignedRange | serializer.go:151-180 | a two's-complement reading lies in the signed range of its width |
| RoundTrip.RoundTrip | serializer.go:130-619 | for every value the format carries (no maps, non-empty lists, registered structs without hash collisions, lengths that fit in 2 bytes, `int`/`uint` of the decoding platform's width), decoding its encoding gives the value back and consumes every byte |
| RoundTrip.HeaderRoundTrip | serializer.go:141-145 | a value encoded with its tag decodes, with tag 0 and an empty queue, to itself, ending at its last byte |
| RoundTrip.ElemRoundTrip | serializer.go:243 | a headerless element decodes with its own tag and the rest of the queue to itself |
| RoundTrip.BodyRoundTrip | serializer.go:145-367 | every kind's body, read with its tag, gives back the value |
| RoundTrip.IntRoundTrip | serializer.go:151-211 | every integer of every kind, platform `int`/`uint` included, reads back as itself from its encoding |
| RoundTrip.BoolRoundTrip | serializer.go:147-149 | a bool reads back as itself from its one byte |
| RoundTrip.Float32RoundTrip | serializer.go:213-215 | a float32 bit pattern reads back from its 4 bytes |
| RoundTrip.Float64RoundTrip | serializer.go:217-219 | a float64 bit pattern reads back from its 8 bytes |
| RoundTrip.StringRoundTrip | serializer.go:221-224 | a string shorter than 65536 bytes reads back from its length prefix and exactly its bytes |
| RoundTrip.ScalarRoundTrip | serializer.go:147-224 | every scalar value's tag is a scalar tag, and its body reads back as the value |
| RoundTrip.TagsRoundTrip | serializer.go:233-237 | the tag bytes written for a chain read back as the chain's tags |
| RoundTrip.TagListRoundTrip | serializer.go:231-237 | the tag list written by an outermost list reads back as one tag per nesting level |
| RoundTrip.ChainHead | serializer.go:243 | the queue's head is the element's own tag and its tail is what the element is decoded with |
| RoundTrip.ListRoundTrip | serializer.go:226-271 | a non-empty array or slice, with or without its tag list, reads back as itself |
| RoundTrip.ItemsRoundTrip | serializer.go:242-244 | the elements from position k on read back as themselves |
| RoundTrip.AssembleList | serializer.go:246-271 | the decoded elements of a non-empty list build that list |
| RoundTrip.StructRoundTrip | serializer.go:299-367 | a registered struct reads back as itself: starting from the zero value, the written fields are stored back and the skipped ones stay zero |
| RoundTrip.FieldsRoundTrip | serializer.go:313-365 | the fields from k on, stored into the partly filled struct, complete it |
| RoundTrip.SkippedField | serializer.go:588-599 | a zero or unexported field adds nothing to the stream or to the count, and it already holds its zero value in the struct being filled |
| RoundTrip.FieldRoundTrip | serializer.go:314-337 | one written field's entry stores its value into the field |
| RoundTrip.FieldRead | serializer.go:314-322 | a written field's entry reads back as its hash, which names the field, and then its value |
| RoundTrip.EntryParts | serializer.go:601-607 | a field entry is the 4-byte hash of its name followed by its value with its tag |
| RoundTrip.HashLookup | serializer.go:316 | in a registered struct without collisions, every field's hash looks up that field's name |
| RoundTrip.StoreField | serializer.go:336-337 | a field's decoded value is assignable to it, so it is stored as it is |
| Properties.EmptyListIsNil | serializer.go:246-250 | an empty array or slice decodes to nil, having read all its bytes |
| Properties.UnknownIdIsNil | serializer.go:299-305 | a tag above 17 that is not registered decodes to nil and reads nothing more |
| Properties.UnregisteredStructIsNil | serializer.go:299-305 | an unregistered struct is written with tag 0 and decodes to nil after those 2 bytes |
| Properties.MapIsTagOnly | serializer.go:273-297 | a map is written as tag 15 alone, and that decodes to nil |
| Properties.PlatformLayout | serializer.go:402-438 | platform `int`/`uint` is written as tag 2/7, a selector byte equal to its width, and the value at that width |
| Properties.SelectorDispatch | serializer.go:151-195 | after tag 2/7 the decoder reads selector s: any s other than 1, 2, 4, 8 gives nil, a valid s with s bytes left gives those bytes read at width s and wrapped to the platform width, and a valid s without enough bytes panics |
| Properties.UnknownHashMisaligns | serializer.go:316-320 | a struct F{B, A} written by one registry and read by a registry that knows only F{A} decodes as A = false after 12 of its 18 bytes, since the unknown hash is skipped without its value |
| Properties.SenderWrites | serializer.go:581-616 | the 18 bytes in the misalignment case are exactly what the encoder writes for F{B: true, A: true} |
| Properties.FooRoundTrip | serializer_test.go:93-101 | with `Foo` registered under 50 after `init`, `Foo{}` is written as [50, 0, 0, 0] and reads back as `Foo{}` |
| Properties.NestedArrayRoundTrip | serializer_test.go:83-91 | `[5][5]int32` is written with a tag list of count 2 followed by the tags [14 (array), 5 (int32)], headerless rows of 4-byte elements, 120 bytes in all, and reads back as itself |
| Properties.NothingLeft | serializer.go:137-139 | with nothing left to read, the decoder returns nil and reads nothing, whatever it was told to expect |

## Left out

- Floating point: `float32`/`float64` are opaque bit patterns written at 4 and 8 bytes. A conversion that involves a float is treated like any other non-convertible store, so the field keeps its old value.
- Maps: the map paths are commented out in the source. The model writes only tag 15 and decodes it to nil. Map contents are not modelled, so `MapV` carries only its size. In the model a map is zero exactly when its size is 0, so it does not tell a nil map from a non-nil empty one (see the `Types.IsZero` line).
- The single-level pointer dereference in `encodeInternal` is reflection plumbing. Values are given directly.
- Global state and `init` ordering: the registry is an explicit `TypeRegistry` object passed to the encoder and the decoder. Concurrent access is not modelled.
- `little_endian_buffer` is not part of this model. `LittleEndianBuffer.Buffer` states only the behaviour the codec relies on:
  - a write overwrites at the cursor and extends at the end;
  - a read returns the bytes at the cursor and advances;
  - reading past the end is treated as a panic;
  - `ReadBool` is taken to mean "the byte is not 0".
- Reflection is replaced by the `Ty`/`Val` datatypes. `AssignableTo` becomes type equality. `ConvertibleTo` becomes the explicit table `Coercion.Convertible`, for the types the model has.
- Embedded fields are not modelled, nor `FieldByName`'s promotion through them.
- Types.IsZero: a nil slice and a non-nil empty slice are one value, and it counts as zero. In Go a non-nil empty slice is not zero, so a struct field holding one is written and counted (hash, tag 16, count 0, tag list), and the receiver reads that entry as nil and skips it. The model never writes such a field: the count is one lower and those bytes are missing. Slice capacity is not modelled.
- Types.IsZero: maps have the same gap. A nil map and a non-nil empty map (`map[K]V{}`) are one value, and it counts as zero. In Go a non-nil empty map is not zero, so a struct field holding one is written and counted (4-byte hash, then tag 15), and the receiver reads tag 15 as nil and skips the field. The model never writes such a field: the count is one lower and those 6 bytes are missing.
- Types.IsZero: a float is zero exactly when all its bits are 0. This is `reflect`'s rule up to Go 1.21. From Go 1.22 on, -0.0 also counts as zero, so a -0.0 field is not written and the receiver keeps +0.0. The model writes such a field and reads it back as -0.0.
- Types.IsZeroIffZero: holds only because nil and non-nil empty slices and maps are one value in the model, and because of the Go 1.21 float rule above. In Go a non-nil empty slice or map is not zero, although it equals the zero value in length and contents.
- Exportedness is "the first byte of the name is an ASCII upper-case letter". Unicode upper-case letters are not modelled.
- The decoding platform's word size is a parameter.
- RoundTrip.RoundTrip: requires every non-zero field of every struct in the value to be exported. The encoder skips unexported fields, so a non-zero one is dropped and comes back as zero, and such a value cannot round-trip. It also requires the field names to be collision-free under the hash, because the source does not detect collisions.
- The misalignment after an unknown field hash is kept as the code has it (`Properties.UnknownHashMisaligns`). It is not corrected.
