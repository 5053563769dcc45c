/**
 * The 32-bit FNV-1a hash of `hash/fnv` (`New32a`, `Write`, `Sum32`), used
 * as the wire identity of a struct field name.
 */
module Fnv {

  /** The FNV-1a 32-bit offset basis, 2166136261. */
  const OffsetBasis: bv32 := 0x811c_9dc5

  /** The FNV 32-bit prime, 16777619. */
  const Prime: bv32 := 0x0100_0193

  /**
   * One byte written to a hash in state h: the byte is xor-ed into the
   * state, which is then multiplied by the prime modulo 2^32.
   */
  function Step(h: bv32, b: bv8): bv32 {
    (h ^ (b as bv32)) * Prime
  }

  /** The hash state after writing the bytes of s, in order, to a hash in state h. */
  function Absorb(h: bv32, s: seq<bv8>): bv32
    decreases s
  {
    if s == [] then h else Absorb(Step(h, s[0]), s[1..])
  }

  /** Sum32 after writing the bytes of s to a fresh New32a hash. */
  function Fnv1a32(s: seq<bv8>): (h: nat)
    ensures h < 0x1_0000_0000
  {
    Absorb(OffsetBasis, s) as nat
  }

  /**
   * Writing s and then t to the hash leaves the state that writing s + t
   * at once does, so the state is a left fold over the bytes.
   */
  lemma {:induction false} AbsorbConcat(h: bv32, s: seq<bv8>, t: seq<bv8>)
    ensures Absorb(h, s + t) == Absorb(Absorb(h, s), t)
    decreases s
  {
    if s == [] {
      assert s + t == t;
    } else {
      assert (s + t)[1..] == s[1..] + t;
      AbsorbConcat(Step(h, s[0]), s[1..], t);
    }
  }

  /**
   * Appending one byte b to the name takes the hash of the name one `Step`
   * further.
   */
  lemma Fnv1a32Append(s: seq<bv8>, b: bv8)
    ensures Fnv1a32(s + [b]) == Step(Absorb(OffsetBasis, s), b) as nat
  {
    var x := Absorb(OffsetBasis, s);
    AbsorbConcat(OffsetBasis, s, [b]);
    assert [b][1..] == [];
    assert Absorb(x, [b]) == Absorb(Step(x, b), []);
  }

  /** The published FNV-1a 32-bit test vectors for "", "a" and "foobar". */
  lemma TestVectors()
    ensures Fnv1a32([]) == 0x811c_9dc5
    ensures Fnv1a32([0x61]) == 0xe40c_292c
    ensures Fnv1a32([0x66, 0x6f, 0x6f, 0x62, 0x61, 0x72]) == 0xbf9c_f968
  {
    assert Absorb(OffsetBasis, [0x61]) == 0xe40c_292c;
    assert Absorb(OffsetBasis, [0x66, 0x6f, 0x6f, 0x62, 0x61, 0x72]) == 0xbf9c_f968;
  }
}
