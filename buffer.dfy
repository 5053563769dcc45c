/**
 * The little-endian byte buffer the codec writes to and reads from: a
 * growable byte sequence with one cursor. The buffer itself is an external
 * package; only the behaviour the codec relies on is modelled here. A write
 * overwrites the bytes at the cursor and extends the sequence when it runs
 * past the end; a read returns the bytes at the cursor and advances it.
 * Reading past the end is an error (`ok == false`).
 */
module LittleEndianBuffer {
  import opened Bytes

  /** The contents of `d` after writing `bs` at cursor `p`. */
  function Splice(d: seq<byte>, p: nat, bs: seq<byte>): (r: seq<byte>)
    requires p <= |d|
    ensures |r| == if p + |bs| <= |d| then |d| else p + |bs|
  {
    d[..p] + bs + (if p + |bs| <= |d| then d[p + |bs|..] else [])
  }

  /**
   * A write keeps the bytes before the cursor, puts bs at the cursor and
   * keeps the bytes after bs, if any.
   */
  lemma SpliceParts(d: seq<byte>, p: nat, bs: seq<byte>)
    requires p <= |d|
    ensures var r := Splice(d, p, bs);
      r[..p] == d[..p] && r[p..p + |bs|] == bs &&
      (p + |bs| <= |d| ==> r[p + |bs|..] == d[p + |bs|..])
  {
  }

  /** A write at the end appends. */
  lemma SpliceAtEnd(d: seq<byte>, bs: seq<byte>)
    ensures Splice(d, |d|, bs) == d + bs
  {
    assert d[..|d|] == d;
  }

  /** Overwriting bytes z that sit at offset |a| with bytes c of the same length. */
  lemma SpliceOver(a: seq<byte>, z: seq<byte>, f: seq<byte>, c: seq<byte>)
    requires |c| == |z|
    ensures Splice(a + z + f, |a|, c) == a + c + f
  {
    var d := a + z + f;
    assert d[..|a|] == a;
    assert d[|a| + |c|..] == f;
  }

  /** Two consecutive writes are one write of both byte strings. */
  lemma SpliceAppend(d: seq<byte>, p: nat, a: seq<byte>, b: seq<byte>)
    requires p <= |d|
    ensures p + |a| <= |Splice(d, p, a)|
    ensures Splice(Splice(d, p, a), p + |a|, b) == Splice(d, p, a + b)
  {
    var l := Splice(Splice(d, p, a), p + |a|, b);
    var r := Splice(d, p, a + b);
    SpliceParts(d, p, a);
    SpliceParts(Splice(d, p, a), p + |a|, b);
    SpliceParts(d, p, a + b);
    assert |l| == |r|;
    forall k | 0 <= k < |l| ensures l[k] == r[k] {
      if k < p {
        assert l[k] == l[..p][k];
      } else if k < p + |a| {
        assert l[k] == Splice(d, p, a)[k] == Splice(d, p, a)[p..p + |a|][k - p];
        assert r[k] == r[p..p + |a| + |b|][k - p];
      } else if k < p + |a| + |b| {
        assert l[k] == l[p + |a|..p + |a| + |b|][k - p - |a|];
        assert r[k] == r[p..p + |a| + |b|][k - p];
      } else {
        assert l[k] == l[p + |a| + |b|..][k - p - |a| - |b|];
        assert r[k] == r[p + |a| + |b|..][k - p - |a| - |b|];
      }
    }
  }

  /**
   * Rewriting |c| bytes at offset k inside a region just written replaces
   * exactly those bytes of the region and nothing else.
   */
  lemma SplicePatch(d: seq<byte>, p: nat, s: seq<byte>, k: nat, c: seq<byte>)
    requires p <= |d| && k + |c| <= |s|
    ensures p + k <= |Splice(d, p, s)|
    ensures Splice(Splice(d, p, s), p + k, c) == Splice(d, p, s[..k] + c + s[k + |c|..])
  {
    var l := Splice(Splice(d, p, s), p + k, c);
    var s' := s[..k] + c + s[k + |c|..];
    var r := Splice(d, p, s');
    SpliceParts(d, p, s);
    SpliceParts(Splice(d, p, s), p + k, c);
    SpliceParts(d, p, s');
    assert |s'| == |s|;
    assert |l| == |r|;
    forall i | 0 <= i < |l| ensures l[i] == r[i] {
      if i < p {
        assert l[i] == l[..p][i];
      } else if i < p + |s| {
        assert r[i] == r[p..p + |s|][i - p] == s'[i - p];
        if i < p + k {
          assert l[i] == l[..p + k][i];
          assert Splice(d, p, s)[i] == Splice(d, p, s)[p..p + |s|][i - p];
        } else if i < p + k + |c| {
          assert l[i] == l[p + k..p + k + |c|][i - p - k];
        } else {
          assert l[i] == l[p + k + |c|..][i - p - k - |c|];
          assert Splice(d, p, s)[i] == Splice(d, p, s)[p..p + |s|][i - p];
        }
      } else {
        assert l[i] == l[p + k + |c|..][i - p - k - |c|];
        assert r[i] == r[p + |s|..][i - p - |s|];
      }
    }
  }

  class Buffer {
    var data: seq<byte>
    var pos: nat

    ghost predicate Valid()
      reads this
    {
      pos <= |data|
    }

    /** `BufferFromBytes`: a buffer over the given bytes, cursor at the start. */
    constructor FromBytes(b: seq<byte>)
      ensures Valid() && data == b && pos == 0
    {
      data := b;
      pos := 0;
    }

    /** All bytes held, whatever the cursor. */
    function Bytes(): seq<byte>
      reads this
    {
      data
    }

    /** The cursor. */
    function Pointer(): nat
      reads this
    {
      pos
    }

    function LeftToRead(): nat
      reads this
      requires Valid()
    {
      |data| - pos
    }

    method SetPointer(p: nat)
      requires p <= |data|
      modifies this
      ensures Valid() && data == old(data) && pos == p
    {
      pos := p;
    }

    method WriteByte(b: byte)
      requires Valid()
      modifies this
      ensures Valid()
      ensures data == Splice(old(data), old(pos), [b]) && pos == old(pos) + 1
      ensures old(pos) == |old(data)| ==> data == old(data) + [b]
    {
      if pos < |data| {
        data := data[pos := b];
      } else {
        data := data + [b];
      }
      pos := pos + 1;
    }

    method WriteBytes(bs: seq<byte>)
      requires Valid()
      modifies this
      ensures Valid()
      ensures data == Splice(old(data), old(pos), bs) && pos == old(pos) + |bs|
      ensures old(pos) == |old(data)| ==> data == old(data) + bs
    {
      var i := 0;
      while i < |bs|
        invariant 0 <= i <= |bs| && Valid()
        invariant data == Splice(old(data), old(pos), bs[..i]) && pos == old(pos) + i
      {
        WriteByte(bs[i]);
        SpliceAppend(old(data), old(pos), bs[..i], [bs[i]]);
        assert bs[..i] + [bs[i]] == bs[..i + 1];
        i := i + 1;
      }
      assert bs[..i] == bs;
      SpliceAtEnd(old(data), bs);
    }

    /** WriteUint8/16/32/64 and WriteInt8/16/32/64: the n low bytes of x. */
    method WriteUint(n: nat, x: int)
      requires Valid()
      modifies this
      ensures Valid()
      ensures data == Splice(old(data), old(pos), LE(n, x)) && pos == old(pos) + n
      ensures old(pos) == |old(data)| ==> data == old(data) + LE(n, x)
    {
      WriteBytes(LE(n, x));
    }

    /** WriteBool: one byte, 1 for true and 0 for false. */
    method WriteBool(b: bool)
      requires Valid()
      modifies this
      ensures Valid()
      ensures data == Splice(old(data), old(pos), [if b then 1 else 0]) && pos == old(pos) + 1
      ensures old(pos) == |old(data)| ==> data == old(data) + [if b then 1 else 0]
    {
      WriteByte(if b then 1 else 0);
    }

    method ReadBytes(n: nat) returns (ok: bool, bs: seq<byte>)
      requires Valid()
      modifies this
      ensures Valid() && data == old(data)
      ensures ok <==> old(pos) + n <= |data|
      ensures ok ==> bs == data[old(pos)..old(pos) + n] && pos == old(pos) + n
      ensures !ok ==> pos == old(pos)
    {
      ok := pos + n <= |data|;
      if ok {
        bs := data[pos..pos + n];
        pos := pos + n;
      } else {
        bs := [];
      }
    }

    /** ReadUint8/16/32/64: the next n bytes as an unsigned number. */
    method ReadUint(n: nat) returns (ok: bool, x: nat)
      requires Valid()
      modifies this
      ensures Valid() && data == old(data)
      ensures ok <==> old(pos) + n <= |data|
      ensures ok ==> x == FromLE(data[old(pos)..old(pos) + n]) && pos == old(pos) + n
      ensures !ok ==> pos == old(pos)
    {
      var bs;
      ok, bs := ReadBytes(n);
      x := FromLE(bs);
    }
  }
}
